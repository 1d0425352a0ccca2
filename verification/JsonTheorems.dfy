/** What printing and parsing mean for each other and for the grammar. */
module JsonTheorems {
  import opened JsonValues
  import opened JsonText
  import opened JsonPrinter
  import opened JsonParser
  import opened JsonGrammar
  import opened JsonComplete
  import opened JsonSound
  import opened JsonPrinted

  // ----- the parser accepts exactly the grammar -----

  /** deserialize returns `v` for a text exactly when the grammar derives that text with the value `v`. */
  lemma AcceptsExactlyTheGrammar(s: string, v: Json, stod: Stod)
    ensures Document(s, stod) == Ok(v, |s|) <==> exists t :: Derives(t, s, stod) && Meaning(t, stod) == v
  {
    if Document(s, stod).Ok? {
      var t := DocumentSound(s, stod);
    }
    forall t | Derives(t, s, stod) ensures Document(s, stod) == Ok(Meaning(t, stod), |s|) {
      DocumentComplete(s, t, stod);
    }
  }

  /** parseValue consumes exactly a derived stretch: the one from the first non-blank to `j`, if nothing extends it. */
  lemma {:induction false} ConsumesExactlyTheDerivedSpan(s: string, i: nat, j: nat, v: Json, stod: Stod)
    requires i <= |s|
    ensures Value(s, i, stod) == Ok(v, j) <==>
            exists t :: TreeAt(s, WhitespaceEnd(s, i), j, t) && Lexical(t) && Converts(t, stod)
                        && Follows(t, s, j) && Meaning(t, stod) == v
  {
    if Value(s, i, stod) == Ok(v, j) {
      var t := ValueSound(s, i, stod);
    }
    ValueAfterWhitespace(s, i, stod);
    forall t | TreeAt(s, WhitespaceEnd(s, i), j, t) && Lexical(t) && Converts(t, stod) && Follows(t, s, j)
      ensures Value(s, i, stod) == Ok(Meaning(t, stod), j)
    {
      ValueComplete(s, WhitespaceEnd(s, i), j, t, stod);
    }
  }

  /** The grammar gives no text two values. */
  lemma {:induction false} Unambiguous(s: string, t1: Tree, t2: Tree, stod: Stod)
    requires Derives(t1, s, stod) && Derives(t2, s, stod)
    ensures Meaning(t1, stod) == Meaning(t2, stod)
  {
    DocumentComplete(s, t1, stod);
    DocumentComplete(s, t2, stod);
  }

  // ----- the round trip -----

  /** A printed value reads back unchanged exactly when each of its doubles does. */
  ghost predicate Stable(v: Json, format: Format, stod: Stod) {
    match v
    case Double(d) => Convertible(format(d), stod) && NumberValue(format(d), stod) == v
    case Array(elems) => forall i | 0 <= i < |elems| :: Stable(elems[i], format, stod)
    case Object(ms) => forall i | 0 <= i < |ms| :: Stable(ms[i].value, format, stod)
    case _ => true
  }

  ghost predicate DoubleFree(v: Json) {
    match v
    case Double(_) => false
    case Array(elems) => forall i | 0 <= i < |elems| :: DoubleFree(elems[i])
    case Object(ms) => forall i | 0 <= i < |ms| :: DoubleFree(ms[i].value)
    case _ => true
  }

  lemma {:induction false} DoubleFreeStable(v: Json, format: Format, stod: Stod)
    requires DoubleFree(v)
    ensures Stable(v, format, stod)
  {
    match v
    case Array(elems) =>
      forall i | 0 <= i < |elems| ensures Stable(elems[i], format, stod) {
        DoubleFreeStable(elems[i], format, stod);
      }
    case Object(ms) =>
      forall i | 0 <= i < |ms| ensures Stable(ms[i].value, format, stod) {
        DoubleFreeStable(ms[i].value, format, stod);
      }
    case _ =>
  }

  /** The tree of a value denotes that value exactly when the value is stable. */
  ghost predicate Denotes(t: Tree, v: Json, stod: Stod) {
    Converts(t, stod) && Meaning(t, stod) == v
  }

  lemma {:induction false} TreeDenotes(v: Json, format: Format, stod: Stod)
    requires WritesNumbers(format)
    ensures Lexical(TreeOf(v, format))
    ensures Denotes(TreeOf(v, format), v, stod) <==> Stable(v, format, stod)
    decreases v, 0
  {
    match v
    case Int(n) => IntNumberValue(n);
    case String(s) => PiecesDenote(s);
    case Array(elems) => ArrayDenotes(elems, format, stod);
    case Object(ms) => ObjectDenotes(ms, format, stod);
    case _ =>
  }

  lemma {:induction false} ArrayDenotes(elems: seq<Json>, format: Format, stod: Stod)
    requires WritesNumbers(format)
    ensures LexicalItems(ItemsOf(elems, 0, format))
    ensures ConvertsItems(ItemsOf(elems, 0, format), stod) && ItemsMeaning(ItemsOf(elems, 0, format), stod) == elems
       <==> forall i | 0 <= i < |elems| :: Stable(elems[i], format, stod)
    decreases elems, |elems| + 1
  {
    ItemsDenote(elems, 0, format, stod);
    assert elems[0..] == elems;
  }

  lemma {:induction false} ObjectDenotes(ms: JsonObject, format: Format, stod: Stod)
    requires WritesNumbers(format)
    ensures LexicalPairs(PairsOf(ms, 0, format))
    ensures ConvertsPairs(PairsOf(ms, 0, format), stod) && PairsMeaning(PairsOf(ms, 0, format), [], stod) == ms
       <==> forall i | 0 <= i < |ms| :: Stable(ms[i].value, format, stod)
    decreases ms, |ms| + 1
  {
    MembersReread(ms, 0, [], format, stod);
    MembersDenote(ms, 0, format, stod);
    assert ms[0..] == ms;
    assert [] + Reread(ms, 0, format, stod) == Reread(ms, 0, format, stod);
  }

  lemma {:induction false} ItemsDenote(elems: seq<Json>, k: nat, format: Format, stod: Stod)
    requires WritesNumbers(format) && k <= |elems|
    ensures LexicalItems(ItemsOf(elems, k, format))
    ensures ConvertsItems(ItemsOf(elems, k, format), stod) && ItemsMeaning(ItemsOf(elems, k, format), stod) == elems[k..]
       <==> forall i | k <= i < |elems| :: Stable(elems[i], format, stod)
    decreases elems, |elems| - k
  {
    if k < |elems| {
      TreeDenotes(elems[k], format, stod);
      ItemsDenote(elems, k + 1, format, stod);
      var v, rest := Meaning(TreeOf(elems[k], format), stod), ItemsMeaning(ItemsOf(elems, k + 1, format), stod);
      assert elems[k..] == [elems[k]] + elems[k + 1..];
      assert [v] + rest == elems[k..] <==> v == elems[k] && rest == elems[k + 1..] by {
        assert ([v] + rest)[0] == v && ([v] + rest)[1..] == rest;
        assert elems[k..][0] == elems[k] && elems[k..][1..] == elems[k + 1..];
      }
    }
  }

  /** The members as they read back: the same keys, each with the value of its printed text. */
  function Reread(ms: JsonObject, k: nat, format: Format, stod: Stod): seq<Member>
    requires k <= |ms|
    decreases |ms| - k
  {
    if k == |ms| then []
    else [Entry(ms[k].key, Meaning(TreeOf(ms[k].value, format), stod))] + Reread(ms, k + 1, format, stod)
  }

  lemma Associative<T>(a: seq<T>, b: seq<T>, c: seq<T>)
    ensures a + b + c == a + (b + c)
  {}

  lemma {:induction false} MembersReread(ms: JsonObject, k: nat, acc: JsonObject, format: Format, stod: Stod)
    requires k <= |ms| && forall m, i | m in acc && k <= i < |ms| :: Less(m.key, ms[i].key)
    ensures PairsMeaning(PairsOf(ms, k, format), acc, stod) == acc + Reread(ms, k, format, stod)
    decreases |ms| - k
  {
    if k < |ms| {
      PiecesDenote(ms[k].key);
      var entry := Entry(ms[k].key, Meaning(TreeOf(ms[k].value, format), stod));
      var acc' := Put(acc, entry.key, entry.value);
      PutAppends(acc, entry.key, entry.value);
      MembersReread(ms, k + 1, acc', format, stod);
      Associative(acc, [entry], Reread(ms, k + 1, format, stod));
    } else {
      assert acc + [] == acc;
    }
  }

  lemma {:induction false} MembersDenote(ms: JsonObject, k: nat, format: Format, stod: Stod)
    requires WritesNumbers(format) && k <= |ms|
    ensures LexicalPairs(PairsOf(ms, k, format))
    ensures ConvertsPairs(PairsOf(ms, k, format), stod) && Reread(ms, k, format, stod) == ms[k..]
       <==> forall i | k <= i < |ms| :: Stable(ms[i].value, format, stod)
    decreases ms, |ms| - k
  {
    if k < |ms| {
      PiecesDenote(ms[k].key);
      TreeDenotes(ms[k].value, format, stod);
      MembersDenote(ms, k + 1, format, stod);
      var m, rest := Entry(ms[k].key, Meaning(TreeOf(ms[k].value, format), stod)), Reread(ms, k + 1, format, stod);
      assert [m] + rest == ms[k..] <==> m == ms[k] && rest == ms[k + 1..] by {
        assert ([m] + rest)[0] == m && ([m] + rest)[1..] == rest;
        assert ms[k..][0] == ms[k] && ms[k..][1..] == ms[k + 1..];
        assert ms[k..] == [ms[k]] + ms[k + 1..];
      }
    }
  }

  /**
   * Parsing in context: wherever the text of a stable value stands, followed by nothing that would
   * extend a number, the parser returns that value and stops at the end of the text.
   */
  lemma {:induction false} ParsesInContext(s: string, i: nat, j: nat, v: Json, format: Format, stod: Stod)
    requires WritesNumbers(format) && Stable(v, format, stod)
    requires Spells(s, i, j, Print(v, format)) && Follows(TreeOf(v, format), s, j)
    ensures Value(s, i, stod) == Ok(v, j)
  {
    Printed(s, i, j, v, format);
    TreeDenotes(v, format, stod);
    ValueComplete(s, i, j, TreeOf(v, format), stod);
  }

  /** deserialize undoes serialize exactly on the stable values: no other value comes back unchanged. */
  lemma {:induction false} RoundTrip(v: Json, format: Format, stod: Stod)
    requires WritesNumbers(format)
    ensures Document(Print(v, format), stod) == Ok(v, |Print(v, format)|) <==> Stable(v, format, stod)
  {
    var s := Print(v, format);
    assert s[0..|s|] == s;
    Printed(s, 0, |s|, v, format);
    PaddedExactly(s, 0, |s|, TreeOf(v, format));
    TreeDenotes(v, format, stod);
    DocumentComplete(s, TreeOf(v, format), stod);
  }

  /** Without doubles the round trip never fails, whatever the strings, keys and nesting. */
  lemma {:induction false} DoubleFreeRoundTrip(v: Json, format: Format, stod: Stod)
    requires WritesNumbers(format) && DoubleFree(v)
    ensures Document(Print(v, format), stod) == Ok(v, |Print(v, format)|)
  {
    DoubleFreeStable(v, format, stod);
    RoundTrip(v, format, stod);
  }

  /** A double that the stream writes without point or exponent, such as 1.0, comes back as something else. */
  lemma WholeDoubleChanges(d: real, format: Format, stod: Stod)
    requires WritesNumbers(format) && format(d).IsInteger()
    ensures Document(Print(Double(d), format), stod) != Ok(Double(d), |Print(Double(d), format)|)
  {
    RoundTrip(Double(d), format, stod);
  }

  // ----- printed text as a canonical form -----

  lemma {:induction false} PrintInjective(v: Json, w: Json, format: Format, stod: Stod)
    requires WritesNumbers(format) && Stable(v, format, stod) && Stable(w, format, stod)
    requires Print(v, format) == Print(w, format)
    ensures v == w
  {
    RoundTrip(v, format, stod);
    RoundTrip(w, format, stod);
  }

  /** The text obtained by parsing and printing again. */
  function Normalized(s: string, format: Format, stod: Stod): Option<string> {
    var r := Document(s, stod);
    if r.Ok? then Some(Print(r.value, format)) else None
  }

  /** Normalizing keeps the value of an accepted text, and a normalized text is normalized. */
  lemma NormalizedIsCanonical(s: string, format: Format, stod: Stod)
    requires WritesNumbers(format) && Document(s, stod).Ok? && Stable(Document(s, stod).value, format, stod)
    ensures var n := Normalized(s, format, stod).value;
            Document(n, stod) == Ok(Document(s, stod).value, |n|) && Normalized(n, format, stod) == Some(n)
  {
    RoundTrip(Document(s, stod).value, format, stod);
  }

  /** An object prints the same whatever the order in which its members were written. */
  lemma {:induction false} PrintIgnoresInsertionOrder(a: Pairs, b: Pairs, format: Format, stod: Stod)
    requires forall key :: LastBinding(a, key, stod) == LastBinding(b, key, stod)
    ensures Print(Object(PairsMeaning(a, [], stod)), format) == Print(Object(PairsMeaning(b, [], stod)), format)
  {
    var x, y := PairsMeaning(a, [], stod), PairsMeaning(b, [], stod);
    forall key ensures Find(x, key) == Find(y, key) {
      LastDuplicateWins(a, [], key, stod);
      LastDuplicateWins(b, [], key, stod);
      assert LastBinding(a, key, stod) == LastBinding(b, key, stod);
    }
    ObjectExtensional(x, y);
  }

  // ----- number tokens -----

  /**
   * Sign and digits, leading zeros included, form an Int exactly when their value fits an `int`; else the exception tells
   * whether it fits 64 bits.
   */
  lemma IntegerTokens(s: string, n: Number, stod: Stod)
    requires NonemptyDigits(n.whole) && n.IsInteger() && s == SignText(n.negative) + n.whole
    ensures var k := IntegerValue(n);
      Document(s, stod)
      == if -0x8000_0000 <= k <= 0x7fff_ffff then Ok(Int(k), |s|)
         else if -0x8000_0000_0000_0000 <= k <= 0x7fff_ffff_ffff_ffff then Fail(InvalidArgument)
         else Fail(OutOfRange)
  {
    assert NumberText(n) == s;
    IntegerRead(n);
    NumberAlone(s, n, stod);
  }

  lemma IntegerRead(n: Number)
    requires NonemptyDigits(n.whole) && n.IsInteger()
    ensures var k := IntegerValue(n);
      NumberText(n) != "" && ToInt(NumberText(n))
      == if -0x8000_0000 <= k <= 0x7fff_ffff then Ok(Int(k), |NumberText(n)|)
         else if -0x8000_0000_0000_0000 <= k <= 0x7fff_ffff_ffff_ffff then Fail(InvalidArgument)
         else Fail(OutOfRange)
  {
    var token := NumberText(n);
    assert token == SignText(n.negative) + n.whole;
    if n.negative {
      assert token[1..] == n.whole;
    } else {
      assert token == n.whole && token[0] != '-';
    }
  }

  /** A token with a fraction or an exponent is what std::stod makes of all of it, whose exception is out_of_range. */
  lemma DoubleTokens(n: Number, stod: Stod)
    requires ValidNumber(n) && !n.IsInteger()
    ensures var s := NumberText(n);
      Document(s, stod) == if stod(s).Some? then Ok(Double(stod(s).value), |s|) else Fail(OutOfRange)
  {
    NumberAlone(NumberText(n), n, stod);
  }

  lemma NumberAlone(s: string, n: Number, stod: Stod)
    requires ValidNumber(n) && NumberText(n) == s
    ensures s != "" && Document(s, stod) == NumberToken(s, !n.IsInteger(), |s|, stod)
  {
    assert s[0..|s|] == s;
    NumberPrinted(s, 0, |s|, n);
    NumberScanned(s, 0, |s|, n, stod);
    LiteralAlone(s, NumberToken(s, !n.IsInteger(), |s|, stod), stod);
  }

  lemma LiteralAlone(s: string, r: Parsed<Json>, stod: Stod)
    requires s != "" && (s[0] == '-' || IsDigit(s[0])) && NumberLiteral(s, 0, stod) == r && (r.Ok? ==> r.next == |s|)
    ensures Document(s, stod) == r
  {
    assert Value(s, 0, stod) == r;
  }

  lemma {:induction false} NumberPadded(s: string, n: Number)
    requires NumberText(n) == s
    ensures PaddedAt(s, 0, |s|, NumberTree(n))
  {
    assert s[0..|s|] == s;
    NumberPrinted(s, 0, |s|, n);
    PaddedExactly(s, 0, |s|, NumberTree(n));
  }

  // ----- texts that are one number token -----

  /** The text does not end in whitespace. */
  predicate Solid(s: string) {
    s != "" && !IsWhitespace(s[|s| - 1])
  }

  lemma {:induction false} WhitespaceStops(s: string, k: nat)
    requires k < |s| && Solid(s)
    ensures WhitespaceEnd(s, k) < |s|
    decreases |s| - k
  {
    if IsWhitespace(s[k]) {
      WhitespaceStops(s, k + 1);
    }
  }

  /** All of the text is one number token, and it converts to `v`. */
  ghost predicate IsToken(s: string, v: Json, stod: Stod) {
    exists n :: ValidNumber(n) && NumberText(n) == s && Convertible(n, stod) && NumberValue(n, stod) == v
  }

  predicate NumberStart(s: string) {
    s != "" && (s[0] == '-' || IsDigit(s[0]))
  }

  /** A text that begins as a number, without blanks around it, reads as `v` exactly when it is a token of `v`. */
  lemma {:induction false} TokenReads(s: string, v: Json, stod: Stod)
    requires Solid(s) && NumberStart(s)
    ensures Document(s, stod) == Ok(v, |s|) <==> IsToken(s, v, stod)
  {
    if Document(s, stod) == Ok(v, |s|) {
      TokenOf(s, v, stod);
    }
    if n :| ValidNumber(n) && NumberText(n) == s && Convertible(n, stod) && NumberValue(n, stod) == v {
      NumberPadded(s, n);
      DocumentComplete(s, NumberTree(n), stod);
    }
  }

  lemma {:induction false} TokenOf(s: string, v: Json, stod: Stod)
    requires Solid(s) && NumberStart(s) && Document(s, stod) == Ok(v, |s|)
    ensures IsToken(s, v, stod)
  {
    assert Value(s, 0, stod) == NumberLiteral(s, 0, stod);
    var n, j := NumberSound(s, 0, stod);
    NumberScanned(s, 0, j, n, stod);
    if j < |s| {
      WhitespaceStops(s, j);
    }
    assert s[0..|s|] == s;
  }
}
