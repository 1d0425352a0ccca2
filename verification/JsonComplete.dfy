/** Every derivation is parsed: wherever a tree derives a stretch of text, the parser returns its value and stops at its end. */
module JsonComplete {
  import opened JsonValues
  import opened JsonText
  import opened JsonParser
  import opened JsonGrammar

  lemma {:induction false} WhitespaceEndIs(s: string, i: nat, j: nat)
    requires Gap(s, i, j)
    requires j < |s| ==> !IsWhitespace(s[j])
    ensures WhitespaceEnd(s, i) == j
    decreases j - i
  {
    if i < j {
      assert s[i] == s[i..j][0];
      assert s[i + 1..j] == s[i..j][1..];
      WhitespaceEndIs(s, i + 1, j);
    }
  }

  lemma {:induction false} DigitsEndIs(s: string, i: nat, j: nat)
    requires i <= j <= |s| && AllDigits(s[i..j])
    requires j < |s| ==> !IsDigit(s[j])
    ensures DigitsEnd(s, i) == j
    decreases j - i
  {
    if i < j {
      assert s[i] == s[i..j][0];
      assert s[i + 1..j] == s[i..j][1..];
      DigitsEndIs(s, i + 1, j);
    }
  }

  // ----- numbers -----

  lemma {:induction false} WholeComplete(s: string, i: nat, p0: nat, p1: nat, n: Number)
    requires NonemptyDigits(n.whole) && Spells(s, i, p0, SignText(n.negative)) && Spells(s, p0, p1, n.whole)
    requires p1 < |s| ==> !IsDigit(s[p1])
    ensures s[i] == '-' || IsDigit(s[i])
    ensures s[i] == '-' <==> n.negative
    ensures n.negative ==> DigitAt(s, i + 1)
    ensures DigitsEnd(s, i + 1) == p1
  {
    if n.negative {
      OccursAt(s, i, "-", 0);
    }
    OccursAt(s, p0, n.whole, 0);
    assert s[i + 1..p1] == s[p0..p1][i + 1 - p0..];
    DigitsEndIs(s, i + 1, p1);
  }

  lemma FractionComplete(s: string, i: nat, j: nat, f: Option<string>)
    requires FractionAt(s, i, j, f) && (f.Some? ==> NonemptyDigits(f.value))
    requires j < |s| ==> !IsDigit(s[j]) && (f.None? ==> s[j] != '.')
    ensures FractionEnd(s, i) == Some(j)
    ensures i < j ==> s[i] == '.'
  {
    if f.Some? {
      OccursAt(s, i + 1, f.value, 0);
      DigitsEndIs(s, i + 1, j);
    }
  }

  lemma ExponentComplete(s: string, i: nat, j: nat, e: Option<Exponent>)
    requires ExponentAt(s, i, j, e) && ValidExponent(e)
    requires j < |s| ==> !IsDigit(s[j]) && (e.None? ==> s[j] != 'e' && s[j] != 'E')
    ensures ExponentEnd(s, i) == Some(j)
    ensures i < j ==> s[i] == 'e' || s[i] == 'E'
  {
    if e.Some? {
      var k := i + 1 + |e.value.sign|;
      OccursAt(s, k, e.value.digits, 0);
      DigitsEndIs(s, k, j);
      if e.value.sign != "" {
        OccursAt(s, i + 1, e.value.sign, 0);
      }
    }
  }

  lemma FractionTextAt(s: string, i: nat, j: nat, f: Option<string>)
    requires FractionAt(s, i, j, f)
    ensures Spells(s, i, j, FractionText(f))
  {
    if f.Some? {
      OccursSplit(s, i, ".", f.value);
    }
  }

  lemma ExponentTextAt(s: string, i: nat, j: nat, e: Option<Exponent>)
    requires ExponentAt(s, i, j, e)
    ensures Spells(s, i, j, ExponentText(e))
  {
    if e.Some? {
      OccursSplit(s, i, [e.value.mark], e.value.sign);
      OccursSplit(s, i, [e.value.mark] + e.value.sign, e.value.digits);
    }
  }

  lemma NumberTextAt(s: string, i: nat, p0: nat, p1: nat, p2: nat, j: nat, n: Number)
    requires Spells(s, i, p0, SignText(n.negative)) && Spells(s, p0, p1, n.whole)
    requires FractionAt(s, p1, p2, n.fraction) && ExponentAt(s, p2, j, n.exponent)
    ensures Spells(s, i, j, NumberText(n))
  {
    FractionTextAt(s, p1, p2, n.fraction);
    ExponentTextAt(s, p2, j, n.exponent);
    JoinFour(s, i, SignText(n.negative), n.whole, FractionText(n.fraction), ExponentText(n.exponent));
  }

  lemma JoinFour(s: string, i: nat, a: string, b: string, c: string, d: string)
    requires Occurs(s, i, a) && Occurs(s, i + |a|, b) && Occurs(s, i + |a| + |b|, c) && Occurs(s, i + |a| + |b| + |c|, d)
    ensures Occurs(s, i, a + (b + (c + d)))
  {
    OccursSplit(s, i + |a| + |b|, c, d);
    OccursSplit(s, i + |a|, b, c + d);
    OccursSplit(s, i, a, b + (c + d));
  }

  /** Success with a value and an end, exactly when `accepted`. */
  ghost predicate Outcome(r: Parsed<Json>, accepted: bool, v: Json, next: nat) {
    if accepted then r == Ok(v, next) else r.Fail?
  }

  lemma ToIntComplete(n: Number, stod: Stod)
    requires n.IsInteger() && ValidNumber(n)
    ensures Outcome(ToInt(NumberText(n)), Convertible(n, stod), NumberValue(n, stod), |NumberText(n)|)
  {
    var token := NumberText(n);
    assert token == SignText(n.negative) + n.whole;
    if n.negative {
      assert token[1..] == n.whole;
    } else {
      assert token == n.whole && token[0] != '-';
    }
  }

  /** What the parser computes from the ends of the three parts of a number. */
  lemma {:induction false} NumberLiteralIs(s: string, i: nat, p1: nat, p2: nat, p3: nat, stod: Stod)
    requires i < |s| && (s[i] == '-' || IsDigit(s[i])) && (s[i] == '-' ==> DigitAt(s, i + 1))
    requires DigitsEnd(s, i + 1) == p1 && FractionEnd(s, p1) == Some(p2) && ExponentEnd(s, p2) == Some(p3)
    ensures i < p1 <= p2 <= p3 <= |s|
    ensures NumberLiteral(s, i, stod) == NumberToken(s[i..p3], p3 > p1, p3, stod)
  {}

  function NumberToken(token: string, isDouble: bool, next: nat, stod: Stod): Parsed<Json>
    requires token != ""
  {
    if isDouble then
      if stod(token).None? then Fail(OutOfRange) else Ok(Double(stod(token).value), next)
    else
      match ToInt(token)
      case Ok(v, _) => Ok(v, next)
      case Fail(e) => Fail(e)
  }

  lemma NumberTokenComplete(n: Number, next: nat, stod: Stod)
    requires ValidNumber(n)
    ensures NumberText(n) != ""
    ensures Outcome(NumberToken(NumberText(n), !n.IsInteger(), next, stod), Convertible(n, stod), NumberValue(n, stod), next)
  {
    if n.IsInteger() {
      ToIntComplete(n, stod);
    }
  }

  lemma TailEnds(s: string, p1: nat, p2: nat, j: nat, n: Number)
    requires ValidNumber(n) && FractionAt(s, p1, p2, n.fraction) && ExponentAt(s, p2, j, n.exponent)
    requires j < |s| ==> Closes(n, s[j])
    ensures p1 <= p2 <= j <= |s| && FractionEnd(s, p1) == Some(p2) && ExponentEnd(s, p2) == Some(j)
    ensures p1 < |s| ==> !IsDigit(s[p1])
    ensures j > p1 <==> !n.IsInteger()
  {
    ExponentComplete(s, p2, j, n.exponent);
    FractionComplete(s, p1, p2, n.fraction);
  }

  lemma NumberScan(s: string, i: nat, p0: nat, p1: nat, p2: nat, j: nat, n: Number, stod: Stod)
    requires ValidNumber(n) && (j < |s| ==> Closes(n, s[j]))
    requires Spells(s, i, p0, SignText(n.negative)) && Spells(s, p0, p1, n.whole)
    requires FractionAt(s, p1, p2, n.fraction) && ExponentAt(s, p2, j, n.exponent)
    ensures i < j <= |s| && (s[i] == '-' || IsDigit(s[i]))
    ensures NumberLiteral(s, i, stod) == NumberToken(s[i..j], !n.IsInteger(), j, stod)
  {
    TailEnds(s, p1, p2, j, n);
    WholeComplete(s, i, p0, p1, n);
    NumberLiteralIs(s, i, p1, p2, j, stod);
  }

  lemma NumberScanned(s: string, i: nat, j: nat, n: Number, stod: Stod)
    requires ValidNumber(n) && NumberAt(s, i, j, n)
    requires j < |s| ==> Closes(n, s[j])
    ensures i < j <= |s| && (s[i] == '-' || IsDigit(s[i])) && s[i..j] == NumberText(n)
    ensures NumberLiteral(s, i, stod) == NumberToken(s[i..j], !n.IsInteger(), j, stod)
  {
    var p0: nat, p1: nat, p2: nat :| Spells(s, i, p0, SignText(n.negative)) && Spells(s, p0, p1, n.whole)
                                     && FractionAt(s, p1, p2, n.fraction) && ExponentAt(s, p2, j, n.exponent);
    NumberTextAt(s, i, p0, p1, p2, j, n);
    NumberScan(s, i, p0, p1, p2, j, n, stod);
  }

  lemma NumberComplete(s: string, i: nat, j: nat, n: Number, stod: Stod)
    requires ValidNumber(n) && NumberAt(s, i, j, n)
    requires j < |s| ==> Closes(n, s[j])
    ensures i < |s| && (s[i] == '-' || IsDigit(s[i]))
    ensures Outcome(NumberLiteral(s, i, stod), Convertible(n, stod), NumberValue(n, stod), j)
  {
    NumberScanned(s, i, j, n, stod);
    NumberTokenComplete(n, j, stod);
  }

  // ----- strings -----

  lemma {:induction false} CharsComplete(s: string, i: nat, j: nat, ps: seq<Piece>, acc: string)
    requires ValidPieces(ps) && PiecesAt(s, i, j, ps) && CharIs(s, j, '"')
    ensures Chars(s, i, acc) == Ok(acc + PiecesValue(ps), j + 1)
    decreases |ps|
  {
    if ps == [] {
      assert acc + "" == acc;
    } else {
      assert ValidPiece(ps[0]);
      CharsComplete(s, i + if ps[0].Raw? then 1 else 2, j, ps[1..], acc + [PieceChar(ps[0])]);
      assert acc + [PieceChar(ps[0])] + PiecesValue(ps[1..]) == acc + PiecesValue(ps);
    }
  }

  lemma {:induction false} LiteralComplete(s: string, i: nat, j: nat, ps: seq<Piece>)
    requires ValidPieces(ps) && LiteralAt(s, i, j, ps)
    ensures StringLiteral(s, i) == Ok(PiecesValue(ps), j)
  {
    CharsComplete(s, i + 1, j - 1, ps, "");
    assert "" + PiecesValue(ps) == PiecesValue(ps);
  }

  // ----- values -----

  lemma WordStart(s: string, i: nat, j: nat, word: string)
    requires Spells(s, i, j, word) && word != ""
    ensures i < |s| && s[i] == word[0]
  {
    OccursAt(s, i, word, 0);
  }

  lemma {:induction false} TreeStart(s: string, i: nat, j: nat, t: Tree)
    requires Lexical(t) && TreeAt(s, i, j, t)
    ensures i < j <= |s| && !IsWhitespace(s[i]) && s[i] !in "]},:"
  {
    match t
    case NullTree => WordStart(s, i, j, "null");
    case BoolTree(b) => WordStart(s, i, j, if b then "true" else "false");
    case NumberTree(n) =>
      if n.negative {
        OccursAt(s, i, "-", 0);
      } else {
        OccursAt(s, i, n.whole, 0);
      }
    case _ =>
  }

  /** The parser on a stretch of text that a tree derives: it succeeds exactly when the tree's numbers convert. */
  lemma {:induction false} ValueComplete(s: string, i: nat, j: nat, t: Tree, stod: Stod)
    requires Lexical(t) && TreeAt(s, i, j, t) && Follows(t, s, j)
    ensures i <= |s| && Outcome(Value(s, i, stod), Converts(t, stod), Meaning(t, stod), j)
    decreases t, 0
  {
    TreeStart(s, i, j, t);
    WhitespaceEndIs(s, i, i);
    match t
    case NullTree => WordStart(s, i, j, "null");
    case BoolTree(b) => WordStart(s, i, j, if b then "true" else "false");
    case NumberTree(n) => NumberComplete(s, i, j, n, stod);
    case StringTree(ps) => LiteralComplete(s, i, j, ps);
    case ArrayTree(items) => ArrayComplete(s, i, j, items, stod);
    case ObjectTree(pairs) => ObjectComplete(s, i, j, pairs, stod);
  }

  lemma {:induction false} ArrayComplete(s: string, i: nat, j: nat, items: Items, stod: Stod)
    requires LexicalItems(items) && CharIs(s, i, '[') && i + 1 < j
    requires ItemsAt(s, i + 1, j - 1, items) && CharIs(s, j - 1, ']')
    ensures Outcome(ArrayLiteral(s, i, stod), ConvertsItems(items, stod), Array(ItemsMeaning(items, stod)), j)
    decreases items, 1
  {
    ElementsComplete(s, i + 1, j - 1, items, [], stod);
    assert [] + ItemsMeaning(items, stod) == ItemsMeaning(items, stod);
  }

  lemma {:induction false} ObjectComplete(s: string, i: nat, j: nat, pairs: Pairs, stod: Stod)
    requires LexicalPairs(pairs) && CharIs(s, i, '{') && i + 1 < j
    requires PairsAt(s, i + 1, j - 1, pairs) && CharIs(s, j - 1, '}')
    ensures Outcome(ObjectLiteral(s, i, stod), ConvertsPairs(pairs, stod), Object(PairsMeaning(pairs, [], stod)), j)
    decreases pairs, 1
  {
    MembersComplete(s, i + 1, j - 1, pairs, [], stod);
  }

  lemma {:induction false} ValueAfterWhitespace(s: string, i: nat, stod: Stod)
    requires i <= |s|
    ensures Value(s, i, stod) == Value(s, WhitespaceEnd(s, i), stod)
  {
    WhitespaceEndIs(s, WhitespaceEnd(s, i), WhitespaceEnd(s, i));
  }

  lemma {:induction false} PaddedStart(s: string, i: nat, j: nat, t: Tree)
    requires Lexical(t) && PaddedAt(s, i, j, t)
    ensures i <= |s| && WhitespaceEnd(s, i) < |s| && s[WhitespaceEnd(s, i)] !in "]},:"
  {
    var p: nat, q: nat :| Gap(s, i, p) && TreeAt(s, p, q, t);
    TreeStart(s, p, q, t);
    WhitespaceEndIs(s, i, p);
  }

  lemma {:induction false} GapFollows(s: string, q: nat, j: nat, t: Tree)
    requires Gap(s, q, j) && (j < |s| ==> s[j] in ",]}")
    ensures Follows(t, s, q) && WhitespaceEnd(s, q) == j
  {
    WhitespaceEndIs(s, q, j);
    if q < j {
      assert s[q] == s[q..j][0];
    }
  }

  /** A padded value in front of a character that closes it. */
  lemma {:induction false} PaddedComplete(s: string, i: nat, j: nat, t: Tree, stod: Stod) returns (next: nat)
    requires Lexical(t) && PaddedAt(s, i, j, t)
    requires j < |s| ==> s[j] in ",]}"
    ensures i <= |s| && Value(s, i, stod) == Value(s, WhitespaceEnd(s, i), stod)
    ensures Outcome(Value(s, i, stod), Converts(t, stod), Meaning(t, stod), next)
    ensures next <= |s| && WhitespaceEnd(s, next) == j
    decreases t, 1
  {
    var p: nat, q: nat :| Gap(s, i, p) && TreeAt(s, p, q, t) && Gap(s, q, j);
    TreeStart(s, p, q, t);
    WhitespaceEndIs(s, i, p);
    GapFollows(s, q, j, t);
    ValueAfterWhitespace(s, i, stod);
    ValueComplete(s, p, q, t, stod);
    next := q;
  }

  lemma {:induction false} ItemsStart(s: string, i: nat, j: nat, xs: Items)
    requires LexicalItems(xs) && ItemsAt(s, i, j, xs) && xs.Items?
    ensures i <= |s| && WhitespaceEnd(s, i) < |s| && s[WhitespaceEnd(s, i)] !in "]},:"
  {
    var k: nat :| PaddedAt(s, i, k, xs.tree);
    PaddedStart(s, i, k, xs.tree);
  }

  /** Where the loops go on after a value that ends at `k`. */
  function Resume(s: string, k: nat, close: char): nat
    requires k < |s|
  {
    if s[k] == close then k else WhitespaceEnd(s, k + 1)
  }

  ghost predicate Separates(s: string, k: nat, close: char) {
    k < |s| && close in "]}" &&
    (s[k] == close || (s[k] == ',' && WhitespaceEnd(s, k + 1) < |s| && s[WhitespaceEnd(s, k + 1)] != close))
  }

  lemma {:induction false} SeparatorAt(s: string, next: nat, k: nat, close: char)
    requires next <= |s| && WhitespaceEnd(s, next) == k && Separates(s, k, close)
    ensures Separator(s, next, close) == Some(Resume(s, k, close))
  {}

  /** One turn of the array loop. */
  lemma {:induction false} ElementComplete(s: string, i: nat, k: nat, t: Tree, acc: seq<Json>, stod: Stod)
    requires Lexical(t) && PaddedAt(s, i, k, t) && Separates(s, k, ']')
    ensures i <= |s|
    ensures var r := Elements(s, WhitespaceEnd(s, i), acc, stod);
            if Converts(t, stod) then r == Elements(s, Resume(s, k, ']'), acc + [Meaning(t, stod)], stod) else r.Fail?
    decreases t, 2
  {
    PaddedStart(s, i, k, t);
    var next := PaddedComplete(s, i, k, t, stod);
    SeparatorAt(s, next, k, ']');
  }

  lemma {:induction false} Accumulate(acc: seq<Json>, xs: Items, stod: Stod)
    requires xs.Items?
    ensures acc + [Meaning(xs.tree, stod)] + ItemsMeaning(xs.rest, stod) == acc + ItemsMeaning(xs, stod)
  {}

  lemma {:induction false} ElementsComplete(s: string, i: nat, j: nat, xs: Items, acc: seq<Json>, stod: Stod)
    requires LexicalItems(xs) && ItemsAt(s, i, j, xs) && CharIs(s, j, ']')
    ensures i <= |s|
    ensures Outcome(Elements(s, WhitespaceEnd(s, i), acc, stod), ConvertsItems(xs, stod), Array(acc + ItemsMeaning(xs, stod)), j + 1)
    decreases xs, 0
  {
    if xs.NoItems? {
      WhitespaceEndIs(s, i, j);
      assert acc + [] == acc;
    } else {
      Accumulate(acc, xs, stod);
      var acc' := acc + [Meaning(xs.tree, stod)];
      if xs.rest.NoItems? {
        ElementComplete(s, i, j, xs.tree, acc, stod);
        ElementsComplete(s, j, j, xs.rest, acc', stod);
        WhitespaceEndIs(s, j, j);
      } else {
        var k: nat :| PaddedAt(s, i, k, xs.tree) && CharIs(s, k, ',') && ItemsAt(s, k + 1, j, xs.rest);
        ItemsStart(s, k + 1, j, xs.rest);
        ElementComplete(s, i, k, xs.tree, acc, stod);
        ElementsComplete(s, k + 1, j, xs.rest, acc', stod);
      }
    }
  }

  lemma {:induction false} KeyComplete(s: string, i: nat, j: nat, key: seq<Piece>)
    requires ValidPieces(key) && KeyAt(s, i, j, key)
    ensures i <= j <= |s| && CharIs(s, WhitespaceEnd(s, i), '"')
    ensures Key(s, WhitespaceEnd(s, i)) == Ok(PiecesValue(key), WhitespaceEnd(s, j))
  {
    var p: nat, q: nat :| Gap(s, i, p) && LiteralAt(s, p, q, key) && Gap(s, q, j - 1);
    WhitespaceEndIs(s, i, p);
    LiteralComplete(s, p, q, key);
    WhitespaceEndIs(s, q, j - 1);
    KeyRead(s, p, q, j - 1, PiecesValue(key));
  }

  lemma {:induction false} KeyRead(s: string, p: nat, q: nat, colon: nat, key: string)
    requires p <= |s| && q <= |s| && StringLiteral(s, p) == Ok(key, q) && WhitespaceEnd(s, q) == colon && CharIs(s, colon, ':')
    ensures Key(s, p) == Ok(key, WhitespaceEnd(s, colon + 1))
  {
  }

  lemma {:induction false} PairsStart(s: string, i: nat, j: nat, ps: Pairs)
    requires PairsAt(s, i, j, ps) && ps.Pairs? && ValidPieces(ps.key)
    ensures i <= |s| && CharIs(s, WhitespaceEnd(s, i), '"')
  {
    var k: nat :| PairAt(s, i, k, ps.key, ps.tree);
    var c: nat :| KeyAt(s, i, c, ps.key);
    KeyComplete(s, i, c, ps.key);
  }

  lemma {:induction false} MemberStep(s: string, i: nat, acc: JsonObject, key: string, start: nat, stod: Stod)
    requires CharIs(s, i, '"') && Key(s, i) == Ok(key, start) && start <= |s|
    ensures Value(s, start, stod).Fail? ==> Members(s, i, acc, stod).Fail?
    ensures var r := Value(s, start, stod);
            r.Ok? && Separator(s, r.next, '}').Some? ==>
              Members(s, i, acc, stod) == Members(s, Separator(s, r.next, '}').value, Put(acc, key, r.value), stod)
  {}

  /** One turn of the object loop. */
  lemma {:induction false} MemberComplete(s: string, i: nat, k: nat, key: seq<Piece>, t: Tree, acc: JsonObject, stod: Stod)
    requires ValidPieces(key) && Lexical(t) && PairAt(s, i, k, key, t) && Separates(s, k, '}')
    ensures i <= |s|
    ensures var r := Members(s, WhitespaceEnd(s, i), acc, stod);
            if Converts(t, stod) then r == Members(s, Resume(s, k, '}'), Put(acc, PiecesValue(key), Meaning(t, stod)), stod)
            else r.Fail?
    decreases t, 2
  {
    var c: nat :| KeyAt(s, i, c, key) && PaddedAt(s, c, k, t);
    KeyComplete(s, i, c, key);
    var next := PaddedComplete(s, c, k, t, stod);
    SeparatorAt(s, next, k, '}');
    MemberStep(s, WhitespaceEnd(s, i), acc, PiecesValue(key), WhitespaceEnd(s, c), stod);
  }

  lemma {:induction false} MembersComplete(s: string, i: nat, j: nat, ps: Pairs, acc: JsonObject, stod: Stod)
    requires LexicalPairs(ps) && PairsAt(s, i, j, ps) && CharIs(s, j, '}')
    ensures i <= |s|
    ensures Outcome(Members(s, WhitespaceEnd(s, i), acc, stod), ConvertsPairs(ps, stod), Object(PairsMeaning(ps, acc, stod)), j + 1)
    decreases ps, 0
  {
    if ps.NoPairs? {
      WhitespaceEndIs(s, i, j);
    } else if ps.rest.NoPairs? {
      assert ConvertsPairs(ps.rest, stod);
      MemberComplete(s, i, j, ps.key, ps.tree, acc, stod);
    } else {
      var k: nat :| PairAt(s, i, k, ps.key, ps.tree) && CharIs(s, k, ',') && PairsAt(s, k + 1, j, ps.rest);
      PairsStart(s, k + 1, j, ps.rest);
      MemberComplete(s, i, k, ps.key, ps.tree, acc, stod);
      MembersComplete(s, k + 1, j, ps.rest, Put(acc, PiecesValue(ps.key), Meaning(ps.tree, stod)), stod);
    }
  }

  /** A text of the grammar is accepted with the value it denotes, unless one of its numbers does not convert. */
  lemma {:induction false} DocumentComplete(s: string, t: Tree, stod: Stod)
    requires PaddedAt(s, 0, |s|, t) && Lexical(t)
    ensures Outcome(Document(s, stod), Converts(t, stod), Meaning(t, stod), |s|)
  {
    var _ := PaddedComplete(s, 0, |s|, t, stod);
  }
}
