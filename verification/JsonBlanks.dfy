/** What a text may begin with: blanks, which make no difference, or one of the characters that begin a value. */
module JsonBlanks {
  import opened JsonValues
  import opened JsonText
  import opened JsonParser
  import opened JsonComplete
  import JsonRfc

  // ----- the parser sees nothing of what lies before its index -----

  function Moved<T>(r: Parsed<T>, k: nat): Parsed<T> {
    match r
    case Ok(v, next) => Ok(v, k + next)
    case Fail(e) => Fail(e)
  }

  function MovedEnd(r: Option<nat>, k: nat): Option<nat> {
    if r.Some? then Some(k + r.value) else None
  }

  predicate SameAt(a: string, k: nat, s: string, i: nat) {
    k + i < |a| && i < |s| && a[k + i] == s[i]
  }

  /** From position `k` on, `a` is `s`. */
  ghost predicate Ends(a: string, k: nat, s: string) {
    |a| == k + |s| && forall i: nat {:trigger SameAt(a, k, s, i)} | i < |s| :: SameAt(a, k, s, i)
  }

  lemma SliceMoved(a: string, k: nat, s: string, i: nat, j: nat)
    requires Ends(a, k, s) && i <= j <= |s|
    ensures a[k + i..k + j] == s[i..j]
  {
    forall x | i <= x < j ensures a[k + x] == s[x] {
      assert SameAt(a, k, s, x);
    }
  }

  lemma {:induction false} WhitespaceMoved(a: string, k: nat, s: string, i: nat)
    requires Ends(a, k, s) && i <= |s|
    ensures WhitespaceEnd(a, k + i) == k + WhitespaceEnd(s, i)
    decreases |s| - i
  {
    assert i < |s| ==> SameAt(a, k, s, i);
    if i < |s| && IsWhitespace(a[k + i]) {
      WhitespaceMoved(a, k, s, i + 1);
    }
  }

  lemma {:induction false} DigitsMoved(a: string, k: nat, s: string, i: nat)
    requires Ends(a, k, s) && i <= |s|
    ensures DigitsEnd(a, k + i) == k + DigitsEnd(s, i)
    decreases |s| - i
  {
    assert i < |s| ==> SameAt(a, k, s, i);
    if i < |s| && IsDigit(a[k + i]) {
      DigitsMoved(a, k, s, i + 1);
    }
  }

  lemma {:induction false} CharsMoved(a: string, k: nat, s: string, i: nat, acc: string)
    requires Ends(a, k, s) && i <= |s|
    ensures Chars(a, k + i, acc) == Moved(Chars(s, i, acc), k)
    decreases |s| - i
  {
    assert i < |s| ==> SameAt(a, k, s, i);
    if i < |s| && s[i] != '"' {
      if s[i] == '\\' {
        assert i + 1 < |s| ==> SameAt(a, k, s, i + 1);
        var c := Unescape(CharAt(s, i + 1));
        if c.Some? {
          CharsMoved(a, k, s, i + 2, acc + [c.value]);
        }
      } else {
        CharsMoved(a, k, s, i + 1, acc + [s[i]]);
      }
    }
  }

  lemma {:induction false} StringMoved(a: string, k: nat, s: string, i: nat)
    requires Ends(a, k, s) && i <= |s|
    ensures StringLiteral(a, k + i) == Moved(StringLiteral(s, i), k)
  {
    assert i < |s| ==> SameAt(a, k, s, i);
    if i < |s| && s[i] == '"' {
      CharsMoved(a, k, s, i + 1, "");
    }
  }

  lemma {:induction false} FractionMoved(a: string, k: nat, s: string, i: nat)
    requires Ends(a, k, s) && i <= |s|
    ensures FractionEnd(a, k + i) == MovedEnd(FractionEnd(s, i), k)
  {
    if i < |s| {
      assert SameAt(a, k, s, i) && (i + 1 < |s| ==> SameAt(a, k, s, i + 1));
      DigitsMoved(a, k, s, i + 1);
    }
  }

  lemma {:induction false} ExponentMoved(a: string, k: nat, s: string, i: nat)
    requires Ends(a, k, s) && i <= |s|
    ensures ExponentEnd(a, k + i) == MovedEnd(ExponentEnd(s, i), k)
  {
    assert i < |s| ==> SameAt(a, k, s, i);
    if i < |s| && (s[i] == 'e' || s[i] == 'E') {
      assert (i + 1 < |s| ==> SameAt(a, k, s, i + 1)) && (i + 2 < |s| ==> SameAt(a, k, s, i + 2));
      var j := if i + 1 < |s| && (s[i + 1] == '+' || s[i + 1] == '-') then i + 2 else i + 1;
      DigitsMoved(a, k, s, j);
    }
  }

  // Where the digits of a number and all of it end.
  datatype Ending = Ending(whole: nat, end: nat) | Malformed

  function EndingOf(s: string, i: nat): (r: Ending)
    requires i < |s|
    ensures r.Ending? ==> i < r.whole <= r.end <= |s|
  {
    if s[i] == '-' && !DigitAt(s, i + 1) then Malformed
    else
      var whole := DigitsEnd(s, i + 1);
      var fraction := FractionEnd(s, whole);
      if fraction.None? then Malformed
      else
        var end := ExponentEnd(s, fraction.value);
        if end.None? then Malformed else Ending(whole, end.value)
  }

  lemma {:induction false} EndingMoved(a: string, k: nat, s: string, i: nat)
    requires Ends(a, k, s) && i < |s|
    ensures EndingOf(a, k + i)
            == match EndingOf(s, i) case Malformed => Malformed case Ending(whole, end) => Ending(k + whole, k + end)
  {
    assert SameAt(a, k, s, i) && (i + 1 < |s| ==> SameAt(a, k, s, i + 1));
    if !(s[i] == '-' && !DigitAt(s, i + 1)) {
      DigitsMoved(a, k, s, i + 1);
      var whole := DigitsEnd(s, i + 1);
      FractionMoved(a, k, s, whole);
      var fraction := FractionEnd(s, whole);
      if fraction.Some? {
        ExponentMoved(a, k, s, fraction.value);
      }
    }
  }

  lemma {:induction false} NumberByEnding(s: string, i: nat, stod: Stod, e: Ending, token: string)
    requires i < |s| && (s[i] == '-' || IsDigit(s[i])) && e == EndingOf(s, i)
    requires token != "" && (e.Ending? ==> token == s[i..e.end])
    ensures e.Malformed? ==> NumberLiteral(s, i, stod) == Fail(InvalidArgument)
    ensures e.Ending? ==> NumberLiteral(s, i, stod) == NumberToken(token, e.end > e.whole, e.end, stod)
  {
    var whole := DigitsEnd(s, i + 1);
    var fraction := FractionEnd(s, whole);
    if e.Ending? {
      NumberLiteralIs(s, i, whole, fraction.value, e.end, stod);
    }
  }

  lemma {:induction false} NumberMoved(a: string, k: nat, s: string, i: nat, stod: Stod)
    requires Ends(a, k, s) && i < |s| && (s[i] == '-' || IsDigit(s[i]))
    ensures SameAt(a, k, s, i) && NumberLiteral(a, k + i, stod) == Moved(NumberLiteral(s, i, stod), k)
  {
    var e := EndingOf(s, i);
    var token := if e.Ending? then s[i..e.end] else "0";
    assert SameAt(a, k, s, i);
    EndingMoved(a, k, s, i);
    if e.Ending? {
      SliceMoved(a, k, s, i, e.end);
    }
    NumberByEnding(s, i, stod, e, token);
    NumberByEnding(a, k + i, stod, if e.Ending? then Ending(k + e.whole, k + e.end) else e, token);
  }

  lemma KeywordMoved(a: string, k: nat, s: string, i: nat, word: string, v: Json)
    requires Ends(a, k, s) && i <= |s|
    ensures Keyword(a, k + i, word, v) == Moved(Keyword(s, i, word, v), k)
  {
    if i + |word| <= |s| {
      SliceMoved(a, k, s, i, i + |word|);
    }
  }

  lemma {:induction false} SeparatorMoved(a: string, k: nat, s: string, i: nat, close: char)
    requires Ends(a, k, s) && i <= |s|
    ensures Separator(a, k + i, close) == MovedEnd(Separator(s, i, close), k)
  {
    WhitespaceMoved(a, k, s, i);
    var j := WhitespaceEnd(s, i);
    assert j < |s| ==> SameAt(a, k, s, j);
    if j < |s| && s[j] == ',' {
      WhitespaceMoved(a, k, s, j + 1);
      var next := WhitespaceEnd(s, j + 1);
      assert next < |s| ==> SameAt(a, k, s, next);
    }
  }

  lemma {:induction false} KeyMoved(a: string, k: nat, s: string, i: nat)
    requires Ends(a, k, s) && i <= |s|
    ensures Key(a, k + i) == Moved(Key(s, i), k)
  {
    StringMoved(a, k, s, i);
    var key := StringLiteral(s, i);
    if key.Ok? {
      WhitespaceMoved(a, k, s, key.next);
      var j := WhitespaceEnd(s, key.next);
      if j < |s| {
        assert SameAt(a, k, s, j);
        WhitespaceMoved(a, k, s, j + 1);
      }
    }
  }

  lemma {:induction false} ValueMoved(a: string, k: nat, s: string, i: nat, stod: Stod)
    requires Ends(a, k, s) && i <= |s|
    ensures Value(a, k + i, stod) == Moved(Value(s, i, stod), k)
    decreases |s| - i, 3
  {
    WhitespaceMoved(a, k, s, i);
    var j := WhitespaceEnd(s, i);
    if j < |s| {
      assert SameAt(a, k, s, j);
      AfterBlanks(s, i, stod);
      AfterBlanks(a, k + i, stod);
      if s[j] == '{' {
        ObjectMoved(a, k, s, j, stod);
      } else if s[j] == '[' {
        ArrayMoved(a, k, s, j, stod);
      } else {
        ScalarMoved(a, k, s, j, stod);
      }
    }
  }

  lemma {:induction false} AfterBlanks(s: string, i: nat, stod: Stod)
    requires i <= |s|
    ensures Value(s, i, stod) == Value(s, WhitespaceEnd(s, i), stod)
  {
  }

  lemma {:induction false} ContainerAt(s: string, j: nat, stod: Stod)
    requires j < |s|
    ensures s[j] == '{' ==> Value(s, j, stod) == Members(s, WhitespaceEnd(s, j + 1), [], stod)
    ensures s[j] == '[' ==> Value(s, j, stod) == Elements(s, WhitespaceEnd(s, j + 1), [], stod)
  {
  }

  lemma {:induction false} ObjectMoved(a: string, k: nat, s: string, j: nat, stod: Stod)
    requires Ends(a, k, s) && j < |s| && s[j] == '{'
    ensures Value(a, k + j, stod) == Moved(Value(s, j, stod), k)
    decreases |s| - j, 2
  {
    assert SameAt(a, k, s, j);
    WhitespaceMoved(a, k, s, j + 1);
    ContainerAt(s, j, stod);
    ContainerAt(a, k + j, stod);
    MembersMoved(a, k, s, WhitespaceEnd(s, j + 1), [], stod);
  }

  lemma {:induction false} ArrayMoved(a: string, k: nat, s: string, j: nat, stod: Stod)
    requires Ends(a, k, s) && j < |s| && s[j] == '['
    ensures Value(a, k + j, stod) == Moved(Value(s, j, stod), k)
    decreases |s| - j, 2
  {
    assert SameAt(a, k, s, j);
    WhitespaceMoved(a, k, s, j + 1);
    ContainerAt(s, j, stod);
    ContainerAt(a, k + j, stod);
    ElementsMoved(a, k, s, WhitespaceEnd(s, j + 1), [], stod);
  }

  lemma {:induction false} ScalarMoved(a: string, k: nat, s: string, j: nat, stod: Stod)
    requires Ends(a, k, s) && j < |s| && !IsWhitespace(s[j]) && s[j] != '{' && s[j] != '['
    ensures Value(a, k + j, stod) == Moved(Value(s, j, stod), k)
  {
    assert SameAt(a, k, s, j);
    match s[j]
    case '"' => StringMoved(a, k, s, j);
    case 't' => KeywordMoved(a, k, s, j, "true", Bool(true));
    case 'f' => KeywordMoved(a, k, s, j, "false", Bool(false));
    case 'n' => KeywordMoved(a, k, s, j, "null", Null);
    case c =>
      if c == '-' || IsDigit(c) {
        NumberMoved(a, k, s, j, stod);
      }
  }

  // How a turn of the array or object loop ends: with what was read, and where the next turn starts.
  datatype Turn = Failed(error: Error) | Next(key: string, value: Json, next: nat)

  /** From the value on; in an array the key is empty. */
  function TurnOf(s: string, i: nat, key: string, close: char, stod: Stod): (t: Turn)
    requires i <= |s|
    ensures t.Next? ==> i < t.next <= |s|
  {
    var v := Value(s, i, stod);
    if v.Fail? then Failed(v.error)
    else
      var sep := Separator(s, v.next, close);
      if sep.None? then Failed(InvalidArgument) else Next(key, v.value, sep.value)
  }

  function MovedTurn(t: Turn, k: nat): Turn {
    match t
    case Failed(e) => Failed(e)
    case Next(key, v, next) => Next(key, v, k + next)
  }

  lemma {:induction false} TurnMoved(a: string, k: nat, s: string, i: nat, key: string, close: char, stod: Stod)
    requires Ends(a, k, s) && i <= |s|
    ensures TurnOf(a, k + i, key, close, stod) == MovedTurn(TurnOf(s, i, key, close, stod), k)
    decreases |s| - i, 4
  {
    ValueMoved(a, k, s, i, stod);
    var v := Value(s, i, stod);
    if v.Ok? {
      SeparatorMoved(a, k, s, v.next, close);
    }
  }

  lemma {:induction false} ElementsByTurn(s: string, i: nat, acc: seq<Json>, stod: Stod, t: Turn)
    requires i < |s| && s[i] != ']' && t == TurnOf(s, i, "", ']', stod)
    ensures t.Failed? ==> Elements(s, i, acc, stod) == Fail(t.error)
    ensures t.Next? ==> Elements(s, i, acc, stod) == Elements(s, t.next, acc + [t.value], stod)
  {
  }

  lemma {:induction false} ElementsMoved(a: string, k: nat, s: string, i: nat, acc: seq<Json>, stod: Stod)
    requires Ends(a, k, s) && i <= |s|
    ensures Elements(a, k + i, acc, stod) == Moved(Elements(s, i, acc, stod), k)
    decreases |s| - i, 5
  {
    assert i < |s| ==> SameAt(a, k, s, i);
    if i < |s| && s[i] != ']' {
      var t := TurnOf(s, i, "", ']', stod);
      TurnMoved(a, k, s, i, "", ']', stod);
      ElementsByTurn(s, i, acc, stod, t);
      ElementsByTurn(a, k + i, acc, stod, MovedTurn(t, k));
      if t.Next? {
        ElementsMoved(a, k, s, t.next, acc + [t.value], stod);
      }
    }
  }

  function MemberTurn(s: string, i: nat, stod: Stod): (t: Turn)
    requires i <= |s|
    ensures t.Next? ==> i < t.next <= |s|
  {
    var key := Key(s, i);
    if key.Fail? then Failed(key.error) else TurnOf(s, key.next, key.value, '}', stod)
  }

  lemma {:induction false} MemberTurnMoved(a: string, k: nat, s: string, i: nat, stod: Stod)
    requires Ends(a, k, s) && i <= |s|
    ensures MemberTurn(a, k + i, stod) == MovedTurn(MemberTurn(s, i, stod), k)
    decreases |s| - i, 4
  {
    var key := Key(s, i);
    KeyMoved(a, k, s, i);
    if key.Ok? {
      TurnMoved(a, k, s, key.next, key.value, '}', stod);
    }
  }

  /** One turn of the same loop in both texts. */
  lemma {:induction false} MembersByTurn(a: string, k: nat, s: string, i: nat, acc: JsonObject, stod: Stod, t: Turn)
    returns (more: JsonObject)
    requires i < |s| && s[i] != '}' && k + i < |a| && a[k + i] != '}'
    requires t == MemberTurn(s, i, stod) && MovedTurn(t, k) == MemberTurn(a, k + i, stod)
    ensures t.Failed? ==> Members(s, i, acc, stod) == Fail(t.error) == Members(a, k + i, acc, stod)
    ensures t.Next? ==>
              && Members(s, i, acc, stod) == Members(s, t.next, more, stod)
              && Members(a, k + i, acc, stod) == Members(a, k + t.next, more, stod)
  {
    more := if t.Failed? then acc else Put(acc, t.key, t.value);
  }

  lemma {:induction false} MembersMoved(a: string, k: nat, s: string, i: nat, acc: JsonObject, stod: Stod)
    requires Ends(a, k, s) && i <= |s|
    ensures Members(a, k + i, acc, stod) == Moved(Members(s, i, acc, stod), k)
    decreases |s| - i, 5
  {
    assert i < |s| ==> SameAt(a, k, s, i);
    if i < |s| && s[i] != '}' {
      var t := MemberTurn(s, i, stod);
      MemberTurnMoved(a, k, s, i, stod);
      var more := MembersByTurn(a, k, s, i, acc, stod, t);
      if t.Next? {
        MembersMoved(a, k, s, t.next, more, stod);
      }
    }
  }

  // ----- the first character of a text -----

  /** Before any text, each of the four blanks of the standard changes nothing but the end: neither value nor exception. */
  lemma {:induction false} LeadingBlank(c: char, s: string, stod: Stod)
    requires JsonRfc.Blank(c)
    ensures Document([c] + s, stod) == Moved(Document(s, stod), 1)
  {
    var a := [c] + s;
    assert Value(a, 0, stod) == Value(a, 1, stod);
    ValueMoved(a, 1, s, 0, stod);
    var v := Value(s, 0, stod);
    if v.Ok? {
      WhitespaceMoved(a, 1, s, v.next);
    }
  }

  /** The codes of the characters that begin a value: a quotation mark, a minus, the digits, brackets, and f, n, t. */
  predicate Begins(c: char) {
    var code := c as int;
    code in {0x22, 0x2D, 0x5B, 0x66, 0x6E, 0x74, 0x7B} || 0x30 <= code <= 0x39
  }

  /** Any other character makes the text fail, whatever follows; so does an empty text. */
  lemma OtherStart(s: string, stod: Stod)
    requires s == "" || !(JsonRfc.Blank(s[0]) || Begins(s[0]))
    ensures Document(s, stod) == Fail(InvalidArgument)
  {
  }

  /** A shortest value that begins with the character. */
  function Shortest(c: char): JsonRfc.Value {
    match c
    case '"' => JsonRfc.Str([])
    case '[' => JsonRfc.EmptyArr("")
    case '{' => JsonRfc.EmptyObj("")
    case 't' => JsonRfc.True
    case 'f' => JsonRfc.False
    case 'n' => JsonRfc.Null
    case _ => JsonRfc.Num(JsonRfc.Number(c == '-', if c == '-' then "0" else [c], "", 'e', "", ""))
  }

  /** A character can begin an accepted text exactly when it is a blank or one of those that begin a value. */
  lemma {:induction false} StartsIff(c: char, stod: Stod)
    ensures (exists rest :: Document([c] + rest, stod).Ok?) <==> JsonRfc.Blank(c) || Begins(c)
  {
    forall rest | Document([c] + rest, stod).Ok? ensures JsonRfc.Blank(c) || Begins(c) {
      if !(JsonRfc.Blank(c) || Begins(c)) {
        OtherStart([c] + rest, stod);
      }
    }
    if JsonRfc.Blank(c) {
      Accepted(JsonRfc.True, stod);
      LeadingBlank(c, JsonRfc.ValueText(JsonRfc.True), stod);
    } else if Begins(c) {
      var text := JsonRfc.ValueText(Shortest(c));
      ShortestBegins(c);
      Accepted(Shortest(c), stod);
      assert [c] + text[1..] == text;
    }
  }

  lemma ShortestBegins(c: char)
    requires Begins(c)
    ensures JsonRfc.ValueText(Shortest(c)) != "" && JsonRfc.ValueText(Shortest(c))[0] == c
    ensures JsonRfc.IsValue(Shortest(c)) && forall stod :: JsonRfc.ValueInRange(Shortest(c), stod)
  {
    var digits := if c == '-' then "0" else [c];
    assert digits[1..] == "" && JsonRfc.Power10(0) == 1;
    assert JsonRfc.Places(digits) == digits[0] as int - 0x30;
  }

  lemma {:induction false} Accepted(v: JsonRfc.Value, stod: Stod)
    requires JsonRfc.IsValue(v) && JsonRfc.ValueInRange(v, stod)
    ensures Document(JsonRfc.ValueText(v), stod).Ok?
  {
    var p := JsonRfc.Padded("", v, "");
    assert JsonRfc.PaddedText(p) == JsonRfc.ValueText(v);
    JsonRfc.RfcTextsAccepted(p, stod);
  }
}
