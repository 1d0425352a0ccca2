/** Which exception a text raises: out_of_range comes from a number that does not convert, everything else is invalid_argument. */
module JsonErrors {
  import opened JsonValues
  import opened JsonText
  import opened JsonParser
  import opened JsonComplete
  import opened JsonSound
  import opened JsonTheorems

  /** A number token stands at these places that std::stod refuses, or that is an integer beyond 64 bits. */
  ghost predicate Unconvertible(s: string, i: nat, j: nat, n: Number, stod: Stod) {
    && i <= j <= |s| && s[i..j] == NumberText(n) && ValidNumber(n)
    && if n.IsInteger() then !(-0x8000_0000_0000_0000 <= IntegerValue(n) <= 0x7fff_ffff_ffff_ffff) else stod(NumberText(n)).None?
  }

  ghost predicate HasUnconvertible(s: string, stod: Stod) {
    exists i: nat, j: nat, n :: Unconvertible(s, i, j, n, stod)
  }

  lemma TokenOutOfRange(s: string, i: nat, j: nat, n: Number, whole: nat, stod: Stod)
    requires i <= j <= |s| && s[i..j] == NumberText(n) && ValidNumber(n) && (j > whole <==> !n.IsInteger())
    requires NumberText(n) != "" && NumberToken(NumberText(n), j > whole, j, stod) == Fail(OutOfRange)
    ensures HasUnconvertible(s, stod)
  {
    if n.IsInteger() {
      IntegerRead(n);
    }
    assert Unconvertible(s, i, j, n, stod);
  }

  lemma {:induction false} NumberOutOfRange(s: string, i: nat, stod: Stod)
    requires i < |s| && (s[i] == '-' || IsDigit(s[i])) && NumberLiteral(s, i, stod) == Fail(OutOfRange)
    ensures HasUnconvertible(s, stod)
  {
    var p1 := DigitsEnd(s, i + 1);
    var p2 := FractionEnd(s, p1).value;
    var j := ExponentEnd(s, p2).value;
    var n := NumberPartsSound(s, i, p1, p2, j);
    NumberLiteralIs(s, i, p1, p2, j, stod);
    TokenOutOfRange(s, i, j, n, p1, stod);
  }

  lemma {:induction false} CharsInvalid(s: string, i: nat, acc: string)
    requires i <= |s|
    ensures Chars(s, i, acc) != Fail(OutOfRange)
    decreases |s| - i
  {
    if i < |s| && s[i] != '"' {
      if s[i] == '\\' {
        var c := Unescape(CharAt(s, i + 1));
        if c.Some? {
          CharsInvalid(s, i + 2, acc + [c.value]);
        }
      } else {
        CharsInvalid(s, i + 1, acc + [s[i]]);
      }
    }
  }

  lemma {:induction false} StringInvalid(s: string, i: nat)
    requires i <= |s|
    ensures StringLiteral(s, i) != Fail(OutOfRange) && Key(s, i) != Fail(OutOfRange)
  {
    if i < |s| {
      CharsInvalid(s, i + 1, "");
    }
  }

  lemma {:induction false} ValueOutOfRange(s: string, i: nat, stod: Stod)
    requires i <= |s| && Value(s, i, stod) == Fail(OutOfRange)
    ensures HasUnconvertible(s, stod)
    decreases |s| - i, 3
  {
    var j := WhitespaceEnd(s, i);
    match s[j]
    case '{' => MembersOutOfRange(s, WhitespaceEnd(s, j + 1), [], stod);
    case '[' => ElementsOutOfRange(s, WhitespaceEnd(s, j + 1), [], stod);
    case '"' => StringInvalid(s, j);
    case _ => NumberOutOfRange(s, j, stod);
  }

  lemma {:induction false} ElementsOutOfRange(s: string, i: nat, acc: seq<Json>, stod: Stod)
    requires i <= |s| && Elements(s, i, acc, stod) == Fail(OutOfRange)
    ensures HasUnconvertible(s, stod)
    decreases |s| - i, 4
  {
    var v := Value(s, i, stod);
    if v.Fail? {
      ValueOutOfRange(s, i, stod);
    } else {
      ElementsOutOfRange(s, Separator(s, v.next, ']').value, acc + [v.value], stod);
    }
  }

  lemma {:induction false} MembersOutOfRange(s: string, i: nat, acc: JsonObject, stod: Stod)
    requires i <= |s| && Members(s, i, acc, stod) == Fail(OutOfRange)
    ensures HasUnconvertible(s, stod)
    decreases |s| - i, 4
  {
    StringInvalid(s, i);
    var key := Key(s, i);
    var v := Value(s, key.next, stod);
    if v.Fail? {
      ValueOutOfRange(s, key.next, stod);
    } else {
      MembersOutOfRange(s, Separator(s, v.next, '}').value, Put(acc, key.value, v.value), stod);
    }
  }

  /** Only a text with such a number raises out_of_range. */
  lemma {:induction false} OutOfRangeShowsNumber(s: string, stod: Stod)
    requires Document(s, stod) == Fail(OutOfRange)
    ensures HasUnconvertible(s, stod)
  {
    ValueOutOfRange(s, 0, stod);
  }
}
