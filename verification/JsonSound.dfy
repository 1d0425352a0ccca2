/** Every accepted text is derived: a successful parse function has a tree for exactly the stretch it consumed. */
module JsonSound {
  import opened JsonValues
  import opened JsonText
  import opened JsonParser
  import opened JsonGrammar
  import opened JsonComplete

  lemma {:induction false} GapBefore(s: string, i: nat)
    requires i <= |s|
    ensures Gap(s, i, WhitespaceEnd(s, i))
  {
    WhitespaceBefore(s, i);
  }

  lemma {:induction false} CharsSound(s: string, i: nat, acc: string) returns (ps: seq<Piece>)
    requires i <= |s| && Chars(s, i, acc).Ok?
    ensures ValidPieces(ps) && PiecesAt(s, i, Chars(s, i, acc).next - 1, ps)
    ensures CharIs(s, Chars(s, i, acc).next - 1, '"')
    ensures Chars(s, i, acc).value == acc + PiecesValue(ps)
    decreases |s| - i
  {
    if s[i] == '"' {
      ps := [];
      assert acc + "" == acc;
    } else {
      var escaped := s[i] == '\\';
      var p := if escaped then Escaped(s[i + 1]) else Raw(s[i]);
      var next, acc' := if escaped then i + 2 else i + 1, acc + [PieceChar(p)];
      var rest := CharsSound(s, next, acc');
      ps := [p] + rest;
      assert ps[1..] == rest;
      assert acc' + PiecesValue(rest) == acc + PiecesValue(ps);
    }
  }

  lemma LiteralSound(s: string, i: nat) returns (ps: seq<Piece>)
    requires i <= |s| && StringLiteral(s, i).Ok?
    ensures ValidPieces(ps) && LiteralAt(s, i, StringLiteral(s, i).next, ps)
    ensures StringLiteral(s, i).value == PiecesValue(ps)
  {
    ps := CharsSound(s, i + 1, "");
    assert "" + PiecesValue(ps) == PiecesValue(ps);
  }

  // ----- numbers -----

  lemma SpellsSlice(s: string, i: nat, j: nat)
    requires i <= j <= |s|
    ensures Spells(s, i, j, s[i..j])
  {}

  lemma FractionSound(s: string, i: nat, j: nat) returns (f: Option<string>)
    requires i <= |s| && FractionEnd(s, i) == Some(j)
    ensures FractionAt(s, i, j, f) && (f.Some? ==> NonemptyDigits(f.value))
    ensures if f.None? then j == i && (i < |s| ==> s[i] != '.') else i < j <= |s| && !DigitAt(s, j)
  {
    f := None;
    if i < |s| && s[i] == '.' {
      DigitsBefore(s, i + 1);
      SpellsSlice(s, i + 1, j);
      f := Some(s[i + 1..j]);
    }
  }

  lemma OneChar(s: string, i: nat)
    requires i < |s|
    ensures s[i..i + 1] == [s[i]]
  {
  }

  lemma ExponentSound(s: string, i: nat, j: nat) returns (e: Option<Exponent>)
    requires i <= |s| && ExponentEnd(s, i) == Some(j)
    ensures ExponentAt(s, i, j, e) && ValidExponent(e)
    ensures if e.None? then j == i && (i < |s| ==> s[i] != 'e' && s[i] != 'E') else i < j <= |s| && !DigitAt(s, j)
  {
    e := None;
    if i < |s| && (s[i] == 'e' || s[i] == 'E') {
      var k := if i + 1 < |s| && (s[i + 1] == '+' || s[i + 1] == '-') then i + 2 else i + 1;
      DigitsBefore(s, k);
      SpellsSlice(s, i + 1, k);
      SpellsSlice(s, k, j);
      if k == i + 2 {
        OneChar(s, i + 1);
      }
      e := Some(Exponent(s[i], s[i + 1..k], s[k..j]));
    }
  }

  lemma WholeSound(s: string, i: nat, p1: nat) returns (p0: nat, negative: bool)
    requires i < |s| && (s[i] == '-' || IsDigit(s[i])) && (s[i] == '-' ==> DigitAt(s, i + 1))
    requires DigitsEnd(s, i + 1) == p1
    ensures Spells(s, i, p0, SignText(negative)) && p0 < p1 <= |s|
    ensures NonemptyDigits(s[p0..p1])
  {
    negative := s[i] == '-';
    p0 := if negative then i + 1 else i;
    DigitsBefore(s, i + 1);
    if !negative {
      assert s[i..p1] == [s[i]] + s[i + 1..p1];
    }
    SpellsSlice(s, i, p0);
    assert s[i..p0] == SignText(negative);
  }

  lemma NumberTokenSound(n: Number, next: nat, stod: Stod)
    requires ValidNumber(n)
    requires NumberText(n) != "" && NumberToken(NumberText(n), !n.IsInteger(), next, stod).Ok?
    ensures Convertible(n, stod) && NumberToken(NumberText(n), !n.IsInteger(), next, stod) == Ok(NumberValue(n, stod), next)
  {
    if n.IsInteger() {
      var token := NumberText(n);
      assert token == SignText(n.negative) + n.whole;
      assert if n.negative then token[1..] == n.whole else token == n.whole && token[0] != '-';
    }
  }

  lemma NumberJoined(s: string, i: nat, p0: nat, p1: nat, p2: nat, j: nat, n: Number)
    requires Spells(s, i, p0, SignText(n.negative)) && Spells(s, p0, p1, n.whole)
    requires FractionAt(s, p1, p2, n.fraction) && ExponentAt(s, p2, j, n.exponent)
    ensures NumberAt(s, i, j, n) && i <= j <= |s| && s[i..j] == NumberText(n)
  {
    NumberTextAt(s, i, p0, p1, p2, j, n);
  }

  /** What the end of each part says of the character behind the token. */
  lemma EndsClose(s: string, p1: nat, p2: nat, j: nat, n: Number)
    requires p1 <= |s| && !DigitAt(s, p1)
    requires if n.fraction.None? then p2 == p1 && (p1 < |s| ==> s[p1] != '.') else p1 < p2 <= |s| && !DigitAt(s, p2)
    requires if n.exponent.None? then j == p2 && (p2 < |s| ==> s[p2] != 'e' && s[p2] != 'E') else p2 < j <= |s| && !DigitAt(s, j)
    ensures (j < |s| ==> Closes(n, s[j])) && (j > p1 <==> !n.IsInteger())
  {
  }

  /** The token between the ends that the parser found, in its four parts. */
  lemma NumberPartsSound(s: string, i: nat, p1: nat, p2: nat, j: nat) returns (n: Number)
    requires i < |s| && (s[i] == '-' || IsDigit(s[i])) && (s[i] == '-' ==> DigitAt(s, i + 1))
    requires DigitsEnd(s, i + 1) == p1 && FractionEnd(s, p1) == Some(p2) && ExponentEnd(s, p2) == Some(j)
    ensures NumberAt(s, i, j, n) && ValidNumber(n) && i <= j <= |s| && s[i..j] == NumberText(n)
    ensures j < |s| ==> Closes(n, s[j])
    ensures j > p1 <==> !n.IsInteger()
  {
    var p0, negative := WholeSound(s, i, p1);
    var f := FractionSound(s, p1, p2);
    var e := ExponentSound(s, p2, j);
    SpellsSlice(s, p0, p1);
    n := Number(negative, s[p0..p1], f, e);
    NumberJoined(s, i, p0, p1, p2, j, n);
    EndsClose(s, p1, p2, j, n);
  }

  lemma NumberSound(s: string, i: nat, stod: Stod) returns (n: Number, j: nat)
    requires i < |s| && (s[i] == '-' || IsDigit(s[i])) && NumberLiteral(s, i, stod).Ok?
    ensures NumberAt(s, i, j, n) && ValidNumber(n) && Convertible(n, stod)
    ensures NumberLiteral(s, i, stod) == Ok(NumberValue(n, stod), j)
    ensures j < |s| ==> Closes(n, s[j])
  {
    var p1 := DigitsEnd(s, i + 1);
    var p2 := FractionEnd(s, p1).value;
    j := ExponentEnd(s, p2).value;
    n := NumberPartsSound(s, i, p1, p2, j);
    NumberLiteralIs(s, i, p1, p2, j, stod);
    NumberTokenSound(n, j, stod);
  }

  // ----- values -----

  lemma {:induction false} ValueSound(s: string, i: nat, stod: Stod) returns (t: Tree)
    requires i <= |s| && Value(s, i, stod).Ok?
    ensures Lexical(t) && Converts(t, stod) && TreeAt(s, WhitespaceEnd(s, i), Value(s, i, stod).next, t)
    ensures Meaning(t, stod) == Value(s, i, stod).value && Follows(t, s, Value(s, i, stod).next)
    decreases |s| - i, 3
  {
    var k := WhitespaceEnd(s, i);
    match s[k]
    case '{' => t := ObjectSound(s, k, stod);
    case '[' => t := ArraySound(s, k, stod);
    case '"' => var ps := LiteralSound(s, k); t := StringTree(ps);
    case 't' => t := BoolTree(true);
    case 'f' => t := BoolTree(false);
    case 'n' => t := NullTree;
    case _ => var n, j := NumberSound(s, k, stod); t := NumberTree(n);
  }

  lemma {:induction false} ArrayTreeAt(s: string, i: nat, j: nat, items: Items)
    requires CharIs(s, i, '[') && i < j && ItemsAt(s, i + 1, j, items) && CharIs(s, j, ']')
    ensures TreeAt(s, i, j + 1, ArrayTree(items))
  {
  }

  lemma ArraySound(s: string, i: nat, stod: Stod) returns (t: Tree)
    requires i <= |s| && ArrayLiteral(s, i, stod).Ok?
    ensures t.ArrayTree? && Lexical(t) && Converts(t, stod) && TreeAt(s, i, ArrayLiteral(s, i, stod).next, t)
    ensures Meaning(t, stod) == ArrayLiteral(s, i, stod).value
    decreases |s| - i, 2
  {
    var items, j := ElementsSound(s, i + 1, [], stod);
    ArrayTreeAt(s, i, j, items);
    t := ArrayTree(items);
    assert [] + ItemsMeaning(items, stod) == ItemsMeaning(items, stod);
  }

  lemma {:induction false} ObjectTreeAt(s: string, i: nat, j: nat, pairs: Pairs)
    requires CharIs(s, i, '{') && i < j && PairsAt(s, i + 1, j, pairs) && CharIs(s, j, '}')
    ensures TreeAt(s, i, j + 1, ObjectTree(pairs))
  {
  }

  lemma ObjectSound(s: string, i: nat, stod: Stod) returns (t: Tree)
    requires i <= |s| && ObjectLiteral(s, i, stod).Ok?
    ensures t.ObjectTree? && Lexical(t) && Converts(t, stod) && TreeAt(s, i, ObjectLiteral(s, i, stod).next, t)
    ensures Meaning(t, stod) == ObjectLiteral(s, i, stod).value
    decreases |s| - i, 2
  {
    var pairs, j := MembersSound(s, i + 1, [], stod);
    ObjectTreeAt(s, i, j, pairs);
    t := ObjectTree(pairs);
  }

  /** A value followed by a separator: the padded stretch up to the comma or bracket. */
  lemma PaddedSound(s: string, i: nat, close: char, stod: Stod) returns (t: Tree, k: nat)
    requires i <= |s| && Value(s, i, stod).Ok? && close in "]}"
    requires Separator(s, Value(s, i, stod).next, close).Some?
    ensures Lexical(t) && Converts(t, stod) && PaddedAt(s, i, k, t) && Meaning(t, stod) == Value(s, i, stod).value
    ensures i < k < |s| && Separates(s, k, close)
    ensures Separator(s, Value(s, i, stod).next, close) == Some(Resume(s, k, close))
    decreases |s| - i, 4
  {
    var next := Value(s, i, stod).next;
    t := ValueSound(s, i, stod);
    k := WhitespaceEnd(s, next);
    GapBefore(s, i);
    GapBefore(s, next);
  }

  lemma ElementSound(s: string, i: nat, acc: seq<Json>, stod: Stod) returns (t: Tree, k: nat)
    requires i <= |s| && CharAt(s, WhitespaceEnd(s, i)) != ']' && Elements(s, WhitespaceEnd(s, i), acc, stod).Ok?
    ensures i < k && Lexical(t) && Converts(t, stod) && PaddedAt(s, i, k, t) && Separates(s, k, ']')
    ensures Elements(s, WhitespaceEnd(s, i), acc, stod)
         == Elements(s, Resume(s, k, ']'), acc + [Meaning(t, stod)], stod)
    decreases |s| - i, 5
  {
    ValueAfterWhitespace(s, i, stod);
    t, k := PaddedSound(s, i, ']', stod);
  }

  lemma {:induction false} ElementsSound(s: string, i: nat, acc: seq<Json>, stod: Stod) returns (xs: Items, j: nat)
    requires i <= |s| && Elements(s, WhitespaceEnd(s, i), acc, stod).Ok?
    ensures i <= j && LexicalItems(xs) && ConvertsItems(xs, stod) && ItemsAt(s, i, j, xs) && CharIs(s, j, ']')
    ensures Elements(s, WhitespaceEnd(s, i), acc, stod) == Ok(Array(acc + ItemsMeaning(xs, stod)), j + 1)
    decreases |s| - i, 6
  {
    if CharAt(s, WhitespaceEnd(s, i)) == ']' {
      GapBefore(s, i);
      xs, j := NoItems, WhitespaceEnd(s, i);
      assert acc + [] == acc;
    } else {
      var t, k := ElementSound(s, i, acc, stod);
      var acc' := acc + [Meaning(t, stod)];
      var rest;
      rest, j := ElementsRest(s, k, acc', stod);
      xs := Items(t, rest);
      if rest.NoItems? {
        OneItem(s, i, j, t);
      } else {
        MoreItems(s, i, k, j, t, rest);
      }
      Accumulate(acc, xs, stod);
    }
  }

  /** What follows an element that ends at `k`: the closing bracket, or a comma and more elements. */
  lemma ElementsRest(s: string, k: nat, acc: seq<Json>, stod: Stod) returns (rest: Items, j: nat)
    requires Separates(s, k, ']') && Elements(s, Resume(s, k, ']'), acc, stod).Ok?
    ensures k <= j && LexicalItems(rest) && ConvertsItems(rest, stod) && CharIs(s, j, ']')
    ensures if rest.NoItems? then j == k else CharIs(s, k, ',') && ItemsAt(s, k + 1, j, rest)
    ensures Elements(s, Resume(s, k, ']'), acc, stod) == Ok(Array(acc + ItemsMeaning(rest, stod)), j + 1)
    decreases |s| - k, 0
  {
    if s[k] == ']' {
      rest, j := NoItems, k;
      assert acc + [] == acc;
    } else {
      rest, j := ElementsSound(s, k + 1, acc, stod);
      ItemsNonempty(s, k + 1, j, rest);
    }
  }

  lemma {:induction false} ItemsNonempty(s: string, i: nat, j: nat, xs: Items)
    requires i <= |s| && ItemsAt(s, i, j, xs) && CharIs(s, j, ']')
    requires WhitespaceEnd(s, i) < |s| && s[WhitespaceEnd(s, i)] != ']'
    ensures xs.Items?
  {
    if xs.NoItems? {
      WhitespaceEndIs(s, i, j);
      assert false;
    }
  }

  lemma {:induction false} PairsNonempty(s: string, i: nat, j: nat, ps: Pairs)
    requires i <= |s| && PairsAt(s, i, j, ps) && CharIs(s, j, '}')
    requires WhitespaceEnd(s, i) < |s| && s[WhitespaceEnd(s, i)] != '}'
    ensures ps.Pairs?
  {
    if ps.NoPairs? {
      WhitespaceEndIs(s, i, j);
      assert false;
    }
  }

  lemma KeySound(s: string, i: nat) returns (key: seq<Piece>, c: nat)
    requires i <= |s| && Key(s, WhitespaceEnd(s, i)).Ok?
    ensures i < c <= |s| && ValidPieces(key) && KeyAt(s, i, c, key)
    ensures Key(s, WhitespaceEnd(s, i)) == Ok(PiecesValue(key), WhitespaceEnd(s, c))
  {
    var p := WhitespaceEnd(s, i);
    GapBefore(s, i);
    key := LiteralSound(s, p);
    var q := StringLiteral(s, p).next;
    GapBefore(s, q);
    c := WhitespaceEnd(s, q) + 1;
    assert Gap(s, q, c - 1);
  }

  lemma MemberSound(s: string, i: nat, acc: JsonObject, stod: Stod) returns (key: seq<Piece>, t: Tree, k: nat)
    requires i <= |s| && CharAt(s, WhitespaceEnd(s, i)) != '}' && Members(s, WhitespaceEnd(s, i), acc, stod).Ok?
    ensures i < k && ValidPieces(key) && Lexical(t) && Converts(t, stod) && PairAt(s, i, k, key, t) && Separates(s, k, '}')
    ensures Members(s, WhitespaceEnd(s, i), acc, stod)
         == Members(s, Resume(s, k, '}'), Put(acc, PiecesValue(key), Meaning(t, stod)), stod)
    decreases |s| - i, 5
  {
    var c;
    key, c := KeySound(s, i);
    ValueAfterWhitespace(s, c, stod);
    t, k := PaddedSound(s, c, '}', stod);
  }

  lemma {:induction false} MembersSound(s: string, i: nat, acc: JsonObject, stod: Stod) returns (ps: Pairs, j: nat)
    requires i <= |s| && Members(s, WhitespaceEnd(s, i), acc, stod).Ok?
    ensures i <= j && LexicalPairs(ps) && ConvertsPairs(ps, stod) && PairsAt(s, i, j, ps) && CharIs(s, j, '}')
    ensures Members(s, WhitespaceEnd(s, i), acc, stod) == Ok(Object(PairsMeaning(ps, acc, stod)), j + 1)
    decreases |s| - i, 6
  {
    if CharAt(s, WhitespaceEnd(s, i)) == '}' {
      GapBefore(s, i);
      ps, j := NoPairs, WhitespaceEnd(s, i);
    } else {
      var key, t, k := MemberSound(s, i, acc, stod);
      var acc' := Put(acc, PiecesValue(key), Meaning(t, stod));
      var rest;
      rest, j := MembersRest(s, k, acc', stod);
      ps := Pairs(key, t, rest);
      if rest.NoPairs? {
        OnePair(s, i, j, key, t);
      } else {
        MorePairs(s, i, k, j, key, t, rest);
      }
    }
  }

  /** What follows a member that ends at `k`: the closing brace, or a comma and more members. */
  lemma MembersRest(s: string, k: nat, acc: JsonObject, stod: Stod) returns (rest: Pairs, j: nat)
    requires Separates(s, k, '}') && Members(s, Resume(s, k, '}'), acc, stod).Ok?
    ensures k <= j && LexicalPairs(rest) && ConvertsPairs(rest, stod) && CharIs(s, j, '}')
    ensures if rest.NoPairs? then j == k else CharIs(s, k, ',') && PairsAt(s, k + 1, j, rest)
    ensures Members(s, Resume(s, k, '}'), acc, stod) == Ok(Object(PairsMeaning(rest, acc, stod)), j + 1)
    decreases |s| - k, 0
  {
    if s[k] == '}' {
      rest, j := NoPairs, k;
    } else {
      rest, j := MembersSound(s, k + 1, acc, stod);
      PairsNonempty(s, k + 1, j, rest);
    }
  }

  lemma DocumentSound(s: string, stod: Stod) returns (t: Tree)
    requires Document(s, stod).Ok?
    ensures Derives(t, s, stod) && Document(s, stod) == Ok(Meaning(t, stod), |s|)
  {
    t := ValueSound(s, 0, stod);
    GapBefore(s, 0);
    GapBefore(s, Value(s, 0, stod).next);
  }
}
