/** The derivation that every printed value has. */
module JsonPrinted {
  import opened JsonValues
  import opened JsonText
  import opened JsonPrinter
  import opened JsonGrammar

  function PieceOf(c: char): Piece {
    if EscapeChar(c) == [c] then Raw(c) else Escaped(EscapeChar(c)[1])
  }

  function PiecesOf(s: string): seq<Piece> {
    if s == "" then [] else [PieceOf(s[0])] + PiecesOf(s[1..])
  }

  function TreeOf(v: Json, format: Format): Tree {
    match v
    case Null => NullTree
    case Bool(b) => BoolTree(b)
    case Int(n) => NumberTree(IntNumber(n))
    case Double(d) => NumberTree(format(d))
    case String(s) => StringTree(PiecesOf(s))
    case Array(elems) => ArrayTree(ItemsOf(elems, 0, format))
    case Object(members) => ObjectTree(PairsOf(members, 0, format))
  }

  function ItemsOf(elems: seq<Json>, i: nat, format: Format): Items
    requires i <= |elems|
    decreases elems, |elems| - i
  {
    if i == |elems| then NoItems else Items(TreeOf(elems[i], format), ItemsOf(elems, i + 1, format))
  }

  function PairsOf(ms: seq<Member>, i: nat, format: Format): Pairs
    requires i <= |ms|
    decreases ms, |ms| - i
  {
    if i == |ms| then NoPairs
    else Pairs(PiecesOf(ms[i].key), TreeOf(ms[i].value, format), PairsOf(ms, i + 1, format))
  }

  ghost predicate WritesNumbers(format: Format) {
    forall d :: ValidNumber(format(d))
  }

  lemma SpellsSplit(s: string, i: nat, j: nat, a: string, b: string) returns (k: nat)
    requires Spells(s, i, j, a + b)
    ensures Spells(s, i, k, a) && Spells(s, k, j, b)
  {
    OccursSplit(s, i, a, b);
    k := i + |a|;
  }

  lemma SpellsChar(s: string, i: nat, j: nat, c: char)
    requires Spells(s, i, j, [c])
    ensures CharIs(s, i, c) && j == i + 1
  {
    OccursAt(s, i, [c], 0);
  }

  lemma {:induction false} PiecesPrinted(s: string, i: nat, j: nat, t: string)
    requires Spells(s, i, j, Escape(t))
    ensures PiecesAt(s, i, j, PiecesOf(t))
    decreases |t|
  {
    if t != "" {
      var first := EscapeChar(t[0]);
      var k := SpellsSplit(s, i, j, first, Escape(t[1..]));
      OccursAt(s, i, first, 0);
      if |first| == 2 {
        OccursAt(s, i, first, 1);
      }
      PiecesPrinted(s, k, j, t[1..]);
      assert PiecesOf(t)[1..] == PiecesOf(t[1..]);
    }
  }

  lemma {:induction false} PiecesDenote(t: string)
    ensures ValidPieces(PiecesOf(t)) && PiecesValue(PiecesOf(t)) == t
  {
    if t != "" {
      PiecesDenote(t[1..]);
      assert PiecesOf(t)[1..] == PiecesOf(t[1..]);
      assert t == [t[0]] + t[1..];
    }
  }

  lemma {:induction false} QuotePrinted(s: string, i: nat, j: nat, t: string)
    requires Spells(s, i, j, Quote(t))
    ensures LiteralAt(s, i, j, PiecesOf(t))
  {
    var k := SpellsSplit(s, i, j, "\"", Escape(t) + "\"");
    var q := SpellsSplit(s, k, j, Escape(t), "\"");
    SpellsChar(s, i, k, '"');
    SpellsChar(s, q, j, '"');
    PiecesPrinted(s, k, q, t);
  }

  lemma FractionPrinted(s: string, i: nat, j: nat, f: Option<string>)
    requires Spells(s, i, j, FractionText(f))
    ensures FractionAt(s, i, j, f)
  {
    if f.Some? {
      var k := SpellsSplit(s, i, j, ".", f.value);
      SpellsChar(s, i, k, '.');
    }
  }

  lemma ExponentPrinted(s: string, i: nat, j: nat, e: Option<Exponent>)
    requires Spells(s, i, j, ExponentText(e))
    ensures ExponentAt(s, i, j, e)
  {
    if e.Some? {
      var k := SpellsSplit(s, i, j, [e.value.mark] + e.value.sign, e.value.digits);
      var m := SpellsSplit(s, i, k, [e.value.mark], e.value.sign);
      SpellsChar(s, i, m, e.value.mark);
    }
  }

  lemma NumberPrinted(s: string, i: nat, j: nat, n: Number)
    requires Spells(s, i, j, NumberText(n))
    ensures NumberAt(s, i, j, n)
  {
    var frac, exp := FractionText(n.fraction), ExponentText(n.exponent);
    var p0 := SpellsSplit(s, i, j, SignText(n.negative), n.whole + (frac + exp));
    var p1 := SpellsSplit(s, p0, j, n.whole, frac + exp);
    var p2 := SpellsSplit(s, p1, j, frac, exp);
    FractionPrinted(s, p1, p2, n.fraction);
    ExponentPrinted(s, p2, j, n.exponent);
  }

  /** Wherever a printed value stands, its tree derives it. */
  lemma {:induction false} Printed(s: string, i: nat, j: nat, v: Json, format: Format)
    requires Spells(s, i, j, Print(v, format))
    ensures TreeAt(s, i, j, TreeOf(v, format))
    decreases v, 0
  {
    match v
    case Null =>
    case Bool(_) =>
    case Int(n) => NumberPrinted(s, i, j, IntNumber(n));
    case Double(d) => NumberPrinted(s, i, j, format(d));
    case String(t) => QuotePrinted(s, i, j, t);
    case Array(elems) => ArrayPrinted(s, i, j, elems, format);
    case Object(members) => ObjectPrinted(s, i, j, members, format);
  }

  lemma {:induction false} PaddedExactly(s: string, i: nat, j: nat, t: Tree)
    requires i <= j <= |s| && TreeAt(s, i, j, t)
    ensures PaddedAt(s, i, j, t)
  {
    assert Gap(s, i, i) && Gap(s, j, j);
  }

  /** A printed value with no blank around it. */
  lemma {:induction false} ValuePrinted(s: string, i: nat, j: nat, v: Json, format: Format)
    requires Spells(s, i, j, Print(v, format))
    ensures PaddedAt(s, i, j, TreeOf(v, format))
    decreases v, 1
  {
    Printed(s, i, j, v, format);
    PaddedExactly(s, i, j, TreeOf(v, format));
  }

  lemma CommaPrinted(s: string, i: nat, j: nat, rest: string)
    requires Spells(s, i, j, "," + rest)
    ensures CharIs(s, i, ',') && Spells(s, i + 1, j, rest)
  {
    var k := SpellsSplit(s, i, j, ",", rest);
    SpellsChar(s, i, k, ',');
  }

  // ----- lists of any texts, with any trees that derive them -----

  ghost predicate Derived(s: string, texts: seq<string>, ts: seq<Tree>) {
    && |ts| == |texts|
    && forall x: nat, a: nat, b: nat {:trigger Spells(s, a, b, texts[x])} |
         x < |texts| && Spells(s, a, b, texts[x]) :: PaddedAt(s, a, b, ts[x])
  }

  /** The texts from `k` on, with commas between them. */
  function Separated(texts: seq<string>, k: nat): string
    requires k < |texts|
    decreases |texts| - k
  {
    texts[k] + if k + 1 < |texts| then "," + Separated(texts, k + 1) else ""
  }

  function ItemsWith(ts: seq<Tree>, i: nat): Items
    requires i <= |ts|
    decreases |ts| - i
  {
    if i == |ts| then NoItems else Items(ts[i], ItemsWith(ts, i + 1))
  }

  function PairsWith(keys: seq<seq<Piece>>, ts: seq<Tree>, i: nat): Pairs
    requires i <= |keys| == |ts|
    decreases |keys| - i
  {
    if i == |keys| then NoPairs else Pairs(keys[i], ts[i], PairsWith(keys, ts, i + 1))
  }

  /** Where a text of the list ends, and the next one begins, if there is one. */
  lemma {:induction false} ListSplit(s: string, i: nat, j: nat, texts: seq<string>, k: nat) returns (m: nat)
    requires k < |texts| && Spells(s, i, j, Separated(texts, k))
    ensures Spells(s, i, m, texts[k])
    ensures if k + 1 < |texts| then CharIs(s, m, ',') && Spells(s, m + 1, j, Separated(texts, k + 1)) else m == j
  {
    m := SpellsSplit(s, i, j, texts[k], if k + 1 < |texts| then "," + Separated(texts, k + 1) else "");
    if k + 1 < |texts| {
      CommaPrinted(s, m, j, Separated(texts, k + 1));
    }
  }

  lemma {:induction false} ItemsListed(s: string, i: nat, j: nat, texts: seq<string>, ts: seq<Tree>, k: nat)
    requires k < |texts| && Derived(s, texts, ts) && Spells(s, i, j, Separated(texts, k))
    ensures ItemsAt(s, i, j, ItemsWith(ts, k))
    decreases |texts| - k
  {
    var m := ListSplit(s, i, j, texts, k);
    if k + 1 < |texts| {
      ItemsListed(s, m + 1, j, texts, ts, k + 1);
      MoreItems(s, i, m, j, ts[k], ItemsWith(ts, k + 1));
    } else {
      OneItem(s, i, j, ts[k]);
    }
  }

  function Colon(key: string, value: string): string {
    key + (":" + value)
  }

  /** A key, a colon and a value, with no blank between them. */
  lemma {:induction false} PairMade(s: string, i: nat, q: nat, j: nat, key: seq<Piece>, t: Tree)
    requires LiteralAt(s, i, q, key) && CharIs(s, q, ':') && PaddedAt(s, q + 1, j, t)
    ensures PairAt(s, i, j, key, t)
  {
    assert Gap(s, i, i) && Gap(s, q, q);
    assert KeyAt(s, i, q + 1, key);
  }

  lemma ColonSplit(s: string, i: nat, j: nat, key: string, value: string) returns (q: nat)
    requires Spells(s, i, j, Colon(key, value))
    ensures Spells(s, i, q, key) && CharIs(s, q, ':') && Spells(s, q + 1, j, value)
  {
    q := SpellsSplit(s, i, j, key, ":" + value);
    var c := SpellsSplit(s, q, j, ":", value);
    SpellsChar(s, q, c, ':');
  }

  ghost predicate Paired(s: string, texts: seq<string>, keys: seq<seq<Piece>>, ts: seq<Tree>) {
    && |keys| == |ts| == |texts|
    && forall x: nat, a: nat, b: nat {:trigger Spells(s, a, b, texts[x])} |
         x < |texts| && Spells(s, a, b, texts[x]) :: PairAt(s, a, b, keys[x], ts[x])
  }

  lemma {:induction false} PairsListed(s: string, i: nat, j: nat, texts: seq<string>, keys: seq<seq<Piece>>, ts: seq<Tree>, k: nat)
    requires k < |texts| && Paired(s, texts, keys, ts) && Spells(s, i, j, Separated(texts, k))
    ensures PairsAt(s, i, j, PairsWith(keys, ts, k))
    decreases |texts| - k
  {
    var m := ListSplit(s, i, j, texts, k);
    if k + 1 < |texts| {
      PairsListed(s, m + 1, j, texts, keys, ts, k + 1);
      MorePairs(s, i, m, j, keys[k], ts[k], PairsWith(keys, ts, k + 1));
    } else {
      OnePair(s, i, j, keys[k], ts[k]);
    }
  }

  lemma Bracketed(s: string, i: nat, j: nat, open: char, body: string, close: char) returns (k: nat, q: nat)
    requires Spells(s, i, j, [open] + (body + [close]))
    ensures k == i + 1 && j == q + 1 && k <= q && CharIs(s, i, open) && Spells(s, k, q, body) && CharIs(s, q, close)
  {
    k := SpellsSplit(s, i, j, [open], body + [close]);
    q := SpellsSplit(s, k, j, body, [close]);
    SpellsChar(s, i, k, open);
    SpellsChar(s, q, j, close);
  }

  lemma {:induction false} ArrayListed(s: string, i: nat, j: nat, texts: seq<string>, ts: seq<Tree>)
    requires texts != [] && Derived(s, texts, ts) && Spells(s, i, j, "[" + (Separated(texts, 0) + "]"))
    ensures TreeAt(s, i, j, ArrayTree(ItemsWith(ts, 0)))
  {
    var k, q := Bracketed(s, i, j, '[', Separated(texts, 0), ']');
    ItemsListed(s, k, q, texts, ts, 0);
  }

  lemma {:induction false} ObjectListed(s: string, i: nat, j: nat, texts: seq<string>, keys: seq<seq<Piece>>, ts: seq<Tree>)
    requires texts != [] && Paired(s, texts, keys, ts) && Spells(s, i, j, "{" + (Separated(texts, 0) + "}"))
    ensures TreeAt(s, i, j, ObjectTree(PairsWith(keys, ts, 0)))
  {
    var k, q := Bracketed(s, i, j, '{', Separated(texts, 0), '}');
    PairsListed(s, k, q, texts, keys, ts, 0);
  }

  lemma {:induction false} EmptyPrinted(s: string, i: nat, j: nat)
    ensures Spells(s, i, j, "[]") ==> TreeAt(s, i, j, ArrayTree(NoItems))
    ensures Spells(s, i, j, "{}") ==> TreeAt(s, i, j, ObjectTree(NoPairs))
  {
    if Spells(s, i, j, "[]") {
      assert "[]" == "[" + ("" + "]");
      var k, q := Bracketed(s, i, j, '[', "", ']');
      assert Gap(s, k, q);
    }
    if Spells(s, i, j, "{}") {
      assert "{}" == "{" + ("" + "}");
      var k, q := Bracketed(s, i, j, '{', "", '}');
      assert Gap(s, k, q);
    }
  }

  // ----- arrays -----

  function TextsOf(vs: seq<Json>, format: Format): (texts: seq<string>)
    ensures |texts| == |vs| && forall x | 0 <= x < |vs| :: texts[x] == Print(vs[x], format)
  {
    seq(|vs|, x requires 0 <= x < |vs| => Print(vs[x], format))
  }

  function TreesOf(vs: seq<Json>, format: Format): (ts: seq<Tree>)
    ensures |ts| == |vs| && forall x | 0 <= x < |vs| :: ts[x] == TreeOf(vs[x], format)
  {
    seq(|vs|, x requires 0 <= x < |vs| => TreeOf(vs[x], format))
  }

  lemma {:induction false} ElementsListed(vs: seq<Json>, i: nat, format: Format)
    requires i < |vs|
    ensures PrintElements(vs, i, format) == Comma(i) + Separated(TextsOf(vs, format), i)
    ensures ItemsWith(TreesOf(vs, format), i) == ItemsOf(vs, i, format)
    decreases |vs| - i
  {
    if i + 1 < |vs| {
      ElementsListed(vs, i + 1, format);
    } else {
      assert Print(vs[i], format) + "" == Print(vs[i], format);
    }
  }

  lemma {:induction false} ElementsDerived(s: string, vs: seq<Json>, format: Format)
    ensures Derived(s, TextsOf(vs, format), TreesOf(vs, format))
    decreases vs, 0
  {
    var texts, ts := TextsOf(vs, format), TreesOf(vs, format);
    forall x: nat, a: nat, b: nat | x < |vs| && Spells(s, a, b, texts[x]) ensures PaddedAt(s, a, b, ts[x]) {
      ValuePrinted(s, a, b, vs[x], format);
    }
  }

  lemma {:induction false} ArrayPrinted(s: string, i: nat, j: nat, elems: seq<Json>, format: Format)
    requires Spells(s, i, j, "[" + (PrintElements(elems, 0, format) + "]"))
    ensures TreeAt(s, i, j, ArrayTree(ItemsOf(elems, 0, format)))
    decreases elems, 1
  {
    if elems == [] {
      assert "[" + ("" + "]") == "[]";
      EmptyPrinted(s, i, j);
    } else {
      var texts := TextsOf(elems, format);
      ElementsListed(elems, 0, format);
      assert Comma(0) + Separated(texts, 0) == Separated(texts, 0);
      ElementsDerived(s, elems, format);
      ArrayListed(s, i, j, texts, TreesOf(elems, format));
    }
  }

  // ----- objects -----

  function ValuesOf(ms: seq<Member>): (vs: seq<Json>)
    ensures |vs| == |ms| && forall x | 0 <= x < |ms| :: vs[x] == ms[x].value
  {
    seq(|ms|, x requires 0 <= x < |ms| => ms[x].value)
  }

  function KeysOf(ms: seq<Member>): (keys: seq<seq<Piece>>)
    ensures |keys| == |ms| && forall x | 0 <= x < |ms| :: keys[x] == PiecesOf(ms[x].key)
  {
    seq(|ms|, x requires 0 <= x < |ms| => PiecesOf(ms[x].key))
  }

  function MemberTexts(ms: seq<Member>, format: Format): (texts: seq<string>)
    ensures |texts| == |ms|
    ensures forall x | 0 <= x < |ms| :: texts[x] == Colon(Quote(ms[x].key), Print(ms[x].value, format))
  {
    seq(|ms|, x requires 0 <= x < |ms| => Colon(Quote(ms[x].key), Print(ms[x].value, format)))
  }

  lemma ColonJoins(comma: string, key: string, value: string, rest: string)
    ensures comma + (key + (":" + (value + rest))) == comma + (Colon(key, value) + rest)
  {
    assert key + (":" + (value + rest)) == key + (":" + value) + rest;
  }

  lemma {:induction false} MembersListed(ms: seq<Member>, i: nat, format: Format)
    requires i < |ms|
    ensures PrintMembers(ms, i, format) == Comma(i) + Separated(MemberTexts(ms, format), i)
    ensures PairsWith(KeysOf(ms), TreesOf(ValuesOf(ms), format), i) == PairsOf(ms, i, format)
    decreases |ms| - i
  {
    ColonJoins(Comma(i), Quote(ms[i].key), Print(ms[i].value, format), PrintMembers(ms, i + 1, format));
    if i + 1 < |ms| {
      MembersListed(ms, i + 1, format);
    }
  }

  lemma {:induction false} MemberPrinted(s: string, i: nat, j: nat, key: string, v: Json, format: Format)
    requires Spells(s, i, j, Colon(Quote(key), Print(v, format)))
    ensures PairAt(s, i, j, PiecesOf(key), TreeOf(v, format))
    decreases v, 2
  {
    var q := ColonSplit(s, i, j, Quote(key), Print(v, format));
    QuotePrinted(s, i, q, key);
    ValuePrinted(s, q + 1, j, v, format);
    PairMade(s, i, q, j, PiecesOf(key), TreeOf(v, format));
  }

  lemma {:induction false} MembersPaired(s: string, ms: seq<Member>, format: Format)
    ensures Paired(s, MemberTexts(ms, format), KeysOf(ms), TreesOf(ValuesOf(ms), format))
    decreases ms, 0
  {
    var texts, keys, ts := MemberTexts(ms, format), KeysOf(ms), TreesOf(ValuesOf(ms), format);
    forall x: nat, a: nat, b: nat | x < |ms| && Spells(s, a, b, texts[x]) ensures PairAt(s, a, b, keys[x], ts[x]) {
      MemberPrinted(s, a, b, ms[x].key, ms[x].value, format);
    }
  }

  lemma {:induction false} ObjectPrinted(s: string, i: nat, j: nat, ms: seq<Member>, format: Format)
    requires Spells(s, i, j, "{" + (PrintMembers(ms, 0, format) + "}"))
    ensures TreeAt(s, i, j, ObjectTree(PairsOf(ms, 0, format)))
    decreases ms, 1
  {
    if ms == [] {
      assert "{" + ("" + "}") == "{}";
      EmptyPrinted(s, i, j);
    } else {
      var texts := MemberTexts(ms, format);
      MembersListed(ms, 0, format);
      assert Comma(0) + Separated(texts, 0) == Separated(texts, 0);
      MembersPaired(s, ms, format);
      ObjectListed(s, i, j, texts, KeysOf(ms), TreesOf(ValuesOf(ms), format));
    }
  }
}
