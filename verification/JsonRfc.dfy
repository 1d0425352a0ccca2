/**
 * RFC 8259 written down by itself: texts in concrete syntax with their blanks, as character codes, and the values they
 * denote. The escapes \u and \/ are left aside; everything else of sections 2 to 7 is accepted with its value.
 */
module JsonRfc {
  import opened JsonValues
  import T = JsonText
  import G = JsonGrammar
  import opened JsonParser
  import C = JsonComplete
  import P = JsonPrinted

  // ----- section 2: blanks -----

  predicate Blank(c: char) {
    c as int == 0x20 || c as int == 0x09 || c as int == 0x0A || c as int == 0x0D
  }

  ghost predicate Ws(s: string) {
    forall i | 0 <= i < |s| :: Blank(s[i])
  }

  // ----- section 7: strings -----

  datatype Char = Plain(c: char) | QuotationMark | ReverseSolidus | Backspace | FormFeed | LineFeed | CarriageReturn | Tab

  function Code(code: int): char
    requires 0 <= code < 0x80
  {
    code as char
  }

  function Escaped(mark: int): string
    requires 0 <= mark < 0x80
  {
    [Code(0x5C), Code(mark)]
  }

  function CharText(x: Char): string {
    match x
    case Plain(c) => [c]
    case QuotationMark => Escaped(0x22)
    case ReverseSolidus => Escaped(0x5C)
    case Backspace => Escaped(0x62)
    case FormFeed => Escaped(0x66)
    case LineFeed => Escaped(0x6E)
    case CarriageReturn => Escaped(0x72)
    case Tab => Escaped(0x74)
  }

  function CharValue(x: Char): char {
    match x
    case Plain(c) => c
    case QuotationMark => Code(0x22)
    case ReverseSolidus => Code(0x5C)
    case Backspace => Code(0x08)
    case FormFeed => Code(0x0C)
    case LineFeed => Code(0x0A)
    case CarriageReturn => Code(0x0D)
    case Tab => Code(0x09)
  }

  predicate IsChar(x: Char) {
    x.Plain? ==> x.c as int >= 0x20 && x.c as int != 0x22 && x.c as int != 0x5C
  }

  function CharsText(xs: seq<Char>): string {
    if xs == [] then "" else CharText(xs[0]) + CharsText(xs[1..])
  }

  function CharsValue(xs: seq<Char>): string {
    if xs == [] then "" else [CharValue(xs[0])] + CharsValue(xs[1..])
  }

  function StringText(xs: seq<Char>): string {
    [Code(0x22)] + (CharsText(xs) + [Code(0x22)])
  }

  ghost predicate IsString(xs: seq<Char>) {
    forall i | 0 <= i < |xs| :: IsChar(xs[i])
  }

  // ----- section 6: numbers -----

  // An empty `frac` or `exp` is one that is not there.
  datatype Number = Number(minus: bool, digits: string, frac: string, mark: char, sign: string, exp: string)

  predicate Digit(c: char) {
    0x30 <= c as int <= 0x39
  }

  predicate Digits(s: string) {
    forall i | 0 <= i < |s| :: Digit(s[i])
  }

  predicate IsNumber(n: Number) {
    && n.digits != "" && Digits(n.digits) && (n.digits[0] as int == 0x30 ==> |n.digits| == 1)
    && Digits(n.frac) && Digits(n.exp)
    && (n.mark as int == 0x65 || n.mark as int == 0x45)
    && (n.sign == "" || n.sign == [Code(0x2B)] || n.sign == [Code(0x2D)])
  }

  function NumberText(n: Number): string {
    (if n.minus then [Code(0x2D)] else "")
    + (n.digits
       + ((if n.frac == "" then "" else [Code(0x2E)] + n.frac)
          + (if n.exp == "" then "" else [n.mark] + n.sign + n.exp)))
  }

  function Power10(k: nat): int {
    if k == 0 then 1 else 10 * Power10(k - 1)
  }

  /** The value of digits, by their places. */
  function Places(s: string): int {
    if s == "" then 0 else (s[0] as int - 0x30) * Power10(|s| - 1) + Places(s[1..])
  }

  function IntegerOf(n: Number): int {
    if n.minus then -Places(n.digits) else Places(n.digits)
  }

  // ----- sections 3 to 5: values -----

  datatype Value =
    | True
    | False
    | Null
    | Num(n: Number)
    | Str(xs: seq<Char>)
    | EmptyArr(gap: string)
    | Arr(items: seq<Padded>)
    | EmptyObj(gap: string)
    | Obj(members: seq<Member>)

  // A value with the blanks around it.
  datatype Padded = Padded(before: string, value: Value, after: string)

  datatype Member = Member(before: string, key: seq<Char>, after: string, value: Padded)

  function ValueText(v: Value): string {
    match v
    case True => [Code(0x74), Code(0x72), Code(0x75), Code(0x65)]
    case False => [Code(0x66), Code(0x61), Code(0x6C), Code(0x73), Code(0x65)]
    case Null => [Code(0x6E), Code(0x75), Code(0x6C), Code(0x6C)]
    case Num(n) => NumberText(n)
    case Str(xs) => StringText(xs)
    case EmptyArr(gap) => [Code(0x5B)] + (gap + [Code(0x5D)])
    case Arr(items) => [Code(0x5B)] + (ItemsText(items, 0) + [Code(0x5D)])
    case EmptyObj(gap) => [Code(0x7B)] + (gap + [Code(0x7D)])
    case Obj(members) => [Code(0x7B)] + (MembersText(members, 0) + [Code(0x7D)])
  }

  function PaddedText(p: Padded): string {
    p.before + (ValueText(p.value) + p.after)
  }

  /** The items from `i` on, with value separators between them. */
  function ItemsText(xs: seq<Padded>, i: nat): string
    requires i <= |xs|
    decreases xs, |xs| - i
  {
    if i == |xs| then "" else PaddedText(xs[i]) + (if i + 1 < |xs| then [Code(0x2C)] else "") + ItemsText(xs, i + 1)
  }

  function KeyText(m: Member): string {
    m.before + (StringText(m.key) + (m.after + [Code(0x3A)]))
  }

  function MemberText(m: Member): string {
    KeyText(m) + PaddedText(m.value)
  }

  function MembersText(ms: seq<Member>, i: nat): string
    requires i <= |ms|
    decreases ms, |ms| - i
  {
    if i == |ms| then "" else MemberText(ms[i]) + (if i + 1 < |ms| then [Code(0x2C)] else "") + MembersText(ms, i + 1)
  }

  ghost predicate IsValue(v: Value) {
    match v
    case Num(n) => IsNumber(n)
    case Str(xs) => IsString(xs)
    case EmptyArr(gap) => Ws(gap)
    case Arr(items) => items != [] && forall i | 0 <= i < |items| :: IsPadded(items[i])
    case EmptyObj(gap) => Ws(gap)
    case Obj(members) => members != [] && forall i | 0 <= i < |members| :: IsMember(members[i])
    case _ => true
  }

  ghost predicate IsPadded(p: Padded) {
    Ws(p.before) && IsValue(p.value) && Ws(p.after)
  }

  ghost predicate IsMember(m: Member) {
    Ws(m.before) && IsString(m.key) && Ws(m.after) && IsPadded(m.value)
  }

  // ----- what the values denote -----

  /** Integers must fit an `int`, and doubles must be such that std::stod converts them. */
  predicate InRange(n: Number, stod: Stod) {
    if n.frac == "" && n.exp == "" then -0x8000_0000 <= IntegerOf(n) <= 0x7fff_ffff else stod(NumberText(n)).Some?
  }

  predicate ValueInRange(v: Value, stod: Stod) {
    match v
    case Num(n) => InRange(n, stod)
    case Arr(items) => forall i | 0 <= i < |items| :: ValueInRange(items[i].value, stod)
    case Obj(members) => forall i | 0 <= i < |members| :: ValueInRange(members[i].value.value, stod)
    case _ => true
  }

  function Denoted(v: Value, stod: Stod): Json
    requires ValueInRange(v, stod)
  {
    match v
    case True => Bool(true)
    case False => Bool(false)
    case Null => Json.Null
    case Num(n) => if n.frac == "" && n.exp == "" then Int(IntegerOf(n)) else Double(stod(NumberText(n)).value)
    case Str(xs) => String(CharsValue(xs))
    case EmptyArr(_) => Array([])
    case Arr(items) => Array(ItemsDenoted(items, stod))
    case EmptyObj(_) => Object([])
    case Obj(members) => Object(PutAll(NamesOf(members), MembersDenoted(members, stod), 0, []))
  }

  function ItemsDenoted(xs: seq<Padded>, stod: Stod): (values: seq<Json>)
    requires forall i | 0 <= i < |xs| :: ValueInRange(xs[i].value, stod)
    ensures |values| == |xs| && forall i | 0 <= i < |xs| :: values[i] == Denoted(xs[i].value, stod)
    decreases xs
  {
    seq(|xs|, i requires 0 <= i < |xs| => Denoted(xs[i].value, stod))
  }

  function NamesOf(ms: seq<Member>): (names: seq<string>)
    ensures |names| == |ms| && forall i | 0 <= i < |ms| :: names[i] == CharsValue(ms[i].key)
  {
    seq(|ms|, i requires 0 <= i < |ms| => CharsValue(ms[i].key))
  }

  function MembersDenoted(ms: seq<Member>, stod: Stod): (values: seq<Json>)
    requires forall i | 0 <= i < |ms| :: ValueInRange(ms[i].value.value, stod)
    ensures |values| == |ms| && forall i | 0 <= i < |ms| :: values[i] == Denoted(ms[i].value.value, stod)
    decreases ms
  {
    seq(|ms|, i requires 0 <= i < |ms| => Denoted(ms[i].value.value, stod))
  }

  /** One member after the other is put into the object, so of those with one name the last counts. */
  function PutAll(names: seq<string>, values: seq<Json>, i: nat, before: JsonObject): JsonObject
    requires i <= |names| == |values|
    decreases |names| - i
  {
    if i == |names| then before else PutAll(names, values, i + 1, Put(before, names[i], values[i]))
  }

  // ----- their derivations in the dialect -----

  function PieceOf(x: Char): G.Piece {
    match x
    case Plain(c) => G.Raw(c)
    case _ => G.Escaped(CharText(x)[1])
  }

  function PiecesOf(xs: seq<Char>): seq<G.Piece> {
    if xs == [] then [] else [PieceOf(xs[0])] + PiecesOf(xs[1..])
  }

  function NumberOf(n: Number): T.Number {
    T.Number(n.minus, n.digits, if n.frac == "" then None else Some(n.frac),
             if n.exp == "" then None else Some(T.Exponent(n.mark, n.sign, n.exp)))
  }

  function TreeOf(v: Value): G.Tree {
    match v
    case True => G.BoolTree(true)
    case False => G.BoolTree(false)
    case Null => G.NullTree
    case Num(n) => G.NumberTree(NumberOf(n))
    case Str(xs) => G.StringTree(PiecesOf(xs))
    case EmptyArr(_) => G.ArrayTree(G.NoItems)
    case Arr(items) => G.ArrayTree(P.ItemsWith(TreesOf(items), 0))
    case EmptyObj(_) => G.ObjectTree(G.NoPairs)
    case Obj(members) => G.ObjectTree(P.PairsWith(KeysOf(members), MemberTrees(members), 0))
  }

  function TreesOf(xs: seq<Padded>): (ts: seq<G.Tree>)
    ensures |ts| == |xs| && forall i | 0 <= i < |xs| :: ts[i] == TreeOf(xs[i].value)
    decreases xs
  {
    seq(|xs|, i requires 0 <= i < |xs| => TreeOf(xs[i].value))
  }

  function MemberTrees(ms: seq<Member>): (ts: seq<G.Tree>)
    ensures |ts| == |ms| && forall i | 0 <= i < |ms| :: ts[i] == TreeOf(ms[i].value.value)
    decreases ms
  {
    seq(|ms|, i requires 0 <= i < |ms| => TreeOf(ms[i].value.value))
  }

  function KeysOf(ms: seq<Member>): (keys: seq<seq<G.Piece>>)
    ensures |keys| == |ms| && forall i | 0 <= i < |ms| :: keys[i] == PiecesOf(ms[i].key)
  {
    seq(|ms|, i requires 0 <= i < |ms| => PiecesOf(ms[i].key))
  }

  lemma GapWritten(s: string, i: nat, j: nat, gap: string)
    requires G.Spells(s, i, j, gap) && Ws(gap)
    ensures G.Gap(s, i, j)
  {
    forall k | 0 <= k < |gap| ensures T.IsWhitespace(gap[k]) {
      assert Blank(gap[k]);
    }
  }

  lemma CharWritten(s: string, i: nat, j: nat, x: Char)
    requires G.Spells(s, i, j, CharText(x)) && IsChar(x)
    ensures G.ValidPiece(PieceOf(x)) && G.PieceChar(PieceOf(x)) == CharValue(x)
    ensures match PieceOf(x)
      case Raw(c) => G.CharIs(s, i, c) && j == i + 1
      case Escaped(mark) => G.CharIs(s, i, '\\') && G.CharIs(s, i + 1, mark) && j == i + 2
  {
    T.OccursAt(s, i, CharText(x), 0);
    if !x.Plain? {
      T.OccursAt(s, i, CharText(x), 1);
    }
  }

  lemma {:induction false} PiecesWritten(s: string, i: nat, j: nat, xs: seq<Char>)
    requires G.Spells(s, i, j, CharsText(xs)) && IsString(xs)
    ensures G.PiecesAt(s, i, j, PiecesOf(xs)) && G.ValidPieces(PiecesOf(xs)) && G.PiecesValue(PiecesOf(xs)) == CharsValue(xs)
    decreases |xs|
  {
    if xs != [] {
      var k := P.SpellsSplit(s, i, j, CharText(xs[0]), CharsText(xs[1..]));
      CharWritten(s, i, k, xs[0]);
      PiecesWritten(s, k, j, xs[1..]);
      assert PiecesOf(xs)[1..] == PiecesOf(xs[1..]);
    }
  }

  lemma {:induction false} StringWritten(s: string, i: nat, j: nat, xs: seq<Char>)
    requires G.Spells(s, i, j, StringText(xs)) && IsString(xs)
    ensures G.LiteralAt(s, i, j, PiecesOf(xs)) && G.ValidPieces(PiecesOf(xs)) && G.PiecesValue(PiecesOf(xs)) == CharsValue(xs)
  {
    var k, q := P.Bracketed(s, i, j, Code(0x22), CharsText(xs), Code(0x22));
    PiecesWritten(s, k, q, xs);
  }

  lemma {:induction false} PlacesSplit(s: string)
    requires s != ""
    ensures Places(s) == 10 * Places(s[..|s| - 1]) + (s[|s| - 1] as int - 0x30)
  {
    if |s| > 1 {
      PlacesSplit(s[1..]);
      assert s[1..][..|s| - 2] == s[..|s| - 1][1..];
    }
  }

  /** The digits that the parser adds up from the left are worth what their places say, leading zeros included. */
  lemma {:induction false} DigitsByPlaces(s: string)
    ensures T.DigitsValue(s) == Places(s)
  {
    if s != "" {
      PlacesSplit(s);
      DigitsByPlaces(s[..|s| - 1]);
    }
  }

  lemma NumberWritten(n: Number, stod: Stod)
    requires IsNumber(n)
    ensures T.ValidNumber(NumberOf(n)) && T.NumberText(NumberOf(n)) == NumberText(n)
    ensures G.Convertible(NumberOf(n), stod) <==> InRange(n, stod)
    ensures InRange(n, stod) ==>
              G.NumberValue(NumberOf(n), stod)
              == if n.frac == "" && n.exp == "" then Int(IntegerOf(n)) else Double(stod(NumberText(n)).value)
  {
    DigitsByPlaces(n.digits);
    assert T.AllDigits(n.digits) && T.AllDigits(n.frac) && T.AllDigits(n.exp) by {
      assert forall c: char :: Digit(c) ==> T.IsDigit(c);
    }
  }

  function ItemTexts(xs: seq<Padded>): (texts: seq<string>)
    ensures |texts| == |xs| && forall i | 0 <= i < |xs| :: texts[i] == PaddedText(xs[i])
  {
    seq(|xs|, i requires 0 <= i < |xs| => PaddedText(xs[i]))
  }

  function MemberTexts(ms: seq<Member>): (texts: seq<string>)
    ensures |texts| == |ms| && forall i | 0 <= i < |ms| :: texts[i] == MemberText(ms[i])
  {
    seq(|ms|, i requires 0 <= i < |ms| => MemberText(ms[i]))
  }

  lemma {:induction false} ItemsSeparated(xs: seq<Padded>, i: nat)
    requires i < |xs|
    ensures ItemsText(xs, i) == P.Separated(ItemTexts(xs), i)
    decreases |xs| - i
  {
    if i + 1 < |xs| {
      ItemsSeparated(xs, i + 1);
    }
  }

  lemma {:induction false} MembersSeparated(ms: seq<Member>, i: nat)
    requires i < |ms|
    ensures MembersText(ms, i) == P.Separated(MemberTexts(ms), i)
    decreases |ms| - i
  {
    if i + 1 < |ms| {
      MembersSeparated(ms, i + 1);
    }
  }

  lemma {:induction false} ItemsDerived(s: string, xs: seq<Padded>)
    requires forall i | 0 <= i < |xs| :: IsPadded(xs[i])
    ensures P.Derived(s, ItemTexts(xs), TreesOf(xs))
    decreases xs, 0
  {
    var texts, ts := ItemTexts(xs), TreesOf(xs);
    forall x: nat, a: nat, b: nat | x < |xs| && G.Spells(s, a, b, texts[x]) ensures G.PaddedAt(s, a, b, ts[x]) {
      PaddedWritten(s, a, b, xs[x]);
    }
  }

  lemma {:induction false} MembersPaired(s: string, ms: seq<Member>)
    requires forall i | 0 <= i < |ms| :: IsMember(ms[i])
    ensures P.Paired(s, MemberTexts(ms), KeysOf(ms), MemberTrees(ms))
    decreases ms, 0
  {
    var texts, keys, ts := MemberTexts(ms), KeysOf(ms), MemberTrees(ms);
    forall x: nat, a: nat, b: nat | x < |ms| && G.Spells(s, a, b, texts[x]) ensures G.PairAt(s, a, b, keys[x], ts[x]) {
      MemberWritten(s, a, b, ms[x]);
    }
  }

  lemma {:induction false} ArrWritten(s: string, i: nat, j: nat, items: seq<Padded>)
    requires items != [] && (forall k | 0 <= k < |items| :: IsPadded(items[k]))
    requires G.Spells(s, i, j, [Code(0x5B)] + (ItemsText(items, 0) + [Code(0x5D)]))
    ensures G.TreeAt(s, i, j, G.ArrayTree(P.ItemsWith(TreesOf(items), 0)))
    decreases items, 1
  {
    ItemsSeparated(items, 0);
    ItemsDerived(s, items);
    P.ArrayListed(s, i, j, ItemTexts(items), TreesOf(items));
  }

  lemma {:induction false} ObjWritten(s: string, i: nat, j: nat, members: seq<Member>)
    requires members != [] && (forall k | 0 <= k < |members| :: IsMember(members[k]))
    requires G.Spells(s, i, j, [Code(0x7B)] + (MembersText(members, 0) + [Code(0x7D)]))
    ensures G.TreeAt(s, i, j, G.ObjectTree(P.PairsWith(KeysOf(members), MemberTrees(members), 0)))
    decreases members, 1
  {
    MembersSeparated(members, 0);
    MembersPaired(s, members);
    P.ObjectListed(s, i, j, MemberTexts(members), KeysOf(members), MemberTrees(members));
  }

  lemma {:induction false} EmptyWritten(s: string, i: nat, j: nat, gap: string)
    requires Ws(gap)
    ensures G.Spells(s, i, j, [Code(0x5B)] + (gap + [Code(0x5D)])) ==> G.TreeAt(s, i, j, G.ArrayTree(G.NoItems))
    ensures G.Spells(s, i, j, [Code(0x7B)] + (gap + [Code(0x7D)])) ==> G.TreeAt(s, i, j, G.ObjectTree(G.NoPairs))
  {
    if G.Spells(s, i, j, [Code(0x5B)] + (gap + [Code(0x5D)])) {
      var k, q := P.Bracketed(s, i, j, Code(0x5B), gap, Code(0x5D));
      GapWritten(s, k, q, gap);
    }
    if G.Spells(s, i, j, [Code(0x7B)] + (gap + [Code(0x7D)])) {
      var k, q := P.Bracketed(s, i, j, Code(0x7B), gap, Code(0x7D));
      GapWritten(s, k, q, gap);
    }
  }

  lemma {:induction false} ValueWritten(s: string, i: nat, j: nat, v: Value)
    requires G.Spells(s, i, j, ValueText(v)) && IsValue(v)
    ensures G.TreeAt(s, i, j, TreeOf(v))
    decreases v, 0
  {
    match v
    case Num(n) =>
      NumberWritten(n, _ => None);
      P.NumberPrinted(s, i, j, NumberOf(n));
    case Str(xs) => StringWritten(s, i, j, xs);
    case EmptyArr(gap) => EmptyWritten(s, i, j, gap);
    case Arr(items) => ArrWritten(s, i, j, items);
    case EmptyObj(gap) => EmptyWritten(s, i, j, gap);
    case Obj(members) => ObjWritten(s, i, j, members);
    case _ =>
  }

  lemma {:induction false} PaddedWritten(s: string, i: nat, j: nat, p: Padded)
    requires G.Spells(s, i, j, PaddedText(p)) && IsPadded(p)
    ensures G.PaddedAt(s, i, j, TreeOf(p.value))
    decreases p, 1
  {
    var k := P.SpellsSplit(s, i, j, p.before, ValueText(p.value) + p.after);
    var q := P.SpellsSplit(s, k, j, ValueText(p.value), p.after);
    GapWritten(s, i, k, p.before);
    GapWritten(s, q, j, p.after);
    ValueWritten(s, k, q, p.value);
  }

  lemma {:induction false} KeyWritten(s: string, i: nat, j: nat, m: Member)
    requires G.Spells(s, i, j, KeyText(m)) && IsMember(m)
    ensures G.KeyAt(s, i, j, PiecesOf(m.key))
  {
    var p := P.SpellsSplit(s, i, j, m.before, StringText(m.key) + (m.after + [Code(0x3A)]));
    var q := P.SpellsSplit(s, p, j, StringText(m.key), m.after + [Code(0x3A)]);
    var k := P.SpellsSplit(s, q, j, m.after, [Code(0x3A)]);
    P.SpellsChar(s, k, j, Code(0x3A));
    GapWritten(s, i, p, m.before);
    GapWritten(s, q, k, m.after);
    StringWritten(s, p, q, m.key);
  }

  lemma {:induction false} MemberWritten(s: string, i: nat, j: nat, m: Member)
    requires G.Spells(s, i, j, MemberText(m)) && IsMember(m)
    ensures G.PairAt(s, i, j, PiecesOf(m.key), TreeOf(m.value.value))
    decreases m, 2
  {
    var k := P.SpellsSplit(s, i, j, KeyText(m), PaddedText(m.value));
    KeyWritten(s, i, k, m);
    PaddedWritten(s, k, j, m.value);
  }

  // ----- their values -----

  lemma {:induction false} PiecesMean(xs: seq<Char>)
    requires IsString(xs)
    ensures G.ValidPieces(PiecesOf(xs)) && G.PiecesValue(PiecesOf(xs)) == CharsValue(xs)
  {
    var s := CharsText(xs);
    assert s[0..|s|] == s;
    PiecesWritten(s, 0, |s|, xs);
  }

  /** Lexical, with numbers that convert exactly when they are in range, and then with the value denoted. */
  ghost predicate Means(t: G.Tree, v: Value, stod: Stod) {
    && G.Lexical(t) && (G.Converts(t, stod) <==> ValueInRange(v, stod))
    && (ValueInRange(v, stod) ==> G.Meaning(t, stod) == Denoted(v, stod))
  }

  lemma {:induction false} ValueMeans(v: Value, stod: Stod)
    requires IsValue(v)
    ensures Means(TreeOf(v), v, stod)
    decreases v, 1
  {
    match v
    case Num(n) => NumberWritten(n, stod);
    case Str(xs) => PiecesMean(xs);
    case Arr(items) => ArrMeans(items, stod);
    case Obj(members) => ObjMeans(members, stod);
    case _ =>
  }

  lemma {:induction false} EachItemMeans(xs: seq<Padded>, stod: Stod)
    requires forall i | 0 <= i < |xs| :: IsPadded(xs[i])
    ensures forall i | 0 <= i < |xs| :: Means(TreesOf(xs)[i], xs[i].value, stod)
    decreases xs, 0
  {
    forall i | 0 <= i < |xs| ensures Means(TreesOf(xs)[i], xs[i].value, stod) {
      assert IsPadded(xs[i]);
      ValueMeans(xs[i].value, stod);
    }
  }

  lemma {:induction false} EachMemberMeans(ms: seq<Member>, stod: Stod)
    requires forall i | 0 <= i < |ms| :: IsMember(ms[i])
    ensures forall i | 0 <= i < |ms| :: Means(MemberTrees(ms)[i], ms[i].value.value, stod)
    ensures forall i | 0 <= i < |ms| :: G.ValidPieces(KeysOf(ms)[i]) && G.PiecesValue(KeysOf(ms)[i]) == NamesOf(ms)[i]
    decreases ms, 0
  {
    forall i | 0 <= i < |ms|
      ensures Means(MemberTrees(ms)[i], ms[i].value.value, stod)
      ensures G.ValidPieces(KeysOf(ms)[i]) && G.PiecesValue(KeysOf(ms)[i]) == NamesOf(ms)[i]
    {
      assert IsMember(ms[i]) && IsPadded(ms[i].value);
      PiecesMean(ms[i].key);
      ValueMeans(ms[i].value.value, stod);
    }
  }

  lemma {:induction false} ItemsConvert(xs: seq<Padded>, ts: seq<G.Tree>, i: nat, stod: Stod)
    requires i <= |xs| == |ts| && forall k | 0 <= k < |xs| :: Means(ts[k], xs[k].value, stod)
    ensures G.LexicalItems(P.ItemsWith(ts, i))
    ensures G.ConvertsItems(P.ItemsWith(ts, i), stod) <==> forall k | i <= k < |xs| :: ValueInRange(xs[k].value, stod)
    decreases |xs| - i
  {
    if i < |xs| {
      assert Means(ts[i], xs[i].value, stod);
      ItemsConvert(xs, ts, i + 1, stod);
    }
  }

  lemma {:induction false} ItemsMean(ts: seq<G.Tree>, values: seq<Json>, i: nat, stod: Stod)
    requires i <= |ts| == |values| && forall k | 0 <= k < |ts| :: G.Meaning(ts[k], stod) == values[k]
    ensures G.ItemsMeaning(P.ItemsWith(ts, i), stod) == values[i..]
    decreases |ts| - i
  {
    if i < |ts| {
      ItemsMean(ts, values, i + 1, stod);
    }
  }

  lemma {:induction false} MembersConvert(ms: seq<Member>, keys: seq<seq<G.Piece>>, ts: seq<G.Tree>, i: nat, stod: Stod)
    requires i <= |ms| == |ts| == |keys|
    requires forall k | 0 <= k < |ms| :: Means(ts[k], ms[k].value.value, stod) && G.ValidPieces(keys[k])
    ensures G.LexicalPairs(P.PairsWith(keys, ts, i))
    ensures G.ConvertsPairs(P.PairsWith(keys, ts, i), stod) <==> forall k | i <= k < |ms| :: ValueInRange(ms[k].value.value, stod)
    decreases |ms| - i
  {
    if i < |ms| {
      assert Means(ts[i], ms[i].value.value, stod);
      MembersConvert(ms, keys, ts, i + 1, stod);
    }
  }

  lemma {:induction false} MembersMean(keys: seq<seq<G.Piece>>, ts: seq<G.Tree>, names: seq<string>, values: seq<Json>, i: nat,
                                       before: JsonObject, stod: Stod)
    requires i <= |ts| == |keys| == |names| == |values|
    requires forall k | 0 <= k < |ts| :: G.PiecesValue(keys[k]) == names[k] && G.Meaning(ts[k], stod) == values[k]
    ensures G.PairsMeaning(P.PairsWith(keys, ts, i), before, stod) == PutAll(names, values, i, before)
    decreases |ts| - i
  {
    if i < |ts| {
      MembersMean(keys, ts, names, values, i + 1, Put(before, names[i], values[i]), stod);
    }
  }

  lemma {:induction false} ObjMeans(ms: seq<Member>, stod: Stod)
    requires IsValue(Obj(ms))
    ensures Means(TreeOf(Obj(ms)), Obj(ms), stod)
    decreases ms, 1
  {
    var keys, ts := KeysOf(ms), MemberTrees(ms);
    EachMemberMeans(ms, stod);
    MembersConvert(ms, keys, ts, 0, stod);
    if ValueInRange(Obj(ms), stod) {
      MembersMean(keys, ts, NamesOf(ms), MembersDenoted(ms, stod), 0, [], stod);
    }
  }

  lemma {:induction false} ArrMeans(xs: seq<Padded>, stod: Stod)
    requires IsValue(Arr(xs))
    ensures Means(TreeOf(Arr(xs)), Arr(xs), stod)
    decreases xs, 1
  {
    EachItemMeans(xs, stod);
    ItemsConvert(xs, TreesOf(xs), 0, stod);
    if ValueInRange(Arr(xs), stod) {
      ItemsMean(TreesOf(xs), ItemsDenoted(xs, stod), 0, stod);
    }
  }

  /** A text of RFC 8259 without those escapes is accepted, with the value it denotes, exactly when its numbers convert. */
  lemma {:induction false} RfcTextsAccepted(p: Padded, stod: Stod)
    requires IsPadded(p)
    ensures var s := PaddedText(p);
      if ValueInRange(p.value, stod) then Document(s, stod) == Ok(Denoted(p.value, stod), |s|) else Document(s, stod).Fail?
  {
    var s := PaddedText(p);
    assert s[0..|s|] == s;
    PaddedWritten(s, 0, |s|, p);
    ValueMeans(p.value, stod);
    C.DocumentComplete(s, TreeOf(p.value), stod);
  }
}
