/**
 * The accepted dialect as a grammar that knows nothing of the parser: derivation trees, the stretch
 * of text each one derives, and the value it denotes.
 */
module JsonGrammar {
  import opened JsonValues
  import opened JsonText

  datatype Piece = Raw(c: char) | Escaped(mark: char)

  datatype Tree =
    | NullTree
    | BoolTree(b: bool)
    | NumberTree(n: Number)
    | StringTree(pieces: seq<Piece>)
    | ArrayTree(items: Items)
    | ObjectTree(pairs: Pairs)

  datatype Items = NoItems | Items(tree: Tree, rest: Items)
  datatype Pairs = NoPairs | Pairs(key: seq<Piece>, tree: Tree, rest: Pairs)

  // ----- derivations: which tree derives s[i..j] -----

  ghost predicate Spells(s: string, i: nat, j: nat, text: string) {
    j == i + |text| && Occurs(s, i, text)
  }

  ghost predicate Gap(s: string, i: nat, j: nat) {
    i <= j <= |s| && AllWhitespace(s[i..j])
  }

  predicate CharIs(s: string, i: nat, c: char) {
    i < |s| && s[i] == c
  }

  ghost predicate PiecesAt(s: string, i: nat, j: nat, ps: seq<Piece>)
    decreases |ps|
  {
    if ps == [] then i == j <= |s|
    else match ps[0]
      case Raw(c) => CharIs(s, i, c) && PiecesAt(s, i + 1, j, ps[1..])
      case Escaped(mark) => CharIs(s, i, '\\') && CharIs(s, i + 1, mark) && PiecesAt(s, i + 2, j, ps[1..])
  }

  ghost predicate LiteralAt(s: string, i: nat, j: nat, ps: seq<Piece>) {
    CharIs(s, i, '"') && i < j && PiecesAt(s, i + 1, j - 1, ps) && CharIs(s, j - 1, '"')
  }

  ghost predicate NumberAt(s: string, i: nat, j: nat, n: Number) {
    exists p0: nat, p1: nat, p2: nat ::
      && Spells(s, i, p0, SignText(n.negative)) && Spells(s, p0, p1, n.whole)
      && FractionAt(s, p1, p2, n.fraction) && ExponentAt(s, p2, j, n.exponent)
  }

  ghost predicate FractionAt(s: string, i: nat, j: nat, f: Option<string>) {
    if f.None? then i == j <= |s| else CharIs(s, i, '.') && Spells(s, i + 1, j, f.value)
  }

  ghost predicate ExponentAt(s: string, i: nat, j: nat, e: Option<Exponent>) {
    if e.None? then i == j <= |s|
    else
      var k := i + 1 + |e.value.sign|;
      CharIs(s, i, e.value.mark) && Spells(s, i + 1, k, e.value.sign) && Spells(s, k, j, e.value.digits)
  }

  ghost predicate TreeAt(s: string, i: nat, j: nat, t: Tree)
    decreases t, 0
  {
    match t
    case NullTree => Spells(s, i, j, "null")
    case BoolTree(b) => Spells(s, i, j, if b then "true" else "false")
    case NumberTree(n) => NumberAt(s, i, j, n)
    case StringTree(ps) => LiteralAt(s, i, j, ps)
    case ArrayTree(items) => CharIs(s, i, '[') && i + 1 < j && ItemsAt(s, i + 1, j - 1, items) && CharIs(s, j - 1, ']')
    case ObjectTree(pairs) => CharIs(s, i, '{') && i + 1 < j && PairsAt(s, i + 1, j - 1, pairs) && CharIs(s, j - 1, '}')
  }

  /** A value with whitespace on both sides. */
  ghost predicate PaddedAt(s: string, i: nat, j: nat, t: Tree)
    decreases t, 1
  {
    exists p: nat, q: nat :: Gap(s, i, p) && TreeAt(s, p, q, t) && Gap(s, q, j)
  }

  ghost predicate ItemsAt(s: string, i: nat, j: nat, xs: Items)
    decreases xs
  {
    match xs
    case NoItems => Gap(s, i, j)
    case Items(t, NoItems) => PaddedAt(s, i, j, t)
    case Items(t, rest) => exists k: nat :: PaddedAt(s, i, k, t) && CharIs(s, k, ',') && ItemsAt(s, k + 1, j, rest)
  }

  /** Whitespace, a key, whitespace, and the colon just before `j`. */
  ghost predicate KeyAt(s: string, i: nat, j: nat, key: seq<Piece>) {
    exists p: nat, q: nat ::
      Gap(s, i, p) && LiteralAt(s, p, q, key) && 0 < j && Gap(s, q, j - 1) && CharIs(s, j - 1, ':')
  }

  ghost predicate PairAt(s: string, i: nat, j: nat, key: seq<Piece>, t: Tree)
    decreases t, 2
  {
    exists c: nat :: KeyAt(s, i, c, key) && PaddedAt(s, c, j, t)
  }

  ghost predicate PairsAt(s: string, i: nat, j: nat, ps: Pairs)
    decreases ps
  {
    match ps
    case NoPairs => Gap(s, i, j)
    case Pairs(key, t, NoPairs) => PairAt(s, i, j, key, t)
    case Pairs(key, t, rest) =>
      exists k: nat :: PairAt(s, i, k, key, t) && CharIs(s, k, ',') && PairsAt(s, k + 1, j, rest)
  }

  lemma {:induction false} OneItem(s: string, i: nat, j: nat, t: Tree)
    requires PaddedAt(s, i, j, t)
    ensures ItemsAt(s, i, j, Items(t, NoItems))
  {}

  lemma {:induction false} MoreItems(s: string, i: nat, k: nat, j: nat, t: Tree, rest: Items)
    requires PaddedAt(s, i, k, t) && CharIs(s, k, ',') && ItemsAt(s, k + 1, j, rest) && rest.Items?
    ensures ItemsAt(s, i, j, Items(t, rest))
  {}

  lemma {:induction false} OnePair(s: string, i: nat, j: nat, key: seq<Piece>, t: Tree)
    requires PairAt(s, i, j, key, t)
    ensures PairsAt(s, i, j, Pairs(key, t, NoPairs))
  {}

  lemma {:induction false} MorePairs(s: string, i: nat, k: nat, j: nat, key: seq<Piece>, t: Tree, rest: Pairs)
    requires PairAt(s, i, k, key, t) && CharIs(s, k, ',') && PairsAt(s, k + 1, j, rest) && rest.Pairs?
    ensures PairsAt(s, i, j, Pairs(key, t, rest))
  {}

  // ----- which trees belong to the dialect -----

  predicate ValidPiece(p: Piece) {
    match p
    case Raw(c) => c != '"' && c != '\\'
    case Escaped(mark) => Unescape(mark).Some?
  }

  ghost predicate ValidPieces(ps: seq<Piece>) {
    forall i | 0 <= i < |ps| :: ValidPiece(ps[i])
  }

  /** An integer token must fit an `int`; a double token must be one that std::stod converts. */
  ghost predicate Convertible(n: Number, stod: string -> Option<real>) {
    if n.IsInteger() then InInt(IntegerValue(n)) else stod(NumberText(n)).Some?
  }

  predicate InInt(v: int) {
    -0x8000_0000 <= v <= 0x7fff_ffff
  }

  /** The shape of a tree's tokens, without regard to the values they convert to. */
  ghost predicate Lexical(t: Tree) {
    match t
    case NullTree => true
    case BoolTree(_) => true
    case NumberTree(n) => ValidNumber(n)
    case StringTree(ps) => ValidPieces(ps)
    case ArrayTree(items) => LexicalItems(items)
    case ObjectTree(pairs) => LexicalPairs(pairs)
  }

  ghost predicate LexicalItems(xs: Items) {
    xs.Items? ==> Lexical(xs.tree) && LexicalItems(xs.rest)
  }

  ghost predicate LexicalPairs(ps: Pairs) {
    ps.Pairs? ==> ValidPieces(ps.key) && Lexical(ps.tree) && LexicalPairs(ps.rest)
  }

  /** Every number converts. */
  ghost predicate Converts(t: Tree, stod: string -> Option<real>) {
    match t
    case NullTree => true
    case BoolTree(_) => true
    case NumberTree(n) => Convertible(n, stod)
    case StringTree(_) => true
    case ArrayTree(items) => ConvertsItems(items, stod)
    case ObjectTree(pairs) => ConvertsPairs(pairs, stod)
  }

  ghost predicate ConvertsItems(xs: Items, stod: string -> Option<real>) {
    xs.Items? ==> Converts(xs.tree, stod) && ConvertsItems(xs.rest, stod)
  }

  ghost predicate ConvertsPairs(ps: Pairs, stod: string -> Option<real>) {
    ps.Pairs? ==> Converts(ps.tree, stod) && ConvertsPairs(ps.rest, stod)
  }

  /** A whole document of the dialect: a value with whitespace on both sides. */
  ghost predicate Derives(t: Tree, s: string, stod: string -> Option<real>) {
    PaddedAt(s, 0, |s|, t) && Lexical(t) && Converts(t, stod)
  }

  // ----- the value of a tree (total: on a tree outside the dialect it has no significance) -----

  function PieceChar(p: Piece): char {
    match p
    case Raw(c) => c
    case Escaped(mark) => if Unescape(mark).Some? then Unescape(mark).value else mark
  }

  function PiecesValue(ps: seq<Piece>): string {
    if ps == [] then "" else [PieceChar(ps[0])] + PiecesValue(ps[1..])
  }

  function NumberValue(n: Number, stod: string -> Option<real>): Json {
    if n.IsInteger() then
      if InInt(IntegerValue(n)) then Int(IntegerValue(n)) else Null
    else
      var d := stod(NumberText(n));
      if d.Some? then Double(d.value) else Null
  }

  function Meaning(t: Tree, stod: string -> Option<real>): Json {
    match t
    case NullTree => Null
    case BoolTree(b) => Bool(b)
    case NumberTree(n) => NumberValue(n, stod)
    case StringTree(ps) => String(PiecesValue(ps))
    case ArrayTree(items) => Array(ItemsMeaning(items, stod))
    case ObjectTree(pairs) => Object(PairsMeaning(pairs, [], stod))
  }

  function ItemsMeaning(xs: Items, stod: string -> Option<real>): seq<Json> {
    match xs
    case NoItems => []
    case Items(t, rest) => [Meaning(t, stod)] + ItemsMeaning(rest, stod)
  }

  function PairsMeaning(ps: Pairs, acc: JsonObject, stod: string -> Option<real>): JsonObject {
    match ps
    case NoPairs => acc
    case Pairs(key, t, rest) => PairsMeaning(rest, Put(acc, PiecesValue(key), Meaning(t, stod)), stod)
  }

  /** The last value a list of pairs writes under a key. */
  function LastBinding(ps: Pairs, key: string, stod: string -> Option<real>): Option<Json> {
    match ps
    case NoPairs => None
    case Pairs(k, t, rest) =>
      var later := LastBinding(rest, key, stod);
      if later.None? && PiecesValue(k) == key then Some(Meaning(t, stod)) else later
  }

  /** Duplicate keys: an object finds under each key the last value written for it, and nothing else. */
  lemma {:induction false} LastDuplicateWins(ps: Pairs, acc: JsonObject, key: string, stod: string -> Option<real>)
    ensures Find(PairsMeaning(ps, acc, stod), key)
         == if LastBinding(ps, key, stod).Some? then LastBinding(ps, key, stod) else Find(acc, key)
  {
    if ps.Pairs? {
      FindPut(acc, PiecesValue(ps.key), Meaning(ps.tree, stod), key);
      LastDuplicateWins(ps.rest, Put(acc, PiecesValue(ps.key), Meaning(ps.tree, stod)), key, stod);
    }
  }

  // ----- maximal tokens -----

  /** A number token that the character behind it does not extend. */
  predicate Closes(n: Number, c: char) {
    && !IsDigit(c)
    && (n.exponent.None? ==> c != 'e' && c != 'E')
    && (n.IsInteger() ==> c != '.')
  }

  /** What a tree needs of the text behind it. */
  predicate Follows(t: Tree, s: string, i: nat) {
    t.NumberTree? && i < |s| ==> Closes(t.n, s[i])
  }
}
