/** The recursive-descent parser: what each function returns, as a function, and the loops that compute it. */
module JsonParser {
  import opened JsonValues
  import opened JsonText

  // The two exception types the parser raises.
  datatype Error = InvalidArgument | OutOfRange

  // A parse function's value and the index it leaves behind, or the exception it throws.
  datatype Parsed<+T> = Ok(value: T, next: nat) | Fail(error: Error)

  // std::stod, which throws out_of_range (None) for some tokens; its rounding is left open.
  type Stod = string -> Option<real>

  /** `json[index]`; a std::string reads as NUL one past its end. */
  function CharAt(s: string, i: nat): char
    requires i <= |s|
  {
    if i < |s| then s[i] else '\0'
  }

  function WhitespaceEnd(s: string, i: nat): (r: nat)
    requires i <= |s|
    ensures i <= r <= |s|
    ensures r < |s| ==> !IsWhitespace(s[r])
    decreases |s| - i
  {
    if i < |s| && IsWhitespace(s[i]) then WhitespaceEnd(s, i + 1) else i
  }

  lemma {:induction false} WhitespaceBefore(s: string, i: nat)
    requires i <= |s|
    ensures AllWhitespace(s[i..WhitespaceEnd(s, i)])
    decreases |s| - i
  {
    if i < |s| && IsWhitespace(s[i]) {
      WhitespaceBefore(s, i + 1);
      assert s[i..WhitespaceEnd(s, i)] == [s[i]] + s[i + 1..WhitespaceEnd(s, i)];
    }
  }

  function DigitsEnd(s: string, i: nat): (r: nat)
    requires i <= |s|
    ensures i <= r <= |s|
    ensures r < |s| ==> !IsDigit(s[r])
    decreases |s| - i
  {
    if i < |s| && IsDigit(s[i]) then DigitsEnd(s, i + 1) else i
  }

  lemma {:induction false} DigitsBefore(s: string, i: nat)
    requires i <= |s|
    ensures AllDigits(s[i..DigitsEnd(s, i)])
    decreases |s| - i
  {
    if i < |s| && IsDigit(s[i]) {
      DigitsBefore(s, i + 1);
      assert s[i..DigitsEnd(s, i)] == [s[i]] + s[i + 1..DigitsEnd(s, i)];
    }
  }

  /** The body of a string literal from `i` on, with `acc` read so far. */
  function Chars(s: string, i: nat, acc: string): (r: Parsed<string>)
    requires i <= |s|
    ensures r.Ok? ==> i < r.next <= |s|
    decreases |s| - i
  {
    if i >= |s| then Fail(InvalidArgument)
    else if s[i] == '"' then Ok(acc, i + 1)
    else if s[i] == '\\' then
      var c := Unescape(CharAt(s, i + 1));
      if c.None? then Fail(InvalidArgument) else Chars(s, i + 2, acc + [c.value])
    else Chars(s, i + 1, acc + [s[i]])
  }

  function StringLiteral(s: string, i: nat): (r: Parsed<string>)
    requires i <= |s|
    ensures r.Ok? ==> i < r.next <= |s|
  {
    if i >= |s| || s[i] != '"' then Fail(InvalidArgument) else Chars(s, i + 1, "")
  }

  predicate DigitAt(s: string, i: nat) {
    i < |s| && IsDigit(s[i])
  }

  /** The end of the optional fraction that starts at `i`. */
  function FractionEnd(s: string, i: nat): (r: Option<nat>)
    requires i <= |s|
    ensures r.Some? ==> i <= r.value <= |s|
  {
    if i < |s| && s[i] == '.' then
      if DigitAt(s, i + 1) then Some(DigitsEnd(s, i + 1)) else None
    else Some(i)
  }

  /** The end of the optional exponent that starts at `i`. */
  function ExponentEnd(s: string, i: nat): (r: Option<nat>)
    requires i <= |s|
    ensures r.Some? ==> i <= r.value <= |s|
  {
    if i < |s| && (s[i] == 'e' || s[i] == 'E') then
      var j := if i + 1 < |s| && (s[i + 1] == '+' || s[i + 1] == '-') then i + 2 else i + 1;
      if DigitAt(s, j) then Some(DigitsEnd(s, j)) else None
    else Some(i)
  }

  const LLONG_MAX: int := 0x7fff_ffff_ffff_ffff

  /** std::stoll on a token of optional minus and digits, then the `int` range check. */
  function ToInt(token: string): (r: Parsed<Json>)
    requires token != ""
    ensures r.Ok? ==> r.next == |token|
  {
    var n := if token[0] == '-' then -DigitsValue(token[1..]) else DigitsValue(token);
    if n < -LLONG_MAX - 1 || n > LLONG_MAX then Fail(OutOfRange)
    else if n < -0x8000_0000 || n > 0x7fff_ffff then Fail(InvalidArgument)
    else Ok(Int(n), |token|)
  }

  function NumberLiteral(s: string, i: nat, stod: Stod): (r: Parsed<Json>)
    requires i < |s| && (s[i] == '-' || IsDigit(s[i]))
    ensures r.Ok? ==> i < r.next <= |s|
  {
    if s[i] == '-' && !DigitAt(s, i + 1) then Fail(InvalidArgument)
    else
      var whole := DigitsEnd(s, i + 1);
      var fraction := FractionEnd(s, whole);
      if fraction.None? then Fail(InvalidArgument)
      else
        var end := ExponentEnd(s, fraction.value);
        if end.None? then Fail(InvalidArgument)
        else if end.value > whole then
          var d := stod(s[i..end.value]);
          if d.None? then Fail(OutOfRange) else Ok(Double(d.value), end.value)
        else
          assert s[i..whole][1..] == s[i + 1..whole];
          match ToInt(s[i..whole])
          case Ok(v, _) => Ok(v, whole)
          case Fail(e) => Fail(e)
  }

  function Keyword(s: string, i: nat, word: string, v: Json): (r: Parsed<Json>)
    requires i <= |s|
    ensures r.Ok? ==> r.next == i + |word| <= |s|
  {
    if i + |word| <= |s| && s[i..i + |word|] == word then Ok(v, i + |word|) else Fail(InvalidArgument)
  }

  function Value(s: string, i: nat, stod: Stod): (r: Parsed<Json>)
    requires i <= |s|
    ensures r.Ok? ==> i < r.next <= |s|
    decreases |s| - i, 3
  {
    var i := WhitespaceEnd(s, i);
    if i >= |s| then Fail(InvalidArgument)
    else match s[i]
      case '{' => ObjectLiteral(s, i, stod)
      case '[' => ArrayLiteral(s, i, stod)
      case '"' =>
        (match StringLiteral(s, i)
         case Ok(t, next) => Ok(String(t), next)
         case Fail(e) => Fail(e))
      case 't' => Keyword(s, i, "true", Bool(true))
      case 'f' => Keyword(s, i, "false", Bool(false))
      case 'n' => Keyword(s, i, "null", Null)
      case c => if c == '-' || IsDigit(c) then NumberLiteral(s, i, stod) else Fail(InvalidArgument)
  }

  function ArrayLiteral(s: string, i: nat, stod: Stod): (r: Parsed<Json>)
    requires i <= |s|
    ensures r.Ok? ==> i < r.next <= |s|
    decreases |s| - i, 2
  {
    if i >= |s| || s[i] != '[' then Fail(InvalidArgument)
    else Elements(s, WhitespaceEnd(s, i + 1), [], stod)
  }

  /** After a value: the index of the next element or of the closing bracket. */
  function Separator(s: string, i: nat, close: char): (r: Option<nat>)
    requires i <= |s|
    ensures r.Some? ==> i <= r.value <= |s|
  {
    var j := WhitespaceEnd(s, i);
    if j < |s| && s[j] == ',' then
      var k := WhitespaceEnd(s, j + 1);
      if k >= |s| || s[k] == close then None else Some(k)
    else if CharAt(s, j) != close then None
    else Some(j)
  }

  /** The loop of parseArray at index `i`, with `acc` pushed so far. */
  function Elements(s: string, i: nat, acc: seq<Json>, stod: Stod): (r: Parsed<Json>)
    requires i <= |s|
    ensures r.Ok? ==> i < r.next <= |s|
    decreases |s| - i, 4
  {
    if i >= |s| then Fail(InvalidArgument)
    else if s[i] == ']' then Ok(Array(acc), i + 1)
    else match Value(s, i, stod)
      case Fail(e) => Fail(e)
      case Ok(v, next) =>
        var sep := Separator(s, next, ']');
        if sep.None? then Fail(InvalidArgument) else Elements(s, sep.value, acc + [v], stod)
  }

  function ObjectLiteral(s: string, i: nat, stod: Stod): (r: Parsed<Json>)
    requires i <= |s|
    ensures r.Ok? ==> i < r.next <= |s|
    decreases |s| - i, 2
  {
    if i >= |s| || s[i] != '{' then Fail(InvalidArgument)
    else Members(s, WhitespaceEnd(s, i + 1), [], stod)
  }

  /** A key and its colon: the key, and where the value's text starts. */
  function Key(s: string, i: nat): (r: Parsed<string>)
    requires i <= |s|
    ensures r.Ok? ==> i < r.next <= |s|
  {
    match StringLiteral(s, i)
    case Fail(e) => Fail(e)
    case Ok(key, next) =>
      var j := WhitespaceEnd(s, next);
      if j >= |s| || s[j] != ':' then Fail(InvalidArgument) else Ok(key, WhitespaceEnd(s, j + 1))
  }

  /** The loop of parseObject at index `i`, with `acc` filled so far. */
  function Members(s: string, i: nat, acc: JsonObject, stod: Stod): (r: Parsed<Json>)
    requires i <= |s|
    ensures r.Ok? ==> i < r.next <= |s|
    decreases |s| - i, 4
  {
    if i >= |s| then Fail(InvalidArgument)
    else if s[i] == '}' then Ok(Object(acc), i + 1)
    else match Key(s, i)
      case Fail(e) => Fail(e)
      case Ok(key, start) =>
        match Value(s, start, stod)
        case Fail(e) => Fail(e)
        case Ok(v, next) =>
          var sep := Separator(s, next, '}');
          if sep.None? then Fail(InvalidArgument) else Members(s, sep.value, Put(acc, key, v), stod)
  }

  function Document(s: string, stod: Stod): (r: Parsed<Json>)
    ensures r.Ok? ==> r.next == |s|
  {
    match Value(s, 0, stod)
    case Fail(e) => Fail(e)
    case Ok(v, next) =>
      var end := WhitespaceEnd(s, next);
      if end != |s| then Fail(InvalidArgument) else Ok(v, end)
  }
}
