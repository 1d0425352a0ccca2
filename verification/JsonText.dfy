/** Characters, escapes and number lexemes shared by the printer, the parser and the grammar. */
module JsonText {
  import opened JsonValues

  predicate IsWhitespace(c: char) {
    c == ' ' || c == '\t' || c == '\n' || c == '\r'
  }

  ghost predicate AllWhitespace(s: string) {
    forall i | 0 <= i < |s| :: IsWhitespace(s[i])
  }

  predicate IsDigit(c: char) {
    '0' <= c <= '9'
  }

  ghost predicate AllDigits(s: string) {
    forall i | 0 <= i < |s| :: IsDigit(s[i])
  }

  const BACKSPACE: char := '\U{0008}'
  const FORMFEED: char := '\U{000C}'

  /** What a backslash followed by `mark` stands for. */
  function Unescape(mark: char): (r: Option<char>)
    ensures mark == '\0' ==> r == None
  {
    match mark
    case '"' => Some('"')
    case '\\' => Some('\\')
    case 'b' => Some(BACKSPACE)
    case 'f' => Some(FORMFEED)
    case 'n' => Some('\n')
    case 'r' => Some('\r')
    case 't' => Some('\t')
    case _ => None
  }

  /** The numeric value of a digit string. */
  function DigitsValue(s: string): int {
    if s == "" then 0
    else 10 * DigitsValue(s[..|s| - 1]) + (s[|s| - 1] as int - '0' as int)
  }

  /** The decimal digits of a number, without leading zeros. */
  function Decimal(n: nat): (s: string)
    ensures s != "" && AllDigits(s)
    ensures s[0] == '0' ==> s == "0"
  {
    var last := [('0' as int + n % 10) as char];
    if n < 10 then last else Decimal(n / 10) + last
  }

  lemma {:induction false} DecimalValue(n: nat)
    ensures DigitsValue(Decimal(n)) == n
  {
    var s := Decimal(n);
    if n >= 10 {
      DecimalValue(n / 10);
      assert s[..|s| - 1] == Decimal(n / 10);
    } else {
      assert s[..|s| - 1] == "";
    }
  }

  /** A number token: sign, digits, and the optional fraction and exponent that make it a double. */
  datatype Number = Number(negative: bool, whole: string, fraction: Option<string>, exponent: Option<Exponent>) {
    predicate IsInteger() {
      fraction.None? && exponent.None?
    }
  }

  datatype Exponent = Exponent(mark: char, sign: string, digits: string)

  ghost predicate NonemptyDigits(s: string) {
    s != "" && AllDigits(s)
  }

  ghost predicate ValidNumber(n: Number) {
    && NonemptyDigits(n.whole)
    && (n.fraction.Some? ==> NonemptyDigits(n.fraction.value))
    && ValidExponent(n.exponent)
  }

  ghost predicate ValidExponent(e: Option<Exponent>) {
    e.Some? ==>
      && (e.value.mark == 'e' || e.value.mark == 'E')
      && (e.value.sign == "" || e.value.sign == "+" || e.value.sign == "-")
      && NonemptyDigits(e.value.digits)
  }

  function FractionText(f: Option<string>): string {
    if f.None? then "" else "." + f.value
  }

  function ExponentText(e: Option<Exponent>): string {
    if e.None? then "" else [e.value.mark] + e.value.sign + e.value.digits
  }

  function SignText(negative: bool): string {
    if negative then "-" else ""
  }

  function NumberText(n: Number): string {
    SignText(n.negative) + (n.whole + (FractionText(n.fraction) + ExponentText(n.exponent)))
  }

  /** The token that printing an `int` writes. */
  function IntNumber(n: int): (r: Number)
    ensures ValidNumber(r) && r.IsInteger()
  {
    Number(n < 0, Decimal(if n < 0 then -n else n), None, None)
  }

  /** The value of an integer token. */
  function IntegerValue(n: Number): int {
    if n.negative then -DigitsValue(n.whole) else DigitsValue(n.whole)
  }

  lemma IntNumberValue(n: int)
    ensures IntegerValue(IntNumber(n)) == n
  {
    DecimalValue(if n < 0 then -n else n);
  }

  /** `t` stands in `s` at position `i`. */
  ghost predicate Occurs(s: string, i: nat, t: string) {
    i + |t| <= |s| && s[i..i + |t|] == t
  }

  lemma OccursSplit(s: string, i: nat, a: string, b: string)
    ensures Occurs(s, i, a + b) <==> Occurs(s, i, a) && Occurs(s, i + |a|, b)
  {
    if i + |a| + |b| <= |s| {
      var w := s[i..i + |a + b|];
      assert w == s[i..i + |a|] + s[i + |a|..i + |a| + |b|];
      assert s[i..i + |a|] == w[..|a|] && s[i + |a|..i + |a| + |b|] == w[|a|..];
      assert (a + b)[..|a|] == a && (a + b)[|a|..] == b;
    }
  }

  lemma OccursAt(s: string, i: nat, t: string, k: nat)
    requires Occurs(s, i, t) && k < |t|
    ensures s[i + k] == t[k]
  {
    assert s[i..i + |t|][k] == t[k];
  }
}
