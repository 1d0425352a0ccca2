/** The seven escapes by their character codes, and what a printed text therefore never contains. */
module JsonEscapes {
  import opened JsonValues
  import opened JsonText
  import opened JsonPrinter
  import opened JsonParser
  import opened JsonPrinted
  import opened JsonTheorems

  // ----- the table -----

  /** The mark that stands behind a backslash for the character of this code. */
  function MarkOf(code: int): Option<int> {
    if code == 0x22 then Some(0x22)
    else if code == 0x5C then Some(0x5C)
    else if code == 0x08 then Some(0x62)
    else if code == 0x0C then Some(0x66)
    else if code == 0x0A then Some(0x6E)
    else if code == 0x0D then Some(0x72)
    else if code == 0x09 then Some(0x74)
    else None
  }

  /** Printing escapes exactly the characters of the table, with their marks. */
  lemma EscapesByTable(c: char)
    ensures match MarkOf(c as int)
      case None => EscapeChar(c) == [c]
      case Some(mark) => |EscapeChar(c)| == 2 && EscapeChar(c)[0] as int == 0x5C && EscapeChar(c)[1] as int == mark
  {
  }

  /** And the parser takes exactly these marks back, for these characters. */
  lemma UnescapesByTable(mark: char, c: char)
    ensures Unescape(mark) == Some(c) <==> MarkOf(c as int) == Some(mark as int)
  {
  }

  /** How many characters of a text are escaped. */
  function Marked(s: string): nat {
    if s == "" then 0 else (if MarkOf(s[0] as int).Some? then 1 else 0) + Marked(s[1..])
  }

  lemma {:induction false} EscapeLength(s: string)
    ensures |Escape(s)| == |s| + Marked(s)
  {
    if s != "" {
      EscapesByTable(s[0]);
      EscapeLength(s[1..]);
    }
  }

  // ----- what is not in a printed text -----

  /** Backspace, tab, line feed, form feed, carriage return. */
  predicate Control(c: char) {
    var code := c as int;
    code == 8 || code == 9 || code == 10 || code == 12 || code == 13
  }

  lemma {:induction false} EscapeHasNoControl(s: string)
    ensures forall k | 0 <= k < |Escape(s)| :: !Control(Escape(s)[k])
  {
    if s != "" {
      EscapesByTable(s[0]);
      EscapeHasNoControl(s[1..]);
    }
  }

  /** How many characters of a text satisfy the predicate. */
  function Count(s: string, p: char -> bool): nat {
    if s == "" then 0 else (if p(s[0]) then 1 else 0) + Count(s[1..], p)
  }

  lemma {:induction false} CountConcat(a: string, b: string, p: char -> bool)
    ensures Count(a + b, p) == Count(a, p) + Count(b, p)
  {
    if a == "" {
      assert a + b == b;
    } else {
      assert (a + b)[1..] == a[1..] + b;
      CountConcat(a[1..], b, p);
    }
  }

  lemma {:induction false} CountNone(s: string, p: char -> bool)
    ensures Count(s, p) == 0 <==> forall k | 0 <= k < |s| :: !p(s[k])
  {
    if s != "" {
      CountNone(s[1..], p);
      assert forall k | 0 < k < |s| :: s[k] == s[1..][k - 1];
    }
  }

  /** A predicate that no character of a token, of a bracket or of an escape satisfies: what it counts is in the strings. */
  ghost predicate OffSyntax(p: char -> bool) {
    && !p('"') && !p('\\') && !p('[') && !p(']') && !p('{') && !p('}') && !p(',') && !p(':')
    && !p('-') && !p('+') && !p('.') && (forall c | 'a' <= c <= 'z' || 'A' <= c <= 'Z' || '0' <= c <= '9' :: !p(c))
  }

  /** How many characters of the strings and keys of a value satisfy `p` and are not escaped. */
  function Unescaped(s: string, p: char -> bool): nat {
    Count(s, c => p(c) && MarkOf(c as int).None?)
  }

  function InStrings(v: Json, p: char -> bool): nat {
    match v
    case String(s) => Unescaped(s, p)
    case Array(elems) => InElements(elems, 0, p)
    case Object(ms) => InMembers(ms, 0, p)
    case _ => 0
  }

  function InElements(elems: seq<Json>, i: nat, p: char -> bool): nat
    requires i <= |elems|
    decreases elems, |elems| - i
  {
    if i == |elems| then 0 else InStrings(elems[i], p) + InElements(elems, i + 1, p)
  }

  function InMembers(ms: seq<Member>, i: nat, p: char -> bool): nat
    requires i <= |ms|
    decreases ms, |ms| - i
  {
    if i == |ms| then 0 else Unescaped(ms[i].key, p) + InStrings(ms[i].value, p) + InMembers(ms, i + 1, p)
  }

  lemma {:induction false} EscapeCount(s: string, p: char -> bool)
    requires OffSyntax(p)
    ensures Count(Escape(s), p) == Unescaped(s, p)
  {
    if s != "" {
      var first := EscapeChar(s[0]);
      EscapesByTable(s[0]);
      EscapeCount(s[1..], p);
      CountConcat(first, Escape(s[1..]), p);
      assert first[1..] == if |first| == 2 then [first[1]] else "";
    }
  }

  lemma {:induction false} QuoteCount(s: string, p: char -> bool)
    requires OffSyntax(p)
    ensures Count(Quote(s), p) == Unescaped(s, p)
  {
    EscapeCount(s, p);
    CountConcat("\"", Escape(s) + "\"", p);
    CountConcat(Escape(s), "\"", p);
  }

  lemma NumberSyntax(n: Number, c: char)
    requires ValidNumber(n) && c in NumberText(n)
    ensures c == '-' || c == '+' || c == '.' || c == 'e' || c == 'E' || '0' <= c <= '9'
  {
    assert c in n.whole ==> IsDigit(c);
    assert n.fraction.Some? && c in n.fraction.value ==> IsDigit(c);
    assert n.exponent.Some? && c in n.exponent.value.digits ==> IsDigit(c);
  }

  lemma {:induction false} NumberCount(n: Number, p: char -> bool)
    requires ValidNumber(n) && OffSyntax(p)
    ensures Count(NumberText(n), p) == 0
  {
    forall k | 0 <= k < |NumberText(n)| ensures !p(NumberText(n)[k]) {
      NumberSyntax(n, NumberText(n)[k]);
    }
    CountNone(NumberText(n), p);
  }

  /** What a printed value contains outside the syntax is in its strings: no blank is added, and no control character left. */
  lemma {:induction false} PrintCount(v: Json, format: Format, p: char -> bool)
    requires WritesNumbers(format) && OffSyntax(p)
    ensures Count(Print(v, format), p) == InStrings(v, p)
    decreases v, 0
  {
    match v
    case Null => CountNone("null", p);
    case Bool(b) => CountNone(if b then "true" else "false", p);
    case Int(n) => NumberCount(IntNumber(n), p);
    case Double(d) => NumberCount(format(d), p);
    case String(s) => QuoteCount(s, p);
    case Array(elems) =>
      ElementsCount(elems, 0, format, p);
      CountConcat("[", PrintElements(elems, 0, format) + "]", p);
      CountConcat(PrintElements(elems, 0, format), "]", p);
    case Object(ms) =>
      MembersCount(ms, 0, format, p);
      CountConcat("{", PrintMembers(ms, 0, format) + "}", p);
      CountConcat(PrintMembers(ms, 0, format), "}", p);
  }

  lemma {:induction false} ElementsCount(elems: seq<Json>, i: nat, format: Format, p: char -> bool)
    requires WritesNumbers(format) && OffSyntax(p) && i <= |elems|
    ensures Count(PrintElements(elems, i, format), p) == InElements(elems, i, p)
    decreases elems, |elems| - i
  {
    if i < |elems| {
      var rest := PrintElements(elems, i + 1, format);
      PrintCount(elems[i], format, p);
      ElementsCount(elems, i + 1, format, p);
      CountConcat(Comma(i), Print(elems[i], format) + rest, p);
      CountConcat(Print(elems[i], format), rest, p);
      CountNone(Comma(i), p);
    }
  }

  lemma {:induction false} MembersCount(ms: seq<Member>, i: nat, format: Format, p: char -> bool)
    requires WritesNumbers(format) && OffSyntax(p) && i <= |ms|
    ensures Count(PrintMembers(ms, i, format), p) == InMembers(ms, i, p)
    decreases ms, |ms| - i
  {
    if i < |ms| {
      var value, rest := Print(ms[i].value, format), PrintMembers(ms, i + 1, format);
      QuoteCount(ms[i].key, p);
      PrintCount(ms[i].value, format, p);
      MembersCount(ms, i + 1, format, p);
      CountConcat(Comma(i), Quote(ms[i].key) + (":" + (value + rest)), p);
      CountConcat(Quote(ms[i].key), ":" + (value + rest), p);
      CountConcat(":", value + rest, p);
      CountConcat(value, rest, p);
      CountNone(Comma(i), p);
    }
  }

  lemma {:induction false} NoneUnescaped(v: Json, p: char -> bool)
    requires forall c | p(c) :: MarkOf(c as int).Some?
    ensures InStrings(v, p) == 0
    decreases v, 0
  {
    match v
    case String(s) => CountNone(s, c => p(c) && MarkOf(c as int).None?);
    case Array(elems) => NoneInElements(elems, 0, p);
    case Object(ms) => NoneInMembers(ms, 0, p);
    case _ =>
  }

  lemma {:induction false} NoneInElements(elems: seq<Json>, i: nat, p: char -> bool)
    requires (forall c | p(c) :: MarkOf(c as int).Some?) && i <= |elems|
    ensures InElements(elems, i, p) == 0
    decreases elems, |elems| - i
  {
    if i < |elems| {
      NoneUnescaped(elems[i], p);
      NoneInElements(elems, i + 1, p);
    }
  }

  lemma {:induction false} NoneInMembers(ms: seq<Member>, i: nat, p: char -> bool)
    requires (forall c | p(c) :: MarkOf(c as int).Some?) && i <= |ms|
    ensures InMembers(ms, i, p) == 0
    decreases ms, |ms| - i
  {
    if i < |ms| {
      CountNone(ms[i].key, c => p(c) && MarkOf(c as int).None?);
      NoneUnescaped(ms[i].value, p);
      NoneInMembers(ms, i + 1, p);
    }
  }

  /** No printed text contains one of the five control characters that have an escape. */
  lemma {:induction false} PrintHasNoControl(v: Json, format: Format)
    requires WritesNumbers(format)
    ensures forall k | 0 <= k < |Print(v, format)| :: !Control(Print(v, format)[k])
  {
    PrintCount(v, format, Control);
    NoneUnescaped(v, Control);
    CountNone(Print(v, format), Control);
  }

  /** Printing adds no blank: a printed text has as many spaces as the strings and keys of the value. */
  lemma {:induction false} PrintAddsNoSpace(v: Json, format: Format)
    requires WritesNumbers(format)
    ensures Count(Print(v, format), c => c as int == 0x20) == InStrings(v, c => c as int == 0x20)
  {
    PrintCount(v, format, c => c as int == 0x20);
  }

  // ----- strings as they may be written -----

  /** A string literal may hold any characters but quotation mark and backslash as they are, control characters included. */
  lemma {:induction false} RawStrings(s: string, stod: Stod)
    requires forall k | 0 <= k < |s| :: s[k] as int != 0x22 && s[k] as int != 0x5C
    ensures Document("\"" + (s + "\""), stod) == Ok(String(s), |s| + 2)
  {
    var text := "\"" + (s + "\"");
    RawChars(text, 1, "", s);
    assert "" + s == s;
  }

  lemma {:induction false} RawChars(text: string, i: nat, acc: string, s: string)
    requires i + |s| + 1 == |text| && text[i..] == s + "\""
    requires forall k | 0 <= k < |s| :: s[k] as int != 0x22 && s[k] as int != 0x5C
    ensures Chars(text, i, acc) == Ok(acc + s, |text|)
    decreases |s|
  {
    assert text[i] == text[i..][0];
    if s == "" {
      assert acc + s == acc;
    } else {
      assert text[i + 1..] == text[i..][1..] == s[1..] + "\"";
      RawChars(text, i + 1, acc + [s[0]], s[1..]);
      assert acc + [s[0]] + s[1..] == acc + s;
    }
  }

  /** A backslash with a mark is read as the character of the table, and fails with any other behind it. */
  lemma {:induction false} EscapedCharacter(mark: char, c: char, stod: Stod)
    ensures Document(['"', '\\', mark, '"'], stod) == Ok(String([c]), 4) <==> MarkOf(c as int) == Some(mark as int)
    ensures Document(['"', '\\', mark, '"'], stod).Ok? ==> Unescape(mark).Some?
  {
    var text := ['"', '\\', mark, '"'];
    UnescapesByTable(mark, c);
    if Unescape(mark).Some? {
      var r := [Unescape(mark).value];
      assert "" + r == r && Chars(text, 3, r) == Ok(r, 4);
      assert Document(text, stod) == Ok(String(r), 4);
      assert r == [c] <==> r[0] == c;
    }
  }
}
