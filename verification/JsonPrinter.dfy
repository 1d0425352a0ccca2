/** The text that serialize writes for each value. */
module JsonPrinter {
  import opened JsonValues
  import opened JsonText

  // How a stream writes a finite double: always some number token, with digits lost.
  type Format = real -> Number

  function EscapeChar(c: char): (r: string)
    ensures r == [c] || (|r| == 2 && r[0] == '\\' && Unescape(r[1]) == Some(c))
  {
    match c
    case '"' => ['\\', '"']
    case '\\' => ['\\', '\\']
    case '\U{0008}' => ['\\', 'b']
    case '\U{000C}' => ['\\', 'f']
    case '\n' => ['\\', 'n']
    case '\r' => ['\\', 'r']
    case '\t' => ['\\', 't']
    case _ => [c]
  }

  function Escape(s: string): string {
    if s == "" then "" else EscapeChar(s[0]) + Escape(s[1..])
  }

  function Quote(s: string): string {
    "\"" + (Escape(s) + "\"")
  }

  function Print(v: Json, format: Format): string {
    match v
    case Null => "null"
    case Bool(b) => if b then "true" else "false"
    case Int(n) => NumberText(IntNumber(n))
    case Double(d) => NumberText(format(d))
    case String(s) => Quote(s)
    case Array(elems) => "[" + (PrintElements(elems, 0, format) + "]")
    case Object(members) => "{" + (PrintMembers(members, 0, format) + "}")
  }

  function Comma(i: nat): string {
    if i > 0 then "," else ""
  }

  /** What the array loop still has to write at iteration `i`. */
  function PrintElements(elems: seq<Json>, i: nat, format: Format): string
    requires i <= |elems|
    decreases elems, |elems| - i
  {
    if i == |elems| then ""
    else Comma(i) + (Print(elems[i], format) + PrintElements(elems, i + 1, format))
  }

  /** What the object loop still has to write at iteration `i`. */
  function PrintMembers(ms: seq<Member>, i: nat, format: Format): string
    requires i <= |ms|
    decreases ms, |ms| - i
  {
    if i == |ms| then ""
    else Comma(i) + (Quote(ms[i].key) + (":" + (Print(ms[i].value, format) + PrintMembers(ms, i + 1, format))))
  }
}
