/** serialize and deserialize as they run: loops that append to a result or advance an index. */
module JsonCodec {
  import opened JsonValues
  import opened JsonText
  import opened JsonPrinter
  import opened JsonParser
  import JsonRfc
  import JsonEscapes

  method EscapeString(str: string) returns (res: string)
    ensures res == Escape(str) && |res| == |str| + JsonEscapes.Marked(str)
    ensures forall k | 0 <= k < |res| :: !JsonEscapes.Control(res[k])
  {
    JsonEscapes.EscapeLength(str);
    JsonEscapes.EscapeHasNoControl(str);
    res := "";
    for i := 0 to |str|
      invariant res + Escape(str[i..]) == Escape(str)
    {
      res := res + EscapeChar(str[i]);
      assert str[i..][1..] == str[i + 1..];
    }
  }

  method Serialize(v: Json, format: Format) returns (ss: string)
    ensures ss == Print(v, format)
    decreases v
  {
    match v
    case Null => ss := "null";
    case Bool(b) => ss := if b then "true" else "false";
    case Int(n) => ss := NumberText(IntNumber(n));
    case Double(d) => ss := NumberText(format(d));
    case String(s) =>
      var escaped := EscapeString(s);
      ss := "\"" + escaped + "\"";
    case Array(elems) => ss := SerializeArray(elems, format);
    case Object(members) => ss := SerializeObject(members, format);
  }

  method SerializeArray(elems: seq<Json>, format: Format) returns (ss: string)
    ensures ss == Print(Array(elems), format)
    decreases elems
  {
    ss := "[";
    for i := 0 to |elems|
      invariant ss + PrintElements(elems, i, format) == "[" + PrintElements(elems, 0, format)
    {
      ghost var before := ss;
      if i > 0 {
        ss := ss + ",";
      }
      assert ss == before + Comma(i);
      var element := Serialize(elems[i], format);
      ss := ss + element;
      Regroup(before, Comma(i), element, PrintElements(elems, i + 1, format));
    }
    Bracketed("[", PrintElements(elems, 0, format), "]", ss);
    ss := ss + "]";
  }

  method SerializeObject(members: JsonObject, format: Format) returns (ss: string)
    ensures ss == Print(Object(members), format)
    decreases members
  {
    ss := "{";
    for i := 0 to |members|
      invariant ss + PrintMembers(members, i, format) == "{" + PrintMembers(members, 0, format)
    {
      ghost var before := ss;
      if i > 0 {
        ss := ss + ",";
      }
      assert ss == before + Comma(i);
      var key := EscapeString(members[i].key);
      var value := Serialize(members[i].value, format);
      ss := ss + "\"" + key + "\":" + value;
      MemberText(before + Comma(i), key, value, PrintMembers(members, i + 1, format));
      Regroup(before, Comma(i), Quote(members[i].key), ":" + (value + PrintMembers(members, i + 1, format)));
    }
    Bracketed("{", PrintMembers(members, 0, format), "}", ss);
    ss := ss + "}";
  }

  lemma Regroup(a: string, b: string, c: string, d: string)
    ensures a + b + c + d == a + (b + (c + d))
  {}

  lemma Bracketed(open: string, body: string, close: string, ss: string)
    requires ss + "" == open + body
    ensures ss + close == open + (body + close)
  {
    assert ss + "" == ss;
  }

  lemma MemberText(a: string, key: string, value: string, rest: string)
    ensures a + "\"" + key + "\":" + value + rest == a + ("\"" + (key + "\"")) + (":" + (value + rest))
  {
    assert "\"" + ":" == "\":";
    assert a + "\"" + key + "\":" == a + ("\"" + (key + "\"")) + ":";
  }

  method SkipWhitespace(json: string, start: nat) returns (index: nat)
    requires start <= |json|
    ensures index == WhitespaceEnd(json, start)
    ensures start <= index <= |json| && (forall k | start <= k < index :: JsonRfc.Blank(json[k]))
    ensures index < |json| ==> !JsonRfc.Blank(json[index])
  {
    index := start;
    while index < |json| && (json[index] == ' ' || json[index] == '\t' || json[index] == '\n' || json[index] == '\r')
      invariant start <= index <= |json| && forall k | start <= k < index :: JsonRfc.Blank(json[k])
      invariant WhitespaceEnd(json, index) == WhitespaceEnd(json, start)
    {
      index := index + 1;
    }
  }

  method ParseString(json: string, start: nat) returns (r: Parsed<string>)
    requires start <= |json|
    ensures r == StringLiteral(json, start)
  {
    if start >= |json| || json[start] != '"' {
      return Fail(InvalidArgument);
    }
    var index := start + 1;
    var result := "";
    while index < |json| && json[index] != '"'
      invariant start < index <= |json|
      invariant Chars(json, index, result) == Chars(json, start + 1, "")
    {
      if json[index] == '\\' {
        index := index + 1;
        var c := Unescape(CharAt(json, index));
        if c.None? {
          return Fail(InvalidArgument);
        }
        result := result + [c.value];
      } else {
        result := result + [json[index]];
      }
      index := index + 1;
    }
    if index >= |json| || json[index] != '"' {
      return Fail(InvalidArgument);
    }
    return Ok(result, index + 1);
  }

  method SkipDigits(json: string, start: nat) returns (index: nat)
    requires start <= |json|
    ensures index == DigitsEnd(json, start)
  {
    index := start;
    while index < |json| && IsDigit(json[index])
      invariant start <= index <= |json|
      invariant DigitsEnd(json, index) == DigitsEnd(json, start)
    {
      index := index + 1;
    }
  }

  /** The optional fraction; None for a point without a digit. */
  method SkipFraction(json: string, start: nat) returns (end: Option<nat>)
    requires start <= |json|
    ensures end == FractionEnd(json, start)
  {
    var index := start;
    if index < |json| && json[index] == '.' {
      index := index + 1;
      if index >= |json| || !IsDigit(json[index]) {
        return None;
      }
      index := SkipDigits(json, index);
    }
    return Some(index);
  }

  /** The optional exponent; None for one without a digit. */
  method SkipExponent(json: string, start: nat) returns (end: Option<nat>)
    requires start <= |json|
    ensures end == ExponentEnd(json, start)
  {
    var index := start;
    if index < |json| && (json[index] == 'e' || json[index] == 'E') {
      index := index + 1;
      if index < |json| && (json[index] == '+' || json[index] == '-') {
        index := index + 1;
      }
      if index >= |json| || !IsDigit(json[index]) {
        return None;
      }
      index := SkipDigits(json, index);
    }
    return Some(index);
  }

  method ParseNumber(json: string, start: nat, stod: Stod) returns (r: Parsed<Json>)
    requires start < |json| && (json[start] == '-' || IsDigit(json[start]))
    ensures r == NumberLiteral(json, start, stod)
  {
    var index := start;
    if json[index] == '-' {
      index := index + 1;
      if index >= |json| || !IsDigit(json[index]) {
        return Fail(InvalidArgument);
      }
    }
    var whole := SkipDigits(json, index);
    assert whole == DigitsEnd(json, start + 1);
    var fraction := SkipFraction(json, whole);
    if fraction.None? {
      return Fail(InvalidArgument);
    }
    var end := SkipExponent(json, fraction.value);
    if end.None? {
      return Fail(InvalidArgument);
    }
    var token := json[start..end.value];
    if end.value > whole {
      var d := stod(token);
      return if d.None? then Fail(OutOfRange) else Ok(Double(d.value), end.value);
    }
    assert token[1..] == json[start + 1..whole];
    var n := ToInt(token);
    return match n case Ok(v, _) => Ok(v, whole) case Fail(e) => Fail(e);
  }

  /** The comma handling at the end of each turn of the array and object loops. */
  method NextMember(json: string, start: nat, close: char) returns (r: Option<nat>)
    requires start <= |json|
    ensures r == Separator(json, start, close)
  {
    var index := SkipWhitespace(json, start);
    if index < |json| && json[index] == ',' {
      index := SkipWhitespace(json, index + 1);
      if index >= |json| || json[index] == close {
        return None;
      }
    } else if CharAt(json, index) != close {
      return None;
    }
    return Some(index);
  }

  /** The start of each turn of the object loop: a key, its colon and the whitespace around it. */
  method ParseKey(json: string, start: nat) returns (r: Parsed<string>)
    requires start <= |json|
    ensures r == Key(json, start)
  {
    r := ParseString(json, start);
    if r.Fail? {
      return;
    }
    var index := SkipWhitespace(json, r.next);
    if index >= |json| || json[index] != ':' {
      return Fail(InvalidArgument);
    }
    index := SkipWhitespace(json, index + 1);
    return Ok(r.value, index);
  }

  method ParseArray(json: string, start: nat, stod: Stod) returns (r: Parsed<Json>)
    requires start <= |json|
    ensures r == ArrayLiteral(json, start, stod)
    decreases |json| - start, 2
  {
    if start >= |json| || json[start] != '[' {
      return Fail(InvalidArgument);
    }
    var index := SkipWhitespace(json, start + 1);
    var arr := [];
    while index < |json| && json[index] != ']'
      invariant start < index <= |json|
      invariant Elements(json, index, arr, stod) == ArrayLiteral(json, start, stod)
      decreases |json| - index
    {
      var v := ParseValue(json, index, stod);
      if v.Fail? {
        return v;
      }
      arr := arr + [v.value];
      var next := NextMember(json, v.next, ']');
      if next.None? {
        return Fail(InvalidArgument);
      }
      index := next.value;
    }
    if index >= |json| || json[index] != ']' {
      return Fail(InvalidArgument);
    }
    return Ok(Array(arr), index + 1);
  }

  method ParseObject(json: string, start: nat, stod: Stod) returns (r: Parsed<Json>)
    requires start <= |json|
    ensures r == ObjectLiteral(json, start, stod)
    decreases |json| - start, 2
  {
    if start >= |json| || json[start] != '{' {
      return Fail(InvalidArgument);
    }
    var index := SkipWhitespace(json, start + 1);
    var obj: JsonObject := [];
    while index < |json| && json[index] != '}'
      invariant start < index <= |json|
      invariant Members(json, index, obj, stod) == ObjectLiteral(json, start, stod)
      decreases |json| - index
    {
      var key := ParseKey(json, index);
      if key.Fail? {
        return Fail(key.error);
      }
      var v := ParseValue(json, key.next, stod);
      if v.Fail? {
        return v;
      }
      obj := Put(obj, key.value, v.value);
      var next := NextMember(json, v.next, '}');
      if next.None? {
        return Fail(InvalidArgument);
      }
      index := next.value;
    }
    if index >= |json| || json[index] != '}' {
      return Fail(InvalidArgument);
    }
    return Ok(Object(obj), index + 1);
  }

  method ParseValue(json: string, start: nat, stod: Stod) returns (r: Parsed<Json>)
    requires start <= |json|
    ensures r == Value(json, start, stod)
    decreases |json| - start, 3
  {
    var index := SkipWhitespace(json, start);
    if index >= |json| {
      return Fail(InvalidArgument);
    }
    match json[index]
    case '{' => r := ParseObject(json, index, stod);
    case '[' => r := ParseArray(json, index, stod);
    case '"' =>
      var t := ParseString(json, index);
      r := match t case Ok(text, next) => Ok(String(text), next) case Fail(e) => Fail(e);
    case 't' =>
      if index + 3 >= |json| || json[index..index + 4] != "true" {
        return Fail(InvalidArgument);
      }
      r := Ok(Bool(true), index + 4);
    case 'f' =>
      if index + 4 >= |json| || json[index..index + 5] != "false" {
        return Fail(InvalidArgument);
      }
      r := Ok(Bool(false), index + 5);
    case 'n' =>
      if index + 3 >= |json| || json[index..index + 4] != "null" {
        return Fail(InvalidArgument);
      }
      r := Ok(Null, index + 4);
    case c =>
      if c == '-' || IsDigit(c) {
        r := ParseNumber(json, index, stod);
      } else {
        r := Fail(InvalidArgument);
      }
  }

  method Deserialize(json: string, stod: Stod) returns (r: Parsed<Json>)
    ensures r == Document(json, stod)
  {
    var root := ParseValue(json, 0, stod);
    if root.Fail? {
      return root;
    }
    var index := SkipWhitespace(json, root.next);
    if index != |json| {
      return Fail(InvalidArgument);
    }
    return Ok(root.value, index);
  }
}
