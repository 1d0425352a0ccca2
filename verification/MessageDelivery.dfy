/** When the message a subscriber reads is the one last published: the segment keeps the size of the first message. */
module MessageDelivery {
  import opened JsonValues
  import opened JsonText
  import opened JsonPrinter
  import opened JsonParser
  import opened JsonGrammar
  import opened JsonPrinted
  import opened JsonTheorems
  import opened TopicShm
  import opened Messages

  lemma NumberSolid(n: Number)
    requires ValidNumber(n)
    ensures Solid(NumberText(n))
  {
    var fraction, exponent := FractionText(n.fraction), ExponentText(n.exponent);
    var last := if exponent != "" then exponent else if fraction != "" then fraction else n.whole;
    assert IsDigit(last[|last| - 1]);
    var text := NumberText(n);
    assert text[|text| - 1] == last[|last| - 1];
  }

  lemma {:induction false} PrintSolid(v: Json, format: Format)
    requires WritesNumbers(format)
    ensures Solid(Print(v, format))
  {
    match v
    case Int(n) => NumberSolid(IntNumber(n));
    case Double(d) => NumberSolid(format(d));
    case _ =>
  }

  /** Every message fits the segment that the first one has created. */
  ghost predicate FitFirst(vs: seq<Json>, format: Format) {
    vs != [] && forall i | 0 <= i < |vs| :: |Print(vs[i], format)| <= |Print(vs[0], format)|
  }

  /** The segment after these messages. */
  ghost function Region(vs: seq<Json>, format: Format): (r: string)
    requires FitFirst(vs, format)
    ensures |r| == |Print(vs[0], format)|
  {
    var n := |vs| - 1;
    if n == 0 then Print(vs[0], format) else Overlay(Region(vs[..n], format), Print(vs[n], format), 0)
  }

  lemma {:induction false} RegionBegins(vs: seq<Json>, format: Format)
    requires FitFirst(vs, format)
    ensures var text := Print(vs[|vs| - 1], format); |text| <= |Region(vs, format)| && Region(vs, format)[..|text|] == text
  {
  }

  lemma OverlaySolid(region: string, text: string)
    requires |text| <= |region| && Solid(region) && Solid(text)
    ensures Solid(Overlay(region, text, 0))
  {
  }

  lemma {:induction false} RegionSolid(vs: seq<Json>, format: Format)
    requires FitFirst(vs, format) && WritesNumbers(format)
    ensures Solid(Region(vs, format))
  {
    var n := |vs| - 1;
    PrintSolid(vs[n], format);
    if n > 0 {
      RegionSolid(vs[..n], format);
      OverlaySolid(Region(vs[..n], format), Print(vs[n], format));
    }
  }

  /** A text followed by a rest that does not end in whitespace is refused, unless the rest continues a number. */
  lemma {:induction false} RestRefused(s: string, v: Json, format: Format, stod: Stod)
    requires WritesNumbers(format) && Stable(v, format, stod)
    requires |Print(v, format)| < |s| && s[..|Print(v, format)|] == Print(v, format) && Solid(s)
    requires Follows(TreeOf(v, format), s, |Print(v, format)|)
    ensures Document(s, stod).Fail?
  {
    var k := |Print(v, format)|;
    assert s[0..k] == s[..k];
    ParsesInContext(s, 0, k, v, format, stod);
    WhitespaceStops(s, k);
  }

  // ----- numbers and what is left behind them -----

  predicate AllZeros(s: string) {
    forall i | 0 <= i < |s| :: s[i] == '0'
  }

  lemma {:induction false} ZeroDigits(s: string)
    requires AllDigits(s)
    ensures DigitsValue(s) >= 0
    ensures DigitsValue(s) == 0 <==> AllZeros(s)
  {
    if s != "" {
      var init := s[..|s| - 1];
      ZeroDigits(init);
      assert s == init + [s[|s| - 1]];
    }
  }

  lemma {:induction false} LongerDigits(a: string, b: string)
    requires NonemptyDigits(a) && NonemptyDigits(b) && DigitsValue(a) > 0
    ensures DigitsValue(a + b) > DigitsValue(a)
  {
    var n := |b| - 1;
    assert (a + b)[..|a + b| - 1] == a + b[..n];
    if n == 0 {
      assert a + b[..n] == a;
    } else {
      LongerDigits(a, b[..n]);
    }
  }

  function Magnitude(n: int): (r: nat) {
    if n < 0 then -n else n
  }

  lemma IntText(n: Int32, format: Format)
    ensures Print(Int(n), format) == SignText(n < 0) + Decimal(Magnitude(n))
  {
    assert Decimal(Magnitude(n)) + ("" + "") == Decimal(Magnitude(n));
  }

  /** The value that the token of `n` has together with the digits after it. */
  function Mixed(n: int, rest: string): int {
    IntegerValue(Number(n < 0, Decimal(Magnitude(n)) + rest, None, None))
  }

  lemma MixedSize(n: int, rest: string)
    requires NonemptyDigits(rest)
    ensures n > 0 ==> Mixed(n, rest) > n
    ensures n < 0 ==> Mixed(n, rest) < n
    ensures n == 0 ==> Mixed(n, rest) >= 0 && (Mixed(n, rest) == 0 <==> AllZeros(rest))
  {
    var w := Decimal(Magnitude(n));
    DecimalValue(Magnitude(n));
    if n == 0 {
      assert w == "0";
      ZeroDigits(w + rest);
      assert AllZeros(w + rest) ==> AllZeros((w + rest)[1..]);
      assert (w + rest)[1..] == rest;
    } else {
      LongerDigits(w, rest);
    }
  }

  /** Digits behind an integer are read as part of it. */
  lemma MixedRead(n: Int32, rest: string, format: Format, stod: Stod)
    requires NonemptyDigits(rest)
    ensures var s, k := Print(Int(n), format) + rest, Mixed(n, rest);
      if InInt(k) then Document(s, stod) == Ok(Int(k), |s|) else Document(s, stod).Fail?
  {
    var w := Decimal(Magnitude(n));
    IntText(n, format);
    assert Print(Int(n), format) + rest == SignText(n < 0) + (w + rest);
    IntegerTokens(SignText(n < 0) + (w + rest), Number(n < 0, w + rest, None, None), stod);
  }

  /** An integer token is digits after its first character. */
  lemma TokenDigits(s: string, k: Int32, stod: Stod)
    requires IsToken(s, Int(k), stod)
    ensures s != "" && AllDigits(s[1..])
  {
    var n :| ValidNumber(n) && NumberText(n) == s && Convertible(n, stod) && NumberValue(n, stod) == Int(k);
    assert s == SignText(n.negative) + n.whole;
  }

  lemma SuffixDigits(s: string, i: nat)
    requires i < |s| && AllDigits(s[1..])
    ensures i > 0 ==> AllDigits(s[i..])
  {
    assert forall j | 0 < j < |s| :: s[j] == s[1..][j - 1];
  }

  lemma IntStarts(n: Int32, rest: string, format: Format)
    ensures Print(Int(n), format) != "" && NumberStart(Print(Int(n), format) + rest)
  {
    IntText(n, format);
  }

  /** Only digits behind an integer text make an integer token with it. */
  lemma RestIsDigits(n: Int32, rest: string, k: Int32, format: Format, stod: Stod)
    requires IsToken(Print(Int(n), format) + rest, Int(k), stod)
    ensures AllDigits(rest)
  {
    var text := Print(Int(n), format);
    IntStarts(n, "", format);
    TokenDigits(text + rest, k, stod);
    if rest != "" {
      SuffixDigits(text + rest, |text|);
      assert rest == (text + rest)[|text|..];
    }
  }

  /** An integer text with something solid behind it reads back as itself only if it is 0 and zeros follow. */
  lemma IntWithRest(n: Int32, rest: string, format: Format, stod: Stod)
    requires rest != "" && Solid(rest)
    ensures var s := Print(Int(n), format) + rest;
      Document(s, stod) == Ok(Int(n), |s|) <==> n == 0 && AllZeros(rest)
  {
    var s := Print(Int(n), format) + rest;
    if Document(s, stod) == Ok(Int(n), |s|) {
      IntStarts(n, rest, format);
      TokenReads(s, Int(n), stod);
      RestIsDigits(n, rest, n, format, stod);
    }
    if AllDigits(rest) {
      MixedRead(n, rest, format, stod);
      MixedSize(n, rest);
    }
  }

  // ----- what a subscriber has in the end -----

  /**
   * The last message has the length of the segment, or is the number 0 with nothing but zeros behind it, or is a double
   * that makes a token of the same value with what is behind it.
   */
  ghost predicate Whole(vs: seq<Json>, format: Format, stod: Stod)
    requires FitFirst(vs, format)
  {
    var v := vs[|vs| - 1];
    |Print(v, format)| == |Print(vs[0], format)|
    || (v == Int(0) && AllZeros(Region(vs, format)[|Print(v, format)|..]))
    || (v.Double? && IsToken(Region(vs, format), v, stod))
  }

  /** What follows a shorter double in the segment does not continue its token. */
  ghost predicate Ends(vs: seq<Json>, format: Format)
    requires FitFirst(vs, format)
  {
    var v := vs[|vs| - 1];
    v.Double? && |Print(v, format)| < |Print(vs[0], format)| ==> Follows(TreeOf(v, format), Region(vs, format), |Print(v, format)|)
  }

  /** A text other than an integer's with something solid behind it: only a double can make a token of the same value with it. */
  lemma {:induction false} RestReads(s: string, v: Json, format: Format, stod: Stod)
    requires WritesNumbers(format) && Stable(v, format, stod) && !v.Int?
    requires |Print(v, format)| < |s| && s[..|Print(v, format)|] == Print(v, format) && Solid(s)
    ensures Document(s, stod) == Ok(v, |s|) <==> v.Double? && IsToken(s, v, stod)
    ensures Follows(TreeOf(v, format), s, |Print(v, format)|) ==> Document(s, stod).Fail?
  {
    if v.Double? {
      assert s[0] == Print(v, format)[0] && NumberStart(s);
      TokenReads(s, v, stod);
    }
    if Follows(TreeOf(v, format), s, |Print(v, format)|) {
      RestRefused(s, v, format, stod);
    }
  }

  /** The segment reads as its last message exactly when that is whole. */
  lemma {:induction false} ReadsBackIff(vs: seq<Json>, format: Format, stod: Stod)
    requires WritesNumbers(format) && FitFirst(vs, format) && Stable(vs[|vs| - 1], format, stod)
    ensures var v, s := vs[|vs| - 1], Region(vs, format);
      && (Document(s, stod) == Ok(v, |s|) <==> Whole(vs, format, stod))
      && (!v.Int? && Ends(vs, format) && !Whole(vs, format, stod) ==> Document(s, stod).Fail?)
  {
    var v, s := vs[|vs| - 1], Region(vs, format);
    var text := Print(v, format);
    RegionBegins(vs, format);
    RegionSolid(vs, format);
    if |text| == |s| {
      assert s == text;
      RoundTrip(v, format, stod);
    } else if v.Int? {
      assert s == text + s[|text|..];
      IntWithRest(v.n, s[|text|..], format, stod);
    } else {
      RestReads(s, v, format, stod);
    }
  }

  /**
   * After any messages that fit the segment, a subscriber that reads it comes to have the last one exactly when that is
   * whole and the message the subscriber still holds is no longer than the segment; else it keeps what it holds, unless
   * the last one is an integer, or a double that is continued.
   */
  lemma {:induction false} DeliveredIff(vs: seq<Json>, msg: Json, format: Format, stod: Stod)
    requires WritesNumbers(format) && FitFirst(vs, format) && Stable(vs[|vs| - 1], format, stod)
    ensures var v, r := vs[|vs| - 1], Received(Region(vs, format), msg, format, stod);
      && (msg != v ==> (r == v <==> Whole(vs, format, stod) && |Print(msg, format)| <= |Print(vs[0], format)|))
      && (!v.Int? && Ends(vs, format) ==> r == if Whole(vs, format, stod) && |Print(msg, format)| <= |Print(vs[0], format)| then v else msg)
  {
    ReadsBackIff(vs, format, stod);
  }

  /** A shorter integer with digits left behind it is received as a number further from 0, if that is an `int`. */
  lemma {:induction false} NumbersMix(vs: seq<Json>, msg: Json, format: Format, stod: Stod)
    requires FitFirst(vs, format) && vs[|vs| - 1].Int? && |Print(msg, format)| <= |Print(vs[0], format)|
    requires NonemptyDigits(Region(vs, format)[|Print(vs[|vs| - 1], format)|..])
    ensures var v := vs[|vs| - 1];
      var k := Mixed(v.n, Region(vs, format)[|Print(v, format)|..]);
      && Received(Region(vs, format), msg, format, stod) == (if InInt(k) then Int(k) else msg)
      && (v.n > 0 ==> k > v.n) && (v.n < 0 ==> k < v.n) && (v.n == 0 ==> (k == 0 <==> Whole(vs, format, stod)))
  {
    var v, s := vs[|vs| - 1], Region(vs, format);
    RegionBegins(vs, format);
    MixedReceived(s, v.n, msg, format, stod);
    MixedSize(v.n, s[|Print(v, format)|..]);
    if v.n == 0 {
      ZeroWhole(vs, format, stod);
    }
  }

  lemma {:induction false} MixedReceived(s: string, n: Int32, msg: Json, format: Format, stod: Stod)
    requires var k := |Print(Int(n), format)|; k < |s| && s[..k] == Print(Int(n), format) && NonemptyDigits(s[k..])
    requires |Print(msg, format)| <= |s|
    ensures var k := Mixed(n, s[|Print(Int(n), format)|..]);
      Received(s, msg, format, stod) == if InInt(k) then Int(k) else msg
  {
    var k := |Print(Int(n), format)|;
    assert s == Print(Int(n), format) + s[k..];
    MixedRead(n, s[k..], format, stod);
  }

  lemma {:induction false} ZeroWhole(vs: seq<Json>, format: Format, stod: Stod)
    requires FitFirst(vs, format) && vs[|vs| - 1] == Int(0)
    ensures Whole(vs, format, stod) <==> AllZeros(Region(vs, format)[|Print(vs[|vs| - 1], format)|..])
  {
  }

  /** A subscriber starts with null, whose text has four characters, so no shorter first message ever reaches it. */
  lemma {:induction false} TinyFirstMessage(vs: seq<Json>, format: Format, stod: Stod)
    requires FitFirst(vs, format) && |Print(vs[0], format)| < 4
    ensures Received(Region(vs, format), Null, format, stod) == Null
  {
  }
}
