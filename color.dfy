/** frontend/src/utils/color.js: parsing, formatting and adjusting CSS colours. */
module Color {
  import opened Wrappers
  import opened Strings

  /** A parsed colour `{ r, g, b, a }`. */
  datatype Rgba = Rgba(r: int, g: int, b: int, a: real)

  /** The characters JavaScript's `\s` matches. */
  predicate IsJsSpace(c: char) {
    c in {' ', '\t', '\n', '\U{0b}', '\U{0c}', '\r', '\U{a0}', '\U{1680}', '\U{2028}', '\U{2029}', '\U{202f}', '\U{205f}', '\U{3000}', '\U{feff}'}
    || '\U{2000}' <= c <= '\U{200a}'
  }

  predicate AllHex(s: string) {
    forall i :: 0 <= i < |s| ==> IsHexDigit(s[i])
  }

  predicate AllDigits(s: string) {
    forall i :: 0 <= i < |s| ==> IsDigit(s[i])
  }

  /** The named groups of the colour pattern, or no match. */
  datatype ColorMatch =
    | HexMatch(hex: string)
    | RgbMatch(r: string, g: string, b: string, a: Option<string>)
    | NoMatch

  /** The length of the run of decimal digits at the start of `t`. */
  function LeadingDigits(t: string): (n: nat)
    ensures n <= |t| && AllDigits(t[..n]) && (n < |t| ==> !IsDigit(t[n]))
  {
    if t == [] || !IsDigit(t[0]) then 0
    else
      var n := 1 + LeadingDigits(t[1..]);
      assert forall i :: 1 <= i < n ==> t[..n][i] == t[1..][..n - 1][i - 1];
      n
  }

  /** `\s?`: one optional whitespace character. */
  function SkipSpace(t: string): (r: string)
    ensures |r| <= |t|
  {
    if |t| > 0 && IsJsSpace(t[0]) then t[1..] else t
  }

  /** The alpha group: `0|1|0\.[0-9]{0,4}|1\.0{0,4}`. */
  predicate IsAlphaText(a: string) {
    a == "0" || a == "1" ||
    (2 <= |a| <= 6 && a[..2] == "0." && AllDigits(a[2..])) ||
    (2 <= |a| <= 6 && a[..2] == "1." && forall i :: 2 <= i < |a| ==> a[i] == '0')
  }

  /** What follows `rgb(` or `rgba(`: `r,\s?g\s?,b\s?(,a)?)` to the end of the string. */
  function MatchRgbBody(t: string): (m: ColorMatch)
    ensures m.NoMatch? || m.RgbMatch?
    ensures m.RgbMatch? ==> 1 <= |m.r| <= 3 && 1 <= |m.g| <= 3 && 1 <= |m.b| <= 3
    ensures m.RgbMatch? ==> AllDigits(m.r) && AllDigits(m.g) && AllDigits(m.b)
    ensures m.RgbMatch? && m.a.Some? ==> IsAlphaText(m.a.value)
  {
    var n1 := LeadingDigits(t);
    if !(1 <= n1 <= 3) || n1 == |t| || t[n1] != ',' then NoMatch
    else MatchGreen(t[..n1], SkipSpace(t[n1 + 1..]))
  }

  /** After `r,\s?`: the green group, `\s?,`, and the rest. */
  function MatchGreen(r: string, t1: string): (m: ColorMatch)
    ensures m.NoMatch? || (m.RgbMatch? && m.r == r)
    ensures m.RgbMatch? ==> 1 <= |m.g| <= 3 && 1 <= |m.b| <= 3 && AllDigits(m.g) && AllDigits(m.b)
    ensures m.RgbMatch? && m.a.Some? ==> IsAlphaText(m.a.value)
  {
    var n2 := LeadingDigits(t1);
    if !(1 <= n2 <= 3) then NoMatch
    else
      var t2 := SkipSpace(t1[n2..]);
      if |t2| == 0 || t2[0] != ',' then NoMatch
      else MatchBlue(r, t1[..n2], t2[1..])
  }

  /** After the second comma: the blue group, `\s?`, and the alpha tail. */
  function MatchBlue(r: string, g: string, t3: string): (m: ColorMatch)
    ensures m.NoMatch? || (m.RgbMatch? && m.r == r && m.g == g)
    ensures m.RgbMatch? ==> 1 <= |m.b| <= 3 && AllDigits(m.b)
    ensures m.RgbMatch? && m.a.Some? ==> IsAlphaText(m.a.value)
  {
    var n3 := LeadingDigits(t3);
    if !(1 <= n3 <= 3) then NoMatch
    else MatchAlpha(r, g, t3[..n3], SkipSpace(t3[n3..]))
  }

  /** The end of the pattern: `)` alone, or `,a)` with an alpha group. */
  function MatchAlpha(r: string, g: string, b: string, t4: string): (m: ColorMatch)
    ensures m.NoMatch? || (m.RgbMatch? && m.r == r && m.g == g && m.b == b)
    ensures m.RgbMatch? && m.a.Some? ==> IsAlphaText(m.a.value)
  {
    if t4 == ")" then RgbMatch(r, g, b, None)
    else if |t4| >= 2 && t4[0] == ',' && t4[|t4| - 1] == ')' && IsAlphaText(t4[1..|t4| - 1]) then
      RgbMatch(r, g, b, Some(t4[1..|t4| - 1]))
    else NoMatch
  }

  /**
   * `colorString.match(...)` against
   * `^#?(?<hex>[0-9a-fA-F]{3,8})$|^rgba?\((?<r>...),\s?(?<g>...)\s?,(?<b>...)\s?(,(?<a>...))?\)$`.
   */
  function MatchColor(s: string): (m: ColorMatch)
    ensures m.HexMatch? ==> 3 <= |m.hex| <= 8 && AllHex(m.hex)
    ensures m.RgbMatch? ==> AllDigits(m.r) && AllDigits(m.g) && AllDigits(m.b) && (m.a.Some? ==> IsAlphaText(m.a.value))
  {
    if |s| > 0 && s[0] == '#' then
      (if 3 <= |s| - 1 <= 8 && AllHex(s[1..]) then HexMatch(s[1..]) else NoMatch)
    else if 3 <= |s| <= 8 && AllHex(s) then HexMatch(s)
    else if |s| >= 5 && s[..5] == "rgba(" then MatchRgbBody(s[5..])
    else if |s| >= 4 && s[..4] == "rgb(" then MatchRgbBody(s[4..])
    else NoMatch
  }

  /** `hex.split('').map((x) => x.repeat(2)).join('')`. */
  function DoubleDigits(h: string): (r: string)
    ensures |r| == 2 * |h|
    ensures forall i :: 0 <= i < |h| ==> r[2 * i] == h[i] && r[2 * i + 1] == h[i]
  {
    if h == [] then [] else [h[0], h[0]] + DoubleDigits(h[1..])
  }

  lemma DoubleDigitsHex(h: string)
    requires AllHex(h)
    ensures AllHex(DoubleDigits(h))
  {
    var r := DoubleDigits(h);
    forall j | 0 <= j < |r| ensures IsHexDigit(r[j]) {
      var i := j / 2;
      if j == 2 * i { assert r[2 * i] == h[i]; } else { assert r[2 * i + 1] == h[i]; }
    }
  }

  /** The eight hex digits the channels are read from: short forms doubled, `FF` appended to six; None for five or seven. */
  function FullHex(h: string): (r: Option<string>)
    requires 3 <= |h| <= 8 && AllHex(h)
    ensures r.None? <==> |h| == 5 || |h| == 7
    ensures r.Some? ==> |r.value| == 8 && AllHex(r.value)
  {
    if |h| == 5 || |h| == 7 then None
    else
      var parsed := if |h| == 3 || |h| == 4 then DoubleDigits(h) else h;
      DoubleDigitsHex(h);
      assert AllHex(parsed);
      if |parsed| == 6 then
        assert AllHex("FF");
        Some(parsed + "FF")
      else Some(parsed)
  }

  /** `Math.round((ah / 255) * 100) / 100`, exactly: halves cannot occur, since 20 * ah / 51 is never half an integer. */
  function HexAlpha(ah: int): real {
    ((200 * ah + 255) / 510) as real / 100.0
  }

  /** The hex branch of `parse`. */
  function ParseHex(h: string): (r: Option<Rgba>)
    requires 3 <= |h| <= 8 && AllHex(h)
    ensures r.None? <==> |h| == 5 || |h| == 7
  {
    match FullHex(h)
    case None => None
    case Some(f) =>
      assert AllHex(f[0..2]) && AllHex(f[2..4]) && AllHex(f[4..6]) && AllHex(f[6..8]);
      Some(Rgba(HexValue(f[0..2]), HexValue(f[2..4]), HexValue(f[4..6]), HexAlpha(HexValue(f[6..8]))))
  }

  /** `parseFloat` of a matched alpha group. */
  function AlphaValue(a: string): (v: real)
    requires IsAlphaText(a)
    ensures 0.0 <= v <= 1.0
  {
    if a == "0" then 0.0
    else if a == "1" then 1.0
    else if a[..2] == "0." then
      assert forall i :: 0 <= i < |a[2..]| ==> a[2..][i] == a[i + 2];
      var d, p := DecimalValue(a[2..]), Pow10(|a| - 2);
      FractionInUnit(d, p);
      d as real / p as real
    else 1.0
  }

  /** A proper fraction lies in [0, 1]. */
  lemma FractionInUnit(d: nat, p: nat)
    requires d < p
    ensures 0.0 <= d as real / p as real <= 1.0
  {
    var q := d as real / p as real;
    assert q * p as real == d as real;
  }

  /** `parse(colorString)`: None (`null`) when the pattern does not match or the hex has five or seven digits. */
  function Parse(s: string): Option<Rgba> {
    match MatchColor(s)
    case NoMatch => None
    case RgbMatch(r, g, b, a) =>
      Some(Rgba(DecimalValue(r), DecimalValue(g), DecimalValue(b), if a.None? then 1.0 else AlphaValue(a.value)))
    case HexMatch(h) => ParseHex(h)
  }

  /** `[0-9]{1,3}`: a channel group. */
  predicate ChannelText(d: string) {
    1 <= |d| <= 3 && AllDigits(d)
  }

  /** `\s?`: nothing or one whitespace character. */
  predicate OptSpace(sp: string) {
    sp == [] || (|sp| == 1 && IsJsSpace(sp[0]))
  }

  /** A string in the language of the pattern's rgb/rgba body, built from its groups and optional spaces. */
  function RgbBodyText(r: string, g: string, b: string, sp1: string, sp2: string, sp3: string, a: Option<string>): string {
    r + ("," + (sp1 + (g + (sp2 + ("," + (b + (sp3 + AlphaTail(a))))))))
  }

  /** The digit run at the front of `d + rest` is exactly `d` when `rest` does not start with a digit. */
  lemma {:induction false} LeadingDigitsOf(d: string, rest: string)
    requires AllDigits(d) && (rest == [] || !IsDigit(rest[0]))
    ensures LeadingDigits(d + rest) == |d|
  {
    if d == [] {
      assert d + rest == rest;
    } else {
      assert (d + rest)[0] == d[0] && (d + rest)[1..] == d[1..] + rest;
      LeadingDigitsOf(d[1..], rest);
    }
  }

  /** An optional space in front of something that does not start with a space is skipped, and only it. */
  lemma SkipSpaceOf(sp: string, rest: string)
    requires OptSpace(sp) && (rest == [] || !IsJsSpace(rest[0]))
    ensures SkipSpace(sp + rest) == rest
  {
    if sp == [] {
      assert sp + rest == rest;
    } else {
      assert (sp + rest)[0] == sp[0] && (sp + rest)[1..] == rest;
    }
  }

  /** No decimal digit is whitespace. */
  lemma DigitNotSpace(c: char)
    ensures IsDigit(c) ==> !IsJsSpace(c)
  {
  }

  /** The text the alpha stage reads: `)` or `,a)`. */
  function AlphaTail(a: Option<string>): string {
    (if a.Some? then "," + a.value else "") + ")"
  }

  lemma MatchAlphaComplete(r: string, g: string, b: string, a: Option<string>)
    requires a.Some? ==> IsAlphaText(a.value)
    ensures MatchAlpha(r, g, b, AlphaTail(a)) == RgbMatch(r, g, b, a)
  {
    if a.Some? {
      var tail := AlphaTail(a);
      assert |a.value| >= 1;
      assert tail[1..|tail| - 1] == a.value;
    }
  }

  /** An optional space followed by `tail` reads as `tail`, and it does not start with a digit. */
  lemma SpaceThenTail(sp: string, tail: string)
    requires OptSpace(sp) && tail != [] && !IsDigit(tail[0]) && !IsJsSpace(tail[0])
    ensures (sp + tail)[0] != '0' && !IsDigit((sp + tail)[0]) && SkipSpace(sp + tail) == tail
  {
    if sp != [] {
      DigitNotSpace(sp[0]);
      assert (sp + tail)[0] == sp[0];
    } else {
      assert sp + tail == tail;
    }
    SkipSpaceOf(sp, tail);
  }

  /** A channel group followed by something that is not a digit is read as that group. */
  lemma ChannelThen(d: string, rest: string)
    requires ChannelText(d) && rest != [] && !IsDigit(rest[0])
    ensures LeadingDigits(d + rest) == |d| && (d + rest)[..|d|] == d && (d + rest)[|d|..] == rest
  {
    LeadingDigitsOf(d, rest);
  }

  lemma MatchBlueComplete(r: string, g: string, b: string, sp3: string, a: Option<string>)
    requires ChannelText(b) && OptSpace(sp3)
    requires a.Some? ==> IsAlphaText(a.value)
    ensures MatchBlue(r, g, b + (sp3 + AlphaTail(a))) == RgbMatch(r, g, b, a)
  {
    var tail := AlphaTail(a);
    var t3 := b + (sp3 + tail);
    assert SkipSpace(sp3 + tail) == tail && !IsDigit((sp3 + tail)[0]) by {
      assert tail[0] == ',' || tail[0] == ')';
      SpaceThenTail(sp3, tail);
    }
    ChannelThen(b, sp3 + tail);
    assert MatchBlue(r, g, t3) == MatchAlpha(r, g, b, tail);
    MatchAlphaComplete(r, g, b, a);
  }

  lemma MatchGreenComplete(r: string, g: string, b: string, sp2: string, sp3: string, a: Option<string>)
    requires ChannelText(g) && ChannelText(b) && OptSpace(sp2) && OptSpace(sp3)
    requires a.Some? ==> IsAlphaText(a.value)
    ensures MatchGreen(r, g + (sp2 + ("," + (b + (sp3 + AlphaTail(a)))))) == RgbMatch(r, g, b, a)
  {
    var t3 := b + (sp3 + AlphaTail(a));
    var rest2 := "," + t3;
    var t1 := g + (sp2 + rest2);
    assert SkipSpace(sp2 + rest2) == rest2 && !IsDigit((sp2 + rest2)[0]) by {
      SpaceThenTail(sp2, rest2);
    }
    ChannelThen(g, sp2 + rest2);
    assert rest2[0] == ',' && rest2[1..] == t3;
    assert MatchGreen(r, t1) == MatchBlue(r, g, t3);
    MatchBlueComplete(r, g, b, sp3, a);
  }

  /** Every body of the pattern's language matches, with its own groups. */
  lemma MatchRgbBodyComplete(r: string, g: string, b: string, sp1: string, sp2: string, sp3: string, a: Option<string>)
    requires ChannelText(r) && ChannelText(g) && ChannelText(b)
    requires OptSpace(sp1) && OptSpace(sp2) && OptSpace(sp3)
    requires a.Some? ==> IsAlphaText(a.value)
    ensures MatchRgbBody(RgbBodyText(r, g, b, sp1, sp2, sp3, a)) == RgbMatch(r, g, b, a)
  {
    var rest1 := g + (sp2 + ("," + (b + (sp3 + AlphaTail(a)))));
    var rest0 := "," + (sp1 + rest1);
    var t := r + rest0;
    assert SkipSpace(sp1 + rest1) == rest1 by {
      DigitNotSpace(g[0]);
      assert rest1[0] == g[0];
      SkipSpaceOf(sp1, rest1);
    }
    ChannelThen(r, rest0);
    assert rest0[0] == ',' && rest0[1..] == sp1 + rest1;
    assert t[|r|] == ',' && t[|r| + 1..] == sp1 + rest1;
    assert MatchRgbBody(t) == MatchGreen(r, rest1);
    MatchGreenComplete(r, g, b, sp2, sp3, a);
  }

  /** After `rgb(` or `rgba(` and a digit, only the rgb branch of the pattern can apply. */
  lemma MatchColorRgbPrefix(body: string)
    requires body != [] && IsDigit(body[0])
    ensures MatchColor("rgb(" + body) == MatchRgbBody(body)
    ensures MatchColor("rgba(" + body) == MatchRgbBody(body)
  {
    assert !IsHexDigit('r');
    var s := "rgb(" + body;
    assert s[0] == 'r' && s[4..] == body;
    assert s[..5] != "rgba(" by {
      assert s[..5][4] == body[0];
    }
    assert !AllHex(s);
    var s' := "rgba(" + body;
    assert s'[0] == 'r' && s'[..5] == "rgba(" && s'[5..] == body;
    assert !AllHex(s');
  }

  /** `rgb(` or `rgba(` followed by a body of the pattern's language parses to the body's numbers, alpha 1 when absent. */
  lemma ParseRgbComplete(r: string, g: string, b: string, sp1: string, sp2: string, sp3: string, a: Option<string>)
    requires ChannelText(r) && ChannelText(g) && ChannelText(b)
    requires OptSpace(sp1) && OptSpace(sp2) && OptSpace(sp3)
    requires a.Some? ==> IsAlphaText(a.value)
    ensures var c := Some(Rgba(DecimalValue(r), DecimalValue(g), DecimalValue(b), if a.None? then 1.0 else AlphaValue(a.value)));
      && Parse("rgb(" + RgbBodyText(r, g, b, sp1, sp2, sp3, a)) == c
      && Parse("rgba(" + RgbBodyText(r, g, b, sp1, sp2, sp3, a)) == c
  {
    var body := RgbBodyText(r, g, b, sp1, sp2, sp3, a);
    MatchRgbBodyComplete(r, g, b, sp1, sp2, sp3, a);
    assert body[0] == r[0];
    MatchColorRgbPrefix(body);
  }

  /** Three or four digits are read as the doubled six or eight. */
  lemma ShortHexDoubles(h: string)
    requires (|h| == 3 || |h| == 4) && AllHex(h)
    ensures AllHex(DoubleDigits(h)) && ParseHex(h) == ParseHex(DoubleDigits(h))
  {
    DoubleDigitsHex(h);
  }

  /** Six digits get full opacity. */
  lemma SixDigitsOpaque(h: string)
    requires |h| == 6 && AllHex(h)
    ensures ParseHex(h) == Some(Rgba(HexValue(h[0..2]), HexValue(h[2..4]), HexValue(h[4..6]), 1.0))
  {
    var f := h + "FF";
    assert f[0..2] == h[0..2] && f[2..4] == h[2..4] && f[4..6] == h[4..6];
    assert f[6..8] == "FF";
    assert HexValue("FF") == 255 by {
      assert "FF"[..1] == "F";
      assert "F"[..0] == "";
    }
  }

  /** Five or seven digits match the pattern but are rejected. */
  lemma OddHexLengthsRejected(s: string)
    requires MatchColor(s).HexMatch? && (|MatchColor(s).hex| == 5 || |MatchColor(s).hex| == 7)
    ensures Parse(s) == None
  {
  }

  lemma {:induction false} HexValueBound(s: string)
    requires AllHex(s)
    ensures HexValue(s) < Pow16(|s|)
  {
    if s != [] {
      assert AllHex(s[..|s| - 1]);
      HexValueBound(s[..|s| - 1]);
    }
  }

  function Pow16(n: nat): nat {
    if n == 0 then 1 else 16 * Pow16(n - 1)
  }

  /** A colour read from hex has channels in 0..255 and alpha in [0, 1]. */
  lemma HexChannelsInRange(h: string)
    requires 3 <= |h| <= 8 && AllHex(h)
    ensures ParseHex(h).Some? ==> var c := ParseHex(h).value;
      0 <= c.r <= 255 && 0 <= c.g <= 255 && 0 <= c.b <= 255 && 0.0 <= c.a <= 1.0
  {
    match FullHex(h)
    case None =>
    case Some(f) =>
      var r, g, b, a := f[0..2], f[2..4], f[4..6], f[6..8];
      assert AllHex(r) && AllHex(g) && AllHex(b) && AllHex(a);
      PairBound(r);
      PairBound(g);
      PairBound(b);
      PairBound(a);
      HexAlphaRange(HexValue(a));
      assert ParseHex(h) == Some(Rgba(HexValue(r), HexValue(g), HexValue(b), HexAlpha(HexValue(a))));
  }

  /** Two hex digits hold at most 255. */
  lemma PairBound(s: string)
    requires |s| == 2 && AllHex(s)
    ensures HexValue(s) <= 255
  {
    HexValueBound(s);
    assert Pow16(2) == 256;
  }

  /** The rounded alpha of a byte lies in [0, 1]. */
  lemma HexAlphaRange(ah: int)
    requires 0 <= ah <= 255
    ensures 0.0 <= HexAlpha(ah) <= 1.0
  {
    assert 0 <= (200 * ah + 255) / 510 <= 100;
  }

  /** Every colour `parse` returns has alpha in [0, 1]; a hex colour also has its channels in 0..255. */
  lemma ParsedColorInRange(s: string)
    requires Parse(s).Some?
    ensures 0.0 <= Parse(s).value.a <= 1.0
    ensures MatchColor(s).HexMatch? ==> var c := Parse(s).value; 0 <= c.r <= 255 && 0 <= c.g <= 255 && 0 <= c.b <= 255
    ensures MatchColor(s).RgbMatch? ==> var c := Parse(s).value; 0 <= c.r <= 999 && 0 <= c.g <= 999 && 0 <= c.b <= 999
  {
    match MatchColor(s)
    case HexMatch(h) => HexChannelsInRange(h);
    case RgbMatch(r, g, b, a) =>
      DecimalBelowThousand(r);
      DecimalBelowThousand(g);
      DecimalBelowThousand(b);
    case NoMatch =>
  }

  lemma DecimalBelowThousand(d: string)
    requires 1 <= |d| <= 3 && AllDigits(d)
    ensures DecimalValue(d) <= 999
  {
    assert Pow10(1) == 10 && Pow10(2) == 100 && Pow10(3) == 1000;
  }

  /** A JavaScript number: finite, or `NaN` (whose `typeof` is still 'number'). */
  datatype JsNumber = Finite(x: real) | NotANumber

  /** A property of the object given to `format`. */
  datatype JsValue = Undefined | Number(n: JsNumber) | OtherValue

  /** What `format` is given: a colour string, an object, `null`, or anything else. */
  datatype ColorInput = ColorString(s: string) | ColorObject(props: map<string, JsValue>) | NullInput | OtherInput

  /** What `format` throws: `hasOwnProperty.call(null, …)` is a `TypeError`. */
  datatype FormatError = TypeError

  /** The object `format` hands to the formatter or the template. */
  datatype Parsed = Parsed(r: int, g: int, b: int, a: JsNumber)

  /** A parsed colour as that object. */
  function ParsedOf(c: Rgba): Parsed {
    Parsed(c.r, c.g, c.b, Finite(c.a))
  }

  /** `Number.isInteger(v)`. */
  predicate IsIntegerValue(v: JsValue) {
    v.Number? && v.n.Finite? && v.n.x.Floor as real == v.n.x
  }

  /** The object branch of `format`: own `r`, `g`, `b`, `a`, integer channels and a numeric (possibly NaN) alpha. */
  function ObjectColor(props: map<string, JsValue>): (r: Option<Parsed>)
    ensures r.Some? <==> ("r" in props && "g" in props && "b" in props && "a" in props &&
      IsIntegerValue(props["r"]) && IsIntegerValue(props["g"]) && IsIntegerValue(props["b"]) && props["a"].Number?)
    ensures r.Some? ==> (
      && r.value.a == props["a"].n && r.value.r as real == props["r"].n.x
      && r.value.g as real == props["g"].n.x && r.value.b as real == props["b"].n.x)
  {
    if "r" in props && "g" in props && "b" in props && "a" in props &&
      IsIntegerValue(props["r"]) && IsIntegerValue(props["g"]) && IsIntegerValue(props["b"]) && props["a"].Number?
    then Some(Parsed(props["r"].n.x.Floor, props["g"].n.x.Floor, props["b"].n.x.Floor, props["a"].n))
    else None
  }

  /** The object `{ r, g, b, a }`. */
  function AsObject(p: Parsed): map<string, JsValue> {
    map["r" := Number(Finite(p.r as real)), "g" := Number(Finite(p.g as real)), "b" := Number(Finite(p.b as real)), "a" := Number(p.a)]
  }

  /** `${a}`: `show` is JavaScript's number-to-string conversion of a finite number; NaN prints as "NaN". */
  function NumberText(a: JsNumber, show: real -> string): string {
    if a.Finite? then show(a.x) else "NaN"
  }

  /** The template `rgba(${r},${g},${b},${a})`. */
  function DefaultFormat(p: Parsed, show: real -> string): string {
    "rgba(" + IntToDecimal(p.r) + "," + IntToDecimal(p.g) + "," + IntToDecimal(p.b) + "," + NumberText(p.a, show) + ")"
  }

  /**
   * `format(color, formatter)`: `null` (None) when the input is neither a
   * parseable string nor a well-formed object; a `TypeError` for `null`.
   */
  function Format(color: ColorInput, formatter: Option<Parsed -> string>, show: real -> string): (r: Result<Option<string>, FormatError>)
    ensures r.Err? <==> color.NullInput?
    ensures r.Ok? && r.value.Some? <==>
      (color.ColorString? && Parse(color.s).Some?) || (color.ColorObject? && ObjectColor(color.props).Some?)
  {
    if color.NullInput? then Err(TypeError)
    else
      var parsed :=
        match color
        case ColorString(s) => if Parse(s).Some? then Some(ParsedOf(Parse(s).value)) else None
        case ColorObject(props) => ObjectColor(props)
        case _ => None;
      match parsed
      case None => Ok(None)
      case Some(p) => Ok(Some(if formatter.Some? then formatter.value(p) else DefaultFormat(p, show)))
  }

  /** The object of a colour with integer channels always passes `format`'s checks, unchanged, NaN alpha included. */
  lemma FormatObject(p: Parsed, show: real -> string)
    ensures Format(ColorObject(AsObject(p)), None, show) == Ok(Some(DefaultFormat(p, show)))
  {
    assert ObjectColor(AsObject(p)) == Some(p);
  }

  /** An object whose alpha is NaN is formatted with the text "NaN" as its alpha. */
  lemma FormatNaNAlpha(r: int, g: int, b: int, show: real -> string)
    ensures Format(ColorObject(AsObject(Parsed(r, g, b, NotANumber))), None, show)
      == Ok(Some("rgba(" + IntToDecimal(r) + "," + IntToDecimal(g) + "," + IntToDecimal(b) + ",NaN)"))
  {
    var p := Parsed(r, g, b, NotANumber);
    FormatObject(p, show);
    var front := "rgba(" + IntToDecimal(r) + "," + IntToDecimal(g) + "," + IntToDecimal(b);
    assert DefaultFormat(p, show) == front + "," + "NaN" + ")";
    assert front + "," + "NaN" + ")" == front + ",NaN)";
  }

  /** Padding of `toHex`: zeros in front up to two characters. */
  function PadToTwo(s: string): (r: string)
    decreases 2 - |s|
  {
    if |s| >= 2 then s else PadToTwo("0" + s)
  }

  /** `toHex(n)`: `n.toString(16)` padded to two characters. */
  method ToHex(n: int) returns (hex: string)
    ensures hex == PadToTwo(IntToHex(n))
  {
    hex := IntToHex(n);
    while |hex| < 2
      invariant PadToTwo(hex) == PadToTwo(IntToHex(n))
      decreases 2 - |hex|
    {
      hex := "0" + hex;
    }
  }

  /** A channel in 0..255 becomes exactly two hex digits holding its value. */
  lemma PadToTwoOfChannel(n: int)
    requires 0 <= n <= 255
    ensures |PadToTwo(IntToHex(n))| == 2 && AllHex(PadToTwo(IntToHex(n)))
    ensures HexValue(PadToTwo(IntToHex(n))) == n
  {
    NatToHexShort(n);
    HexValueOfNatToHex(n);
    var h := NatToHex(n);
    if n < 16 {
      var p := "0" + h;
      assert PadToTwo(h) == p;
      assert p[..1] == "0" && p[..1][..0] == "";
      assert HexValue(p[..1]) == 0;
      assert h[..0] == [];
    }
  }

  /** `hexFormatter(parsed)`: `#rrggbb`. */
  function HexFormatter(c: Parsed): string {
    "#" + PadToTwo(IntToHex(c.r)) + PadToTwo(IntToHex(c.g)) + PadToTwo(IntToHex(c.b))
  }

  /** `hexFormatter` writes each channel in 0..255 as two hex digits, and parsing reads the colour back, opaque. */
  lemma HexFormatterRoundTrip(c: Parsed)
    requires 0 <= c.r <= 255 && 0 <= c.g <= 255 && 0 <= c.b <= 255
    ensures |HexFormatter(c)| == 7
    ensures Parse(HexFormatter(c)) == Some(Rgba(c.r, c.g, c.b, 1.0))
  {
    PadToTwoOfChannel(c.r);
    PadToTwoOfChannel(c.g);
    PadToTwoOfChannel(c.b);
    var hr, hg, hb := PadToTwo(IntToHex(c.r)), PadToTwo(IntToHex(c.g)), PadToTwo(IntToHex(c.b));
    assert HexFormatter(c) == "#" + (hr + hg + hb);
    ParseThreeChannels(hr, hg, hb);
  }

  /** Three two-digit channels after a '#' parse back to those channels, opaque. */
  lemma ParseThreeChannels(hr: string, hg: string, hb: string)
    requires |hr| == 2 && |hg| == 2 && |hb| == 2 && AllHex(hr) && AllHex(hg) && AllHex(hb)
    ensures Parse("#" + (hr + hg + hb)) == Some(Rgba(HexValue(hr), HexValue(hg), HexValue(hb), 1.0))
  {
    var h := hr + hg + hb;
    assert AllHex(h);
    ParseHashHex(h);
    SixDigitsOpaque(h);
    assert h[0..2] == hr && h[2..4] == hg && h[4..6] == hb;
  }

  const Black: Rgba := Rgba(0, 0, 0, 1.0)
  const White: Rgba := Rgba(255, 255, 255, 1.0)

  /** `contrast(colorString)`: black text on light colours, white on dark ones. */
  function Contrast(s: string, show: real -> string): Result<Option<string>, FormatError> {
    match Parse(s)
    case None => Ok(None)
    case Some(c) =>
      if (c.r * 299 + c.g * 587 + c.b * 114) as real / 1000.0 >= 128.0
      then Format(ColorString("#000"), None, show)
      else Format(ColorString("#fff"), None, show)
  }

  /** A `#` followed by 3 to 8 hex digits takes the hex branch. */
  lemma ParseHashHex(h: string)
    requires 3 <= |h| <= 8 && AllHex(h)
    ensures Parse("#" + h) == ParseHex(h)
  {
    var s := "#" + h;
    assert s[0] == '#' && s[1..] == h;
  }

  /** `#ccc` is the grey with every channel `17 * c` and full opacity. */
  lemma ParseGrey(c: char)
    requires IsHexDigit(c)
    ensures var v := HexDigitValue(c).value; Parse(['#', c, c, c]) == Some(Rgba(17 * v, 17 * v, 17 * v, 1.0))
  {
    var h := [c, c, c];
    assert AllHex(h);
    assert ['#', c, c, c] == "#" + h;
    ParseHashHex(h);
    HexGrey(c);
  }

  lemma HexGrey(c: char)
    requires IsHexDigit(c)
    ensures var v := HexDigitValue(c).value; ParseHex([c, c, c]) == Some(Rgba(17 * v, 17 * v, 17 * v, 1.0))
  {
    var h := [c, c, c];
    var d := [c, c, c, c, c, c];
    var p := [c, c];
    assert AllHex(h) && AllHex(d);
    assert ParseHex(h) == ParseHex(d) by {
      ShortHexDoubles(h);
      DoubleOfTriple(c);
    }
    assert ParseHex(d) == Some(Rgba(HexValue(p), HexValue(p), HexValue(p), 1.0)) by {
      SixDigitsOpaque(d);
      assert d[0..2] == p && d[2..4] == p && d[4..6] == p;
    }
    HexValuePair(c);
  }

  lemma DoubleOfTriple(c: char)
    ensures DoubleDigits([c, c, c]) == [c, c, c, c, c, c]
  {
    assert [c, c, c][1..] == [c, c] && [c, c][1..] == [c] && [c][1..] == [];
    assert DoubleDigits([c]) == [c, c];
    assert DoubleDigits([c, c]) == [c, c, c, c];
  }

  lemma HexValuePair(c: char)
    requires IsHexDigit(c)
    ensures HexValue([c, c]) == 17 * HexDigitValue(c).value
  {
    assert [c][..0] == [];
    assert HexValue([c]) == HexDigitValue(c).value;
    assert [c, c][..1] == [c];
    assert HexValue([c, c]) == 16 * HexValue([c]) + HexDigitValue(c).value;
  }

  lemma ParseBlack()
    ensures Parse("#000") == Some(Black)
  {
    ParseGrey('0');
  }

  lemma ParseWhite()
    ensures Parse("#fff") == Some(White)
  {
    ParseGrey('f');
  }

  /** The black and white outputs differ. */
  lemma BlackIsNotWhite(show: real -> string)
    ensures DefaultFormat(ParsedOf(Black), show) != DefaultFormat(ParsedOf(White), show)
  {
    var b, w := DefaultFormat(ParsedOf(Black), show), DefaultFormat(ParsedOf(White), show);
    assert b[5] == '0' && w[5] == '2';
  }

  /** `contrast` gives black exactly when the YIQ brightness `(299r + 587g + 114b) / 1000` is at least 128, and white otherwise. */
  lemma ContrastBlackIff(s: string, show: real -> string)
    ensures Contrast(s, show).Ok?
    ensures Contrast(s, show) == Ok(None) <==> Parse(s).None?
    ensures Parse(s).Some? ==> var c := Parse(s).value;
      (Contrast(s, show) == Ok(Some(DefaultFormat(ParsedOf(Black), show))) <==> 299 * c.r + 587 * c.g + 114 * c.b >= 128000)
    ensures Parse(s).Some? ==> var c := Parse(s).value;
      (Contrast(s, show) == Ok(Some(DefaultFormat(ParsedOf(White), show))) <==> 299 * c.r + 587 * c.g + 114 * c.b < 128000)
  {
    if Parse(s).Some? {
      ContrastOfParsed(s, Parse(s).value, show);
      BlackIsNotWhite(show);
    }
  }

  lemma ContrastOfParsed(s: string, c: Rgba, show: real -> string)
    requires Parse(s) == Some(c)
    ensures Contrast(s, show) == Ok(Some(DefaultFormat(ParsedOf(if 299 * c.r + 587 * c.g + 114 * c.b >= 128000 then Black else White), show)))
  {
    FormatBlack(show);
    FormatWhite(show);
    assert ((c.r * 299 + c.g * 587 + c.b * 114) as real / 1000.0 >= 128.0) == (299 * c.r + 587 * c.g + 114 * c.b >= 128000);
  }

  lemma FormatBlack(show: real -> string)
    ensures Format(ColorString("#000"), None, show) == Ok(Some(DefaultFormat(ParsedOf(Black), show)))
  {
    ParseBlack();
  }

  lemma FormatWhite(show: real -> string)
    ensures Format(ColorString("#fff"), None, show) == Ok(Some(DefaultFormat(ParsedOf(White), show)))
  {
    ParseWhite();
  }

  /** The scaler of `scale`: shift by `percent * 255 / 100`, clamp to [0, 255], round half up. */
  function Scaler(origin: int, percent: real): (v: int)
    ensures 0 <= v <= 255
    ensures var scaled := origin as real + percent * 255.0 / 100.0;
      (scaled > 255.0 ==> v == 255) && (scaled < 0.0 ==> v == 0) &&
      (0.0 <= scaled <= 255.0 ==> -0.5 < v as real - scaled <= 0.5)
  {
    var scaled := origin as real + percent * 255.0 / 100.0;
    if scaled > 255.0 then 255
    else if scaled < 0.0 then 0
    else (scaled + 0.5).Floor
  }

  /** The colour `scale` formats: every channel scaled and clamped, alpha unchanged. */
  function ScaledColor(c: Rgba, percent: real): (r: Rgba)
    ensures 0 <= r.r <= 255 && 0 <= r.g <= 255 && 0 <= r.b <= 255 && r.a == c.a
  {
    Rgba(Scaler(c.r, percent), Scaler(c.g, percent), Scaler(c.b, percent), c.a)
  }

  /** `scale(colorString, scalePercent)`; the default percentage of 100 is the caller's to pass. */
  function Scale(s: string, percent: real, show: real -> string): Result<Option<string>, FormatError> {
    match Parse(s)
    case None => Ok(None)
    case Some(c) => Format(ColorObject(AsObject(ParsedOf(ScaledColor(c, percent)))), None, show)
  }

  /** `scale` never throws, fails only on an unparseable colour, and otherwise writes the clamped channels. */
  lemma ScaleClamps(s: string, percent: real, show: real -> string)
    ensures Scale(s, percent, show).Ok?
    ensures Scale(s, percent, show).value.Some? <==> Parse(s).Some?
    ensures Parse(s).Some? ==>
      Scale(s, percent, show) == Ok(Some(DefaultFormat(ParsedOf(ScaledColor(Parse(s).value, percent)), show)))
  {
    if Parse(s).Some? {
      FormatObject(ParsedOf(ScaledColor(Parse(s).value, percent)), show);
    }
  }

  /** `alpha < 0 || alpha > 1`: false for NaN, which both comparisons reject. */
  predicate OutOfUnit(alpha: JsNumber) {
    alpha.Finite? && (alpha.x < 0.0 || alpha.x > 1.0)
  }

  /** `transparentize(colorString, alpha)`; the default alpha of 1 is the caller's to pass. */
  function Transparentize(s: string, alpha: JsNumber, show: real -> string): Result<Option<string>, FormatError> {
    match Parse(s)
    case None => Ok(None)
    case Some(c) =>
      if OutOfUnit(alpha) then Ok(None)
      else Format(ColorObject(AsObject(ParsedOf(c).(a := alpha))), None, show)
  }

  /**
   * `transparentize` never throws; it rejects an unparseable colour and a
   * finite alpha outside [0, 1], and otherwise only replaces the alpha, NaN
   * included.
   */
  lemma TransparentizeRange(s: string, alpha: JsNumber, show: real -> string)
    ensures Transparentize(s, alpha, show).Ok?
    ensures Transparentize(s, alpha, show).value.None? <==> Parse(s).None? || OutOfUnit(alpha)
    ensures !OutOfUnit(alpha) && Parse(s).Some? ==>
      Transparentize(s, alpha, show) == Ok(Some(DefaultFormat(ParsedOf(Parse(s).value).(a := alpha), show)))
  {
    if !OutOfUnit(alpha) && Parse(s).Some? {
      FormatObject(ParsedOf(Parse(s).value).(a := alpha), show);
    }
  }

  /** A NaN alpha passes the range test of `transparentize`. */
  lemma TransparentizeNaN(s: string, show: real -> string)
    requires Parse(s).Some?
    ensures var c := Parse(s).value;
      Transparentize(s, NotANumber, show)
        == Ok(Some("rgba(" + IntToDecimal(c.r) + "," + IntToDecimal(c.g) + "," + IntToDecimal(c.b) + ",NaN)"))
  {
    var c := Parse(s).value;
    FormatNaNAlpha(c.r, c.g, c.b, show);
    assert ParsedOf(c).(a := NotANumber) == Parsed(c.r, c.g, c.b, NotANumber);
  }
}
