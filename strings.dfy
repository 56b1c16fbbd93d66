/** Character classes, splitting, joining and number formatting shared by the Python and JavaScript code. */
module Strings {

  /** Python's `str.isspace()` for one character (the whitespace `str.strip()` removes). */
  predicate IsPySpace(c: char) {
    c == ' ' || ('\t' <= c <= '\r') || ('\U{1c}' <= c <= '\U{1f}') || c == '\U{85}' || c == '\U{a0}'
    || c == '\U{1680}' || ('\U{2000}' <= c <= '\U{200a}') || c == '\U{2028}' || c == '\U{2029}'
    || c == '\U{202f}' || c == '\U{205f}' || c == '\U{3000}'
  }

  /** `s.strip() == ""` in Python: every character is whitespace. */
  predicate IsBlank(s: string) {
    forall i :: 0 <= i < |s| ==> IsPySpace(s[i])
  }

  /** Lower-cases the ASCII letters of `s` and leaves every other character alone. */
  function AsciiLower(s: string): (r: string)
    ensures |r| == |s|
    ensures forall i :: 0 <= i < |s| ==> r[i] == (if 'A' <= s[i] <= 'Z' then (s[i] as int + 32) as char else s[i])
  {
    if s == [] then [] else [if 'A' <= s[0] <= 'Z' then (s[0] as int + 32) as char else s[0]] + AsciiLower(s[1..])
  }

  /** Lower-casing twice is lower-casing once. */
  lemma AsciiLowerIdempotent(s: string)
    ensures AsciiLower(AsciiLower(s)) == AsciiLower(s)
  {
  }

  /** `sub in s` for Python strings, `s.includes(sub)` for JavaScript ones. */
  predicate Contains(s: string, sub: string) {
    |sub| <= |s| && (s[..|sub|] == sub || Contains(s[1..], sub))
  }

  /** `s.split(d)` in JavaScript (and Python) for a one-character separator. */
  function Split(s: string, d: char): (r: seq<string>)
    ensures |r| >= 1
    ensures forall k :: 0 <= k < |r| ==> d !in r[k]
  {
    if s == [] then [""]
    else if s[0] == d then [""] + Split(s[1..], d)
    else
      var t := Split(s[1..], d);
      [[s[0]] + t[0]] + t[1..]
  }

  /** `parts.join(d)`: the parts with `d` between neighbours; the empty list joins to "". */
  function Join(parts: seq<string>, d: char): string {
    if |parts| == 0 then ""
    else if |parts| == 1 then parts[0]
    else parts[0] + [d] + Join(parts[1..], d)
  }

  /** Joining the pieces of a split gives the string back. */
  lemma {:induction false} JoinSplit(s: string, d: char)
    ensures Join(Split(s, d), d) == s
  {
    if s == [] {
    } else if s[0] == d {
      JoinSplit(s[1..], d);
      var t := Split(s[1..], d);
      assert Split(s, d) == [""] + t;
      assert Join([""] + t, d) == "" + [d] + Join(t, d);
    } else {
      JoinSplit(s[1..], d);
      var t := Split(s[1..], d);
      if |t| == 1 {
        assert Join(Split(s, d), d) == [s[0]] + t[0];
      } else {
        assert Join(t, d) == t[0] + [d] + Join(t[1..], d);
        assert Split(s, d) == [[s[0]] + t[0]] + t[1..];
        assert Join([[s[0]] + t[0]] + t[1..], d) == ([s[0]] + t[0]) + [d] + Join(t[1..], d);
      }
    }
  }

  /** Joining one more piece adds the delimiter and the piece. */
  lemma {:induction false} JoinSnoc(parts: seq<string>, x: string, d: char)
    requires parts != []
    ensures Join(parts + [x], d) == Join(parts, d) + [d] + x
  {
    if |parts| == 1 {
      assert parts + [x] == [parts[0], x];
      assert Join([parts[0], x], d) == parts[0] + [d] + Join([x], d);
    } else {
      assert (parts + [x])[0] == parts[0] && (parts + [x])[1..] == parts[1..] + [x];
      JoinSnoc(parts[1..], x, d);
    }
  }

  /** `key=value`. */
  function PairText(p: (string, string)): string {
    p.0 + "=" + p.1
  }

  /** The texts of the pairs, in order. */
  function PairTexts(ps: seq<(string, string)>): (r: seq<string>)
    ensures |r| == |ps| && forall i :: 0 <= i < |ps| ==> r[i] == PairText(ps[i])
  {
    seq(|ps|, i requires 0 <= i < |ps| => PairText(ps[i]))
  }

  /** Splitting a string that starts with a separator-free piece. */
  lemma {:induction false} SplitPrefix(p: string, t: string, d: char)
    requires d !in p
    ensures Split(p + t, d) == [p + Split(t, d)[0]] + Split(t, d)[1..]
  {
    var st := Split(t, d);
    if p == [] {
      assert p + t == t;
      assert p + st[0] == st[0];
      assert st == [st[0]] + st[1..];
    } else {
      SplitPrefix(p[1..], t, d);
      assert (p + t)[1..] == p[1..] + t;
      assert [p[0]] + (p[1..] + st[0]) == p + st[0];
    }
  }

  /** Splitting a join of separator-free parts gives the parts back. */
  lemma {:induction false} SplitJoin(parts: seq<string>, d: char)
    requires |parts| >= 1
    requires forall k :: 0 <= k < |parts| ==> d !in parts[k]
    ensures Split(Join(parts, d), d) == parts
  {
    if |parts| == 1 {
      SplitPrefix(parts[0], "", d);
      assert parts[0] + "" == parts[0];
    } else {
      var rest := Join(parts[1..], d);
      assert Join(parts, d) == parts[0] + ([d] + rest);
      SplitJoin(parts[1..], d);
      SplitPrefix(parts[0], [d] + rest, d);
      SplitAtSeparator(rest, d);
      assert parts[0] + "" == parts[0];
      assert parts == [parts[0]] + parts[1..];
    }
  }

  /** A leading separator splits off an empty first part. */
  lemma SplitAtSeparator(rest: string, d: char)
    ensures Split([d] + rest, d) == [""] + Split(rest, d)
  {
    assert ([d] + rest)[1..] == rest;
  }

  /** The decimal digit character of `v`. */
  function DigitChar(v: int): char
    requires 0 <= v < 10
  {
    ('0' as int + v) as char
  }

  /** Python's `str(n)` / JavaScript's `String(n)` for an integer. */
  function IntToDecimal(n: int): (r: string)
    ensures |r| >= 1
  {
    if n < 0 then "-" + NatToDecimal(-n) else NatToDecimal(n)
  }

  /** The base-10 digits of `n`, most significant first, without leading zeros. */
  function NatToDecimal(n: nat): (r: string)
    ensures |r| >= 1
    ensures forall i :: 0 <= i < |r| ==> '0' <= r[i] <= '9'
  {
    if n < 10 then [DigitChar(n)] else NatToDecimal(n / 10) + [DigitChar(n % 10)]
  }

  predicate IsDigit(c: char) {
    '0' <= c <= '9'
  }

  /** `parseInt(s, 10)` / `int(s)` of a string of decimal digits. */
  function DecimalValue(s: string): (v: nat)
    requires forall i :: 0 <= i < |s| ==> IsDigit(s[i])
    ensures v < Pow10(|s|)
  {
    if s == [] then 0
    else
      assert IsDigit(s[|s| - 1]);
      10 * DecimalValue(s[..|s| - 1]) + (s[|s| - 1] as int - '0' as int)
  }

  function Pow10(n: nat): (p: nat)
    ensures p >= 1
  {
    if n == 0 then 1 else 10 * Pow10(n - 1)
  }

  /** The value of a hexadecimal digit, as `parseInt(c, 16)` reads it. */
  function HexDigitValue(c: char): (v: Option<int>)
    ensures v.Some? ==> 0 <= v.value < 16
  {
    if '0' <= c <= '9' then Some(c as int - '0' as int)
    else if 'a' <= c <= 'f' then Some(c as int - 'a' as int + 10)
    else if 'A' <= c <= 'F' then Some(c as int - 'A' as int + 10)
    else None
  }

  predicate IsHexDigit(c: char) {
    HexDigitValue(c).Some?
  }

  /** `n.toString(16)` digit for a value below 16 (JavaScript writes lower-case letters). */
  function HexChar(v: int): (c: char)
    requires 0 <= v < 16
    ensures HexDigitValue(c) == Some(v)
  {
    if v < 10 then ('0' as int + v) as char else ('a' as int + v - 10) as char
  }

  /** `n.toString(16)` in JavaScript for a non-negative integer. */
  function NatToHex(n: nat): (r: string)
    ensures |r| >= 1
    ensures forall i :: 0 <= i < |r| ==> IsHexDigit(r[i])
  {
    if n < 16 then [HexChar(n)] else NatToHex(n / 16) + [HexChar(n % 16)]
  }

  /** `n.toString(16)` in JavaScript for any integer: a minus sign precedes the digits of a negative. */
  function IntToHex(n: int): (r: string)
    ensures |r| >= 1
  {
    if n < 0 then "-" + NatToHex(-n) else NatToHex(n)
  }

  /** The value of a string of hexadecimal digits, most significant first. */
  function HexValue(s: string): (v: nat)
    requires forall i :: 0 <= i < |s| ==> IsHexDigit(s[i])
  {
    if s == [] then 0
    else
      assert IsHexDigit(s[|s| - 1]);
      16 * HexValue(s[..|s| - 1]) + HexDigitValue(s[|s| - 1]).value
  }

  /** Reading back the hexadecimal digits of `n` gives `n`. */
  lemma {:induction false} HexValueOfNatToHex(n: nat)
    ensures HexValue(NatToHex(n)) == n
  {
    if n >= 16 {
      HexValueOfNatToHex(n / 16);
      var s := NatToHex(n / 16) + [HexChar(n % 16)];
      assert s[..|s| - 1] == NatToHex(n / 16);
    }
  }

  /** A value below 256 has one or two hexadecimal digits. */
  lemma NatToHexShort(n: nat)
    requires n < 256
    ensures |NatToHex(n)| == if n < 16 then 1 else 2
  {
    if n >= 16 {
      assert NatToHex(n / 16) == [HexChar(n / 16)];
    }
  }

  /** Lexicographic order of strings by character code, as JavaScript's default sort compares strings. */
  predicate LexLe(a: string, b: string) {
    if |a| == 0 then true
    else if |b| == 0 then false
    else a[0] < b[0] || (a[0] == b[0] && LexLe(a[1..], b[1..]))
  }

  lemma {:induction false} LexLeReflexive(a: string)
    ensures LexLe(a, a)
  {
    if |a| > 0 {
      LexLeReflexive(a[1..]);
    }
  }

  lemma {:induction false} LexLeTotal(a: string, b: string)
    ensures LexLe(a, b) || LexLe(b, a)
  {
    if |a| > 0 && |b| > 0 && a[0] == b[0] {
      LexLeTotal(a[1..], b[1..]);
    }
  }

  lemma {:induction false} LexLeAntisymmetric(a: string, b: string)
    requires LexLe(a, b) && LexLe(b, a)
    ensures a == b
  {
    if |a| > 0 && |b| > 0 {
      LexLeAntisymmetric(a[1..], b[1..]);
      assert a == [a[0]] + a[1..] && b == [b[0]] + b[1..];
    }
  }

  lemma {:induction false} LexLeTransitive(a: string, b: string, c: string)
    requires LexLe(a, b) && LexLe(b, c)
    ensures LexLe(a, c)
  {
    if |a| > 0 && |b| > 0 && |c| > 0 && a[0] == b[0] && b[0] == c[0] {
      LexLeTransitive(a[1..], b[1..], c[1..]);
    }
  }

  import opened Wrappers
}
