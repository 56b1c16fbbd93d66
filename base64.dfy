/**
 * Base64 with the standard alphabet and padding of section 4 of RFC 4648 (Python's `base64.b64encode`,
 * JavaScript's `btoa`), and the WHATWG "forgiving-base64 decode" algorithm that `atob` runs.
 */
module Base64 {
  import opened Wrappers

  type byte = x: int | 0 <= x < 256

  /** The value RFC 4648 assigns to an alphabet character, or None for any other character. */
  function DecodeChar(c: char): (v: Option<int>)
    ensures v.Some? ==> 0 <= v.value < 64
  {
    if 'A' <= c <= 'Z' then Some(c as int - 'A' as int)
    else if 'a' <= c <= 'z' then Some(c as int - 'a' as int + 26)
    else if '0' <= c <= '9' then Some(c as int - '0' as int + 52)
    else if c == '+' then Some(62)
    else if c == '/' then Some(63)
    else None
  }

  predicate InAlphabet(c: char) {
    DecodeChar(c).Some?
  }

  /** The alphabet character of a 6-bit value. */
  function EncodeChar(v: int): (c: char)
    requires 0 <= v < 64
    ensures DecodeChar(c) == Some(v)
  {
    if v < 26 then ('A' as int + v) as char
    else if v < 52 then ('a' as int + v - 26) as char
    else if v < 62 then ('0' as int + v - 52) as char
    else if v == 62 then '+'
    else '/'
  }

  /** The four characters of a whole group of three bytes. */
  function EncodeGroup(b0: byte, b1: byte, b2: byte): (r: string)
    ensures |r| == 4 && forall i :: 0 <= i < 4 ==> InAlphabet(r[i])
  {
    [EncodeChar(b0 / 4), EncodeChar((b0 % 4) * 16 + b1 / 16),
     EncodeChar((b1 % 16) * 4 + b2 / 64), EncodeChar(b2 % 64)]
  }

  /** The characters of a trailing single byte (two) or pair (three); the missing low bits are zero. */
  function EncodeTail(b: seq<byte>): (r: string)
    requires 1 <= |b| <= 2
    ensures |r| == |b| + 1 && forall i :: 0 <= i < |r| ==> InAlphabet(r[i])
  {
    if |b| == 1 then [EncodeChar(b[0] / 4), EncodeChar((b[0] % 4) * 16)]
    else [EncodeChar(b[0] / 4), EncodeChar((b[0] % 4) * 16 + b[1] / 16), EncodeChar((b[1] % 16) * 4)]
  }

  /** The characters for `b` before padding: one group of four per three bytes, then the tail. */
  function EncodeRaw(b: seq<byte>): (r: string)
    ensures forall i :: 0 <= i < |r| ==> InAlphabet(r[i])
  {
    if |b| == 0 then ""
    else if |b| < 3 then EncodeTail(b)
    else EncodeGroup(b[0], b[1], b[2]) + EncodeRaw(b[3..])
  }

  /** Four characters per whole group of three bytes, then two or three for a tail of one or two. */
  lemma {:induction false} EncodeRawSize(b: seq<byte>)
    ensures |EncodeRaw(b)| == 4 * (|b| / 3) + (if |b| % 3 == 0 then 0 else |b| % 3 + 1)
  {
    if |b| >= 3 {
      EncodeRawSize(b[3..]);
    }
  }

  /** The `=` characters that complete the last group of four. */
  function Padding(n: nat): string {
    if n % 3 == 1 then "==" else if n % 3 == 2 then "=" else ""
  }

  /** Standard base64 with padding. */
  function Encode(b: seq<byte>): string {
    EncodeRaw(b) + Padding(|b|)
  }

  /** The padded text has four characters for every started group of three bytes. */
  lemma EncodeLength(b: seq<byte>)
    ensures |Encode(b)| == 4 * ((|b| + 2) / 3)
  {
    EncodeRawSize(b);
    PaddedGroups(|b|);
  }

  lemma PaddedGroups(n: nat)
    ensures 4 * (n / 3) + (if n % 3 == 0 then 0 else n % 3 + 1) + |Padding(n)| == 4 * ((n + 2) / 3)
  {
    var q, m := n / 3, n % 3;
    assert n == 3 * q + m;
    assert (n + 2) / 3 == if m == 0 then q else q + 1;
  }

  /** The ASCII whitespace WHATWG's forgiving decoder skips. */
  predicate IsAsciiWhitespace(c: char) {
    c == '\t' || c == '\n' || c == '\U{c}' || c == '\r' || c == ' '
  }

  function RemoveWhitespace(s: string): (r: string)
    ensures forall i :: 0 <= i < |r| ==> !IsAsciiWhitespace(r[i])
  {
    if s == [] then []
    else (if IsAsciiWhitespace(s[0]) then "" else [s[0]]) + RemoveWhitespace(s[1..])
  }

  /** When the length is a multiple of four, one or two trailing `=` are dropped. */
  function StripPadding(t: string): string {
    if |t| % 4 == 0 && |t| >= 2 && t[|t| - 2..] == "==" then t[..|t| - 2]
    else if |t| % 4 == 0 && |t| >= 1 && t[|t| - 1] == '=' then t[..|t| - 1]
    else t
  }

  predicate AllInAlphabet(u: string) {
    forall i :: 0 <= i < |u| ==> InAlphabet(u[i])
  }

  /** The value of an alphabet character. */
  function Sextet(c: char): (v: int)
    requires InAlphabet(c)
    ensures 0 <= v < 64
  {
    DecodeChar(c).value
  }

  /** The three bytes of a group of four alphabet characters. */
  function DecodeGroup(u: string): (r: seq<byte>)
    requires |u| == 4 && AllInAlphabet(u)
    ensures |r| == 3
  {
    [Sextet(u[0]) * 4 + Sextet(u[1]) / 16, (Sextet(u[1]) % 16) * 16 + Sextet(u[2]) / 4,
     (Sextet(u[2]) % 4) * 64 + Sextet(u[3])]
  }

  /** The bytes of a final partial group of two or three characters; leftover low bits are dropped. */
  function DecodeTail(u: string): (r: seq<byte>)
    requires 2 <= |u| <= 3 && AllInAlphabet(u)
    ensures |r| == |u| - 1
  {
    if |u| == 2 then [Sextet(u[0]) * 4 + Sextet(u[1]) / 16]
    else [Sextet(u[0]) * 4 + Sextet(u[1]) / 16, (Sextet(u[1]) % 16) * 16 + Sextet(u[2]) / 4]
  }

  /** The bytes of unpadded alphabet characters, group by group. */
  function DecodeChars(u: string): (r: seq<byte>)
    requires AllInAlphabet(u)
    requires |u| % 4 != 1
    decreases |u|
  {
    if |u| == 0 then []
    else if |u| < 4 then DecodeTail(u)
    else DecodeGroup(u[..4]) + DecodeChars(u[4..])
  }

  /** WHATWG forgiving-base64 decode: None where the algorithm returns failure. */
  function Decode(s: string): Option<seq<byte>> {
    var u := StripPadding(RemoveWhitespace(s));
    if |u| % 4 == 1 || !AllInAlphabet(u) then None else Some(DecodeChars(u))
  }

  lemma {:induction false} RemoveWhitespaceNoop(s: string)
    requires forall i :: 0 <= i < |s| ==> !IsAsciiWhitespace(s[i])
    ensures RemoveWhitespace(s) == s
  {
    if s != [] {
      RemoveWhitespaceNoop(s[1..]);
      assert s == [s[0]] + s[1..];
    }
  }

  /** Splitting a byte pair at the 6-bit boundary and joining again. */
  lemma SextetArithmetic(b0: byte, b1: byte, b2: byte)
    ensures ((b0 % 4) * 16 + b1 / 16) / 16 == b0 % 4 && ((b0 % 4) * 16 + b1 / 16) % 16 == b1 / 16
    ensures ((b1 % 16) * 4 + b2 / 64) / 4 == b1 % 16 && ((b1 % 16) * 4 + b2 / 64) % 4 == b2 / 64
    ensures (b0 / 4) * 4 + b0 % 4 == b0 && (b1 / 16) * 16 + b1 % 16 == b1 && (b2 / 64) * 64 + b2 % 64 == b2
  {
  }

  lemma GroupRoundTrip(b0: byte, b1: byte, b2: byte)
    ensures DecodeGroup(EncodeGroup(b0, b1, b2)) == [b0, b1, b2]
  {
    var u := EncodeGroup(b0, b1, b2);
    SextetArithmetic(b0, b1, b2);
    assert Sextet(u[0]) == b0 / 4;
    assert Sextet(u[1]) == (b0 % 4) * 16 + b1 / 16;
    assert Sextet(u[2]) == (b1 % 16) * 4 + b2 / 64;
    assert Sextet(u[3]) == b2 % 64;
  }

  lemma TailRoundTrip(b: seq<byte>)
    requires 1 <= |b| <= 2
    ensures DecodeTail(EncodeTail(b)) == b
  {
    var u := EncodeTail(b);
    if |b| == 1 {
      SextetArithmetic(b[0], 0, 0);
      assert Sextet(u[0]) == b[0] / 4 && Sextet(u[1]) == (b[0] % 4) * 16;
    } else {
      SextetArithmetic(b[0], b[1], 0);
      assert Sextet(u[0]) == b[0] / 4 && Sextet(u[1]) == (b[0] % 4) * 16 + b[1] / 16;
      assert Sextet(u[2]) == (b[1] % 16) * 4;
    }
  }

  lemma EncodeRawLength(b: seq<byte>)
    ensures |EncodeRaw(b)| % 4 != 1
  {
    EncodeRawMod(b);
  }

  /** The raw text ends with a partial group of two or three characters exactly when a tail of one or two bytes remains. */
  lemma {:induction false} EncodeRawMod(b: seq<byte>)
    ensures |EncodeRaw(b)| % 4 == if |b| % 3 == 0 then 0 else |b| % 3 + 1
  {
    if |b| >= 3 {
      EncodeRawMod(b[3..]);
      assert |EncodeRaw(b)| == 4 + |EncodeRaw(b[3..])|;
      ShiftMod4(|EncodeRaw(b[3..])|);
      ShiftMod3(|b[3..]|);
    }
  }

  lemma ShiftMod4(m: nat)
    ensures (m + 4) % 4 == m % 4
  {
  }

  lemma ShiftMod3(m: nat)
    ensures (m + 3) % 3 == m % 3
  {
  }

  lemma {:induction false} DecodeCharsEncodeRaw(b: seq<byte>)
    ensures |EncodeRaw(b)| % 4 != 1
    ensures DecodeChars(EncodeRaw(b)) == b
  {
    EncodeRawLength(b);
    if |b| >= 3 {
      DecodeCharsEncodeRaw(b[3..]);
      var g, rest := EncodeGroup(b[0], b[1], b[2]), EncodeRaw(b[3..]);
      DecodeCharsCons(g, rest);
      GroupRoundTrip(b[0], b[1], b[2]);
      assert b == [b[0], b[1], b[2]] + b[3..];
    } else if |b| > 0 {
      TailRoundTrip(b);
    }
  }

  /** A leading group of four decodes on its own. */
  lemma DecodeCharsCons(g: string, rest: string)
    requires |g| == 4 && AllInAlphabet(g) && AllInAlphabet(rest) && |rest| % 4 != 1
    ensures AllInAlphabet(g + rest) && |g + rest| % 4 != 1
    ensures DecodeChars(g + rest) == DecodeGroup(g) + DecodeChars(rest)
  {
    var u := g + rest;
    assert u[..4] == g && u[4..] == rest;
    ShiftMod4(|rest|);
  }

  /** Two '=' after a raw text of length 2 mod 4 are exactly what is stripped. */
  lemma StripTwo(raw: string)
    requires |raw| % 4 == 2
    ensures StripPadding(raw + "==") == raw
  {
    var t := raw + "==";
    assert t[|t| - 2..] == "==";
    assert t[..|t| - 2] == raw;
  }

  /** One '=' after a raw text of length 3 mod 4 is exactly what is stripped. */
  lemma StripOne(raw: string)
    requires |raw| % 4 == 3 && AllInAlphabet(raw)
    ensures StripPadding(raw + "=") == raw
  {
    var t := raw + "=";
    assert t[|t| - 2] == raw[|raw| - 1];
    assert t[|t| - 2..] != "==" by { assert t[|t| - 2..][0] == t[|t| - 2]; }
    assert t[..|t| - 1] == raw;
  }

  /** A whole number of unpadded groups is left alone. */
  lemma StripNone(raw: string)
    requires |raw| % 4 == 0 && AllInAlphabet(raw)
    ensures StripPadding(raw) == raw
  {
    if |raw| >= 2 {
      assert raw[|raw| - 2..][1] == raw[|raw| - 1];
    }
  }

  lemma StripPaddingOfEncode(b: seq<byte>)
    ensures StripPadding(Encode(b)) == EncodeRaw(b)
  {
    var raw := EncodeRaw(b);
    EncodeRawMod(b);
    if |b| % 3 == 1 {
      StripTwo(raw);
    } else if |b| % 3 == 2 {
      StripOne(raw);
    } else {
      StripNone(raw);
    }
  }

  /** Decoding what the encoder produced gives the bytes back. */
  lemma DecodeEncode(b: seq<byte>)
    ensures Decode(Encode(b)) == Some(b)
  {
    var raw := EncodeRaw(b);
    var t := Encode(b);
    forall i | 0 <= i < |t| ensures !IsAsciiWhitespace(t[i]) {
      if i < |raw| { assert t[i] == raw[i]; }
    }
    RemoveWhitespaceNoop(t);
    DecodeCharsEncodeRaw(b);
    StripPaddingOfEncode(b);
  }
}
