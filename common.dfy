/** frontend/src/utils/common.js: the URL obfuscation decoder/encoder and array flattening. */
module Common {
  import opened Wrappers
  import opened Seqs
  import Base64

  /** The rotation both sides use by default. */
  const MagicNumber: int := 9

  /** The bytes `btoa` encodes: one per character, None (InvalidCharacterError) above U+00FF. */
  function Latin1Bytes(s: string): (r: Option<seq<Base64.byte>>)
    ensures r.Some? <==> forall i :: 0 <= i < |s| ==> s[i] as int < 256
    ensures r.Some? ==> |r.value| == |s| && forall i :: 0 <= i < |s| ==> r.value[i] == s[i] as int
  {
    if s == [] then Some([])
    else if s[0] as int >= 256 then None
    else
      match Latin1Bytes(s[1..])
      case None => None
      case Some(rest) => Some([s[0] as int] + rest)
  }

  /** The "binary string" `atob` returns: one character per byte. */
  function BytesToLatin1(b: seq<Base64.byte>): (r: string)
    ensures |r| == |b| && forall i :: 0 <= i < |b| ==> r[i] as int == b[i]
  {
    if b == [] then "" else [b[0] as char] + BytesToLatin1(b[1..])
  }

  /** `s.slice(k) + s.slice(0, k)` for a JavaScript index `k`: a left rotation by the clamped bound. */
  function RotateLeft(s: string, k: int): string {
    Slice(s, k, |s|) + Slice(s, 0, k)
  }

  /** `encodeBase64(str, n)`: `btoa(str)` rotated left by `n`; None when `btoa` throws. */
  function EncodeBase64(str: string, n: int): Option<string> {
    match Latin1Bytes(str)
    case None => None
    case Some(bytes) => Some(RotateLeft(Base64.Encode(bytes), n))
  }

  /** `decodeBase64(b64, n)`: `b64` rotated right by `n` (`slice(-n)` first), then `atob`; None when `atob` throws. */
  function DecodeBase64(b64: string, n: int): Option<string> {
    match Base64.Decode(RotateLeft(b64, -n))
    case None => None
    case Some(bytes) => Some(BytesToLatin1(bytes))
  }

  lemma RotateLeftIsRotation(s: string, k: int)
    ensures var j := SliceBound(k, |s|); RotateLeft(s, k) == s[j..] + s[..j]
  {
  }

  /** Rotating left by `j` and then by `|s| - j` restores the string. */
  lemma RotationsCancel(s: string, j: nat)
    requires j <= |s|
    ensures var u := s[j..] + s[..j]; u[|s| - j..] + u[..|s| - j] == s
  {
    var u := s[j..] + s[..j];
    assert u[|s| - j..] == s[..j];
    assert u[..|s| - j] == s[j..];
  }

  /** The decoder's rotation undoes the encoder's, for every `n`, including `n` beyond the length. */
  lemma UnrotateRotate(s: string, n: int)
    ensures RotateLeft(RotateLeft(s, n), -n) == s
  {
    var j := SliceBound(n, |s|);
    var u := RotateLeft(s, n);
    assert u == s[j..] + s[..j];
    var m := SliceBound(-n, |u|);
    assert |u| == |s|;
    assert RotateLeft(u, -n) == u[m..] + u[..m];
    if j == 0 && m == 0 {
      assert u == s;
    } else {
      assert m == |s| - j;
      RotationsCancel(s, j);
    }
  }

  lemma {:induction false} Latin1RoundTrip(s: string)
    requires Latin1Bytes(s).Some?
    ensures BytesToLatin1(Latin1Bytes(s).value) == s
  {
    var b := Latin1Bytes(s).value;
    var r := BytesToLatin1(b);
    assert forall i :: 0 <= i < |s| ==> r[i] == s[i];
  }

  /** `decodeBase64(encodeBase64(s, n), n) == s` for every rotation `n` and every string `btoa` accepts. */
  lemma DecodeEncodeBase64(s: string, n: int)
    requires forall i :: 0 <= i < |s| ==> s[i] as int < 256
    ensures EncodeBase64(s, n).Some?
    ensures DecodeBase64(EncodeBase64(s, n).value, n) == Some(s)
  {
    var bytes := Latin1Bytes(s).value;
    UnrotateRotate(Base64.Encode(bytes), n);
    Base64.DecodeEncode(bytes);
    Latin1RoundTrip(s);
  }

  /** A rotation at or beyond the length changes nothing, in either direction. */
  lemma LongRotationIsIdentity(s: string, n: int)
    requires n >= |s|
    ensures RotateLeft(s, n) == s && RotateLeft(s, -n) == s
  {
    assert s[|s|..] + s[..|s|] == s;
    assert s[0..] + s[..0] == s;
  }

  /** With `n` at or beyond the base64 length, encoding is plain `btoa`. */
  lemma EncodeWithLongRotation(s: string, n: int)
    requires Latin1Bytes(s).Some?
    requires n >= |Base64.Encode(Latin1Bytes(s).value)|
    ensures EncodeBase64(s, n) == Some(Base64.Encode(Latin1Bytes(s).value))
  {
    LongRotationIsIdentity(Base64.Encode(Latin1Bytes(s).value), n);
  }

  /** With `n` at or beyond the input length, decoding is plain `atob`. */
  lemma DecodeWithLongRotation(b64: string, n: int)
    requires n >= |b64|
    ensures DecodeBase64(b64, n) == (match Base64.Decode(b64) case None => None case Some(b) => Some(BytesToLatin1(b)))
  {
    LongRotationIsIdentity(b64, n);
  }

  /** A JavaScript value as far as `flat` looks at it: an array of values, or anything else. */
  datatype Nested<T> = Leaf(value: T) | Array(items: seq<Nested<T>>)

  /** `flat(arr)`: `arr.reduce((a, b) => Array.isArray(b) ? [...a, ...flat(b)] : [...a, b], [])`. */
  function Flat<T>(arr: seq<Nested<T>>): seq<Nested<T>>
    decreases arr, 1
  {
    FlatFold([], arr)
  }

  /** The reduce loop of `flat`, with the accumulator `acc`. */
  function FlatFold<T>(acc: seq<Nested<T>>, arr: seq<Nested<T>>): seq<Nested<T>>
    decreases arr, 0
  {
    if arr == [] then acc
    else
      var b := arr[0];
      assert b in arr;
      FlatFold(acc + (if b.Array? then Flat(b.items) else [b]), arr[1..])
  }

  /** The reference order of leaves: left to right, depth first. */
  function Leaves<T>(arr: seq<Nested<T>>): seq<Nested<T>> {
    if arr == [] then []
    else
      var b := arr[0];
      assert b in arr;
      (if b.Array? then Leaves(b.items) else [b]) + Leaves(arr[1..])
  }

  /** The fold appends to whatever accumulator it starts from. */
  lemma {:induction false} FlatFoldAccumulates<T>(acc: seq<Nested<T>>, arr: seq<Nested<T>>)
    ensures FlatFold(acc, arr) == acc + Flat(arr)
    decreases arr, 0
  {
    if arr != [] {
      var b := arr[0];
      var piece := if b.Array? then Flat(b.items) else [b];
      FlatFoldAccumulates(acc + piece, arr[1..]);
      FlatFoldAccumulates(piece, arr[1..]);
      assert [] + piece == piece;
      assert Flat(arr) == FlatFold(piece, arr[1..]);
    }
  }

  /** `flat` lists the leaves left to right, depth first. */
  lemma {:induction false} FlatIsLeaves<T>(arr: seq<Nested<T>>)
    ensures Flat(arr) == Leaves(arr)
  {
    if arr != [] {
      var b := arr[0];
      assert b in arr;
      var piece := if b.Array? then Flat(b.items) else [b];
      if b.Array? { FlatIsLeaves(b.items); }
      FlatFoldAccumulates(piece, arr[1..]);
      assert [] + piece == piece;
      assert Flat(arr) == FlatFold(piece, arr[1..]);
      FlatIsLeaves(arr[1..]);
    }
  }

  /** Nothing `Leaves` returns is an array. */
  lemma {:induction false} LeavesAreLeaves<T>(arr: seq<Nested<T>>)
    ensures forall i :: 0 <= i < |Leaves(arr)| ==> Leaves(arr)[i].Leaf?
  {
    if arr != [] {
      var b := arr[0];
      assert b in arr;
      if b.Array? { LeavesAreLeaves(b.items); }
      LeavesAreLeaves(arr[1..]);
    }
  }

  /** The output of `flat` contains no arrays. */
  lemma FlatHasNoArrays<T>(arr: seq<Nested<T>>)
    ensures forall i :: 0 <= i < |Flat(arr)| ==> Flat(arr)[i].Leaf?
  {
    FlatIsLeaves(arr);
    LeavesAreLeaves(arr);
  }

  /** `flat` of an array with no nested arrays returns it unchanged. */
  lemma {:induction false} FlatOfFlatIsIdentity<T>(arr: seq<Nested<T>>)
    requires forall i :: 0 <= i < |arr| ==> arr[i].Leaf?
    ensures Flat(arr) == arr
  {
    FlatIsLeaves(arr);
    LeavesOfLeaves(arr);
  }

  lemma {:induction false} LeavesOfLeaves<T>(arr: seq<Nested<T>>)
    requires forall i :: 0 <= i < |arr| ==> arr[i].Leaf?
    ensures Leaves(arr) == arr
  {
    if arr != [] {
      LeavesOfLeaves(arr[1..]);
      assert arr == [arr[0]] + arr[1..];
    }
  }

  /** Flattening twice is flattening once. */
  lemma FlatIdempotent<T>(arr: seq<Nested<T>>)
    ensures Flat(Flat(arr)) == Flat(arr)
  {
    FlatHasNoArrays(arr);
    FlatOfFlatIsIdentity(Flat(arr));
  }

  lemma {:induction false} LeavesAppend<T>(a: seq<Nested<T>>, b: seq<Nested<T>>)
    ensures Leaves(a + b) == Leaves(a) + Leaves(b)
  {
    if a != [] {
      assert (a + b)[0] == a[0] && (a + b)[1..] == a[1..] + b;
      LeavesAppend(a[1..], b);
    } else {
      assert a + b == b;
    }
  }

  /** Flattening distributes over concatenation. */
  lemma FlatAppend<T>(a: seq<Nested<T>>, b: seq<Nested<T>>)
    ensures Flat(a + b) == Flat(a) + Flat(b)
  {
    FlatIsLeaves(a + b);
    FlatIsLeaves(a);
    FlatIsLeaves(b);
    LeavesAppend(a, b);
  }
}
