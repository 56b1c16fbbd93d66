/** Sequence operations with Python's and JavaScript's semantics. */
module Seqs {
  import opened Strings

  /**
   * How Python's `s[i:j]` and JavaScript's `s.slice(i, j)` read a bound: a negative bound counts from
   * the end, and the result is clamped into [0, len].
   */
  function SliceBound(i: int, len: nat): (b: nat)
    ensures b <= len
    ensures 0 <= i <= len ==> b == i
    ensures i > len ==> b == len
    ensures i < 0 ==> b == if i + len < 0 then 0 else i + len
  {
    if i < 0 then (if i + len < 0 then 0 else i + len) else if i > len then len else i
  }

  /** Python's `s[i:j]`, the same as JavaScript's `s.slice(i, j)`: empty when the end precedes the start. */
  function Slice<T>(s: seq<T>, i: int, j: int): (r: seq<T>)
    ensures |r| <= |s|
  {
    var a, b := SliceBound(i, |s|), SliceBound(j, |s|);
    if b <= a then [] else s[a..b]
  }

  /** With non-negative bounds a slice is the clamped subsequence and holds at most `j - i` elements. */
  lemma SliceNonNegative<T>(s: seq<T>, i: int, j: int)
    requires 0 <= i <= j
    ensures Slice(s, i, j) == s[(if i < |s| then i else |s|)..(if j < |s| then j else |s|)]
    ensures |Slice(s, i, j)| <= j - i
  {
  }

  /** No element occurs twice. */
  predicate NoDuplicates<T(==)>(s: seq<T>) {
    forall i, j :: 0 <= i < j < |s| ==> s[i] != s[j]
  }

  /** The position of the first occurrence of `x`. */
  function FirstIndex<T(==)>(xs: seq<T>, x: T): (k: nat)
    requires x in xs
    ensures k < |xs| && xs[k] == x && x !in xs[..k]
  {
    if xs[0] == x then 0 else 1 + FirstIndex(xs[1..], x)
  }

  /** Keeps the first occurrence of each element, in order (pandas' `unique`). */
  function Dedupe<T(==)>(xs: seq<T>): (r: seq<T>)
    ensures forall i :: 0 <= i < |r| ==> r[i] in xs
    ensures forall i :: 0 <= i < |xs| ==> xs[i] in r
    ensures NoDuplicates(r)
  {
    if xs == [] then []
    else
      var r := Dedupe(xs[..|xs| - 1]);
      var x := xs[|xs| - 1];
      assert forall i :: 0 <= i < |xs| - 1 ==> xs[i] == xs[..|xs| - 1][i];
      if x in r then r else r + [x]
  }

  lemma {:induction false} FirstIndexExtend<T>(p: seq<T>, x: T, y: T)
    requires y in p
    ensures FirstIndex(p + [x], y) == FirstIndex(p, y)
  {
    if p[0] != y {
      assert (p + [x])[1..] == p[1..] + [x];
      FirstIndexExtend(p[1..], x, y);
    }
  }

  lemma {:induction false} FirstIndexOfNew<T>(p: seq<T>, x: T)
    requires x !in p
    ensures FirstIndex(p + [x], x) == |p|
  {
    if p != [] {
      assert (p + [x])[1..] == p[1..] + [x];
      FirstIndexOfNew(p[1..], x);
    }
  }

  /** The kept elements appear in the order of their first occurrences in the input. */
  lemma {:induction false} DedupeKeepsFirstOccurrenceOrder<T>(xs: seq<T>)
    ensures forall i, j :: 0 <= i < j < |Dedupe(xs)| ==>
      FirstIndex(xs, Dedupe(xs)[i]) < FirstIndex(xs, Dedupe(xs)[j])
  {
    if xs != [] {
      var p, x := xs[..|xs| - 1], xs[|xs| - 1];
      assert xs == p + [x];
      DedupeKeepsFirstOccurrenceOrder(p);
      var rp := Dedupe(p);
      forall y | y in p ensures FirstIndex(xs, y) == FirstIndex(p, y) {
        FirstIndexExtend(p, x, y);
      }
      if x !in rp {
        FirstIndexOfNew(p, x);
      }
    }
  }

  /** `xs.filter(y => y !== x)`: every occurrence of `x` removed, the rest in order. */
  function Remove<T(==)>(xs: seq<T>, x: T): (r: seq<T>)
    ensures forall i :: 0 <= i < |r| ==> r[i] in xs && r[i] != x
    ensures forall i :: 0 <= i < |xs| && xs[i] != x ==> xs[i] in r
    ensures x !in xs ==> r == xs
    ensures |r| <= |xs|
  {
    if xs == [] then [] else (if xs[0] == x then [] else [xs[0]]) + Remove(xs[1..], x)
  }

  /** `r` is `xs` without `x`: the other elements in their order, each as often as in `xs`. */
  predicate RemovedFrom<T(==)>(r: seq<T>, xs: seq<T>, x: T) {
    Subsequence(r, xs) && multiset(r) == multiset(xs)[x := 0]
  }

  /** `Remove` keeps every other element, in order and with its count. */
  lemma {:induction false} RemoveKeepsRest<T>(xs: seq<T>, x: T)
    ensures RemovedFrom(Remove(xs, x), xs, x)
  {
    if xs != [] {
      RemoveKeepsRest(xs[1..], x);
      RemoveStep(xs, x, Remove(xs[1..], x));
    }
  }

  /** One step of `Remove`: the head is kept unless it is `x`. */
  lemma RemoveStep<T>(xs: seq<T>, x: T, rest: seq<T>)
    requires xs != []
    requires RemovedFrom(rest, xs[1..], x)
    ensures RemovedFrom((if xs[0] == x then [] else [xs[0]]) + rest, xs, x)
  {
    assert xs == [xs[0]] + xs[1..];
    MultisetZeroCons(xs[0], xs[1..], x);
    SubsequenceStep(xs, rest, xs[0] == x);
  }

  lemma MultisetZeroCons<T>(a: T, t: seq<T>, x: T)
    ensures multiset([a] + t)[x := 0] == if a == x then multiset(t)[x := 0] else multiset{a} + multiset(t)[x := 0]
  {
    assert multiset([a] + t) == multiset{a} + multiset(t);
  }

  /** `r` is `s` with some elements left out and the others kept in their order. */
  predicate Subsequence<T(==)>(r: seq<T>, s: seq<T>)
    decreases |s|
  {
    if r == [] then true
    else if s == [] then false
    else
      (r[|r| - 1] == s[|s| - 1] && Subsequence(r[..|r| - 1], s[..|s| - 1])) || Subsequence(r, s[..|s| - 1])
  }

  /** Prepending one element keeps a subsequence, with or without that element. */
  lemma {:induction false} SubsequenceCons<T>(r: seq<T>, s: seq<T>, x: T, keep: bool)
    requires Subsequence(r, s)
    ensures Subsequence(if keep then [x] + r else r, [x] + s)
    decreases |s|
  {
    var r' := if keep then [x] + r else r;
    if s == [] {
      assert [x] + s == [x];
      if keep {
        assert r == [];
        assert r'[..0] == [];
      }
    } else if r == [] {
      if keep {
        SubsequenceCons(r, s[..|s| - 1], x, keep);
        assert ([x] + s)[..|s|] == [x] + s[..|s| - 1];
      }
    } else {
      var s' := s[..|s| - 1];
      assert ([x] + s)[..|s|] == [x] + s';
      assert ([x] + s)[|s|] == s[|s| - 1];
      assert r'[|r'| - 1] == r[|r| - 1];
      if r[|r| - 1] == s[|s| - 1] && Subsequence(r[..|r| - 1], s') {
        SubsequenceCons(r[..|r| - 1], s', x, keep);
        assert r'[..|r'| - 1] == if keep then [x] + r[..|r| - 1] else r[..|r| - 1];
      } else {
        SubsequenceCons(r, s', x, keep);
      }
    }
  }

  /** One step of a front-to-back filter: the head is dropped or kept in front of the filtered rest. */
  lemma SubsequenceStep<T>(xs: seq<T>, rest: seq<T>, drop: bool)
    requires xs != [] && Subsequence(rest, xs[1..])
    ensures Subsequence((if drop then [] else [xs[0]]) + rest, xs)
  {
    assert xs == [xs[0]] + xs[1..];
    if drop {
      SubsequenceCons(rest, xs[1..], xs[0], false);
      assert [] + rest == rest;
    } else {
      SubsequenceCons(rest, xs[1..], xs[0], true);
    }
  }

  /** Extending the sequence by one element keeps a subsequence, with or without that element. */
  lemma SubsequenceSnoc<T>(r: seq<T>, s: seq<T>, x: T, keep: bool)
    requires Subsequence(r, s)
    ensures Subsequence(if keep then r + [x] else r, s + [x])
  {
    assert (s + [x])[..|s|] == s;
    if keep {
      assert (r + [x])[..|r|] == r;
    }
  }

  /** The sum of a sequence of reals. */
  function Sum(s: seq<real>): real {
    if s == [] then 0.0 else Sum(s[..|s| - 1]) + s[|s| - 1]
  }

  /** Strings in non-decreasing lexicographic order. */
  predicate SortedStrings(s: seq<string>) {
    forall i, j :: 0 <= i < j < |s| ==> LexLe(s[i], s[j])
  }

  /** Inserts `x` before the first element it does not exceed. */
  function InsertString(x: string, s: seq<string>): (r: seq<string>)
    requires SortedStrings(s)
    ensures SortedStrings(r)
    ensures multiset(r) == multiset(s) + multiset{x}
    ensures |r| == |s| + 1 && (r[0] == x || (s != [] && r[0] == s[0]))
  {
    if s == [] then [x]
    else if LexLe(x, s[0]) then
      SortedStringsCons(x, s);
      [x] + s
    else
      LexLeTotal(x, s[0]);
      SortedStringsTail(s);
      var t := InsertString(x, s[1..]);
      SortedStringsCons(s[0], t);
      assert s == [s[0]] + s[1..];
      [s[0]] + t
  }

  lemma SortedStringsTail(s: seq<string>)
    requires SortedStrings(s) && s != []
    ensures SortedStrings(s[1..]) && (|s| > 1 ==> LexLe(s[0], s[1]))
  {
  }

  lemma SortedStringsCons(a: string, t: seq<string>)
    requires SortedStrings(t) && (t == [] || LexLe(a, t[0]))
    ensures SortedStrings([a] + t)
  {
    var r := [a] + t;
    forall i, j | 0 <= i < j < |r| ensures LexLe(r[i], r[j]) {
      if i > 0 {
        assert r[i] == t[i - 1] && r[j] == t[j - 1];
      } else if j > 1 {
        assert r[j] == t[j - 1];
        LexLeTransitive(a, t[0], t[j - 1]);
      }
    }
  }

  /** JavaScript's default `sort()` of strings: the sorted permutation of the input. */
  function SortStrings(s: seq<string>): (r: seq<string>)
    ensures SortedStrings(r)
    ensures multiset(r) == multiset(s)
  {
    if s == [] then []
    else
      assert s == [s[0]] + s[1..];
      InsertString(s[0], SortStrings(s[1..]))
  }

  /** A multiset of strings has exactly one sorted arrangement. */
  lemma {:induction false} SortedUnique(a: seq<string>, b: seq<string>)
    requires SortedStrings(a) && SortedStrings(b)
    requires multiset(a) == multiset(b)
    ensures a == b
  {
    if a != [] {
      SortedHeads(a, b);
      assert multiset(a) == multiset(a[1..]) + multiset{a[0]} by { assert a == [a[0]] + a[1..]; }
      assert multiset(b) == multiset(b[1..]) + multiset{b[0]} by { assert b == [b[0]] + b[1..]; }
      MultisetCancel(multiset(a[1..]), multiset(b[1..]), a[0]);
      SortedStringsTail(a);
      SortedStringsTail(b);
      SortedUnique(a[1..], b[1..]);
      assert a == [a[0]] + a[1..] && b == [b[0]] + b[1..];
    } else {
      assert |b| == |multiset(b)|;
    }
  }

  /** Two sorted arrangements of the same non-empty multiset start with the same string. */
  lemma SortedHeads(a: seq<string>, b: seq<string>)
    requires SortedStrings(a) && SortedStrings(b)
    requires multiset(a) == multiset(b) && a != []
    ensures b != [] && a[0] == b[0]
  {
    assert a[0] in multiset(b) && b[0] in multiset(a);
    var k :| 0 <= k < |b| && b[k] == a[0];
    var m :| 0 <= m < |a| && a[m] == b[0];
    LexLeReflexive(a[0]);
    LexLeReflexive(b[0]);
    assert LexLe(a[0], b[0]) by { if m > 0 { assert LexLe(a[0], a[m]); } }
    assert LexLe(b[0], a[0]) by { if k > 0 { assert LexLe(b[0], b[k]); } }
    LexLeAntisymmetric(a[0], b[0]);
  }

  /** The items of key/item pairs, keys dropped. */
  function Seconds<K, T>(s: seq<(K, T)>): (r: seq<T>)
    ensures |r| == |s| && forall i :: 0 <= i < |s| ==> r[i] == s[i].1
  {
    seq(|s|, i requires 0 <= i < |s| => s[i].1)
  }

  lemma MultisetCancel<T>(p: multiset<T>, q: multiset<T>, x: T)
    requires p + multiset{x} == q + multiset{x}
    ensures p == q
  {
    forall z ensures p[z] == q[z] {
      assert (p + multiset{x})[z] == (q + multiset{x})[z];
    }
  }

  lemma RemoveAt<T>(b: seq<T>, k: nat)
    requires k < |b|
    ensures multiset(b) == multiset(b[..k] + b[k + 1..]) + multiset{b[k]}
  {
    assert b == b[..k] + [b[k]] + b[k + 1..];
  }

  lemma SecondsRemoveAt<K, T>(b: seq<(K, T)>, k: nat)
    requires k < |b|
    ensures multiset(Seconds(b)) == multiset(Seconds(b[..k] + b[k + 1..])) + multiset{b[k].1}
  {
    assert Seconds(b) == Seconds(b[..k]) + [b[k].1] + Seconds(b[k + 1..]);
    assert Seconds(b[..k] + b[k + 1..]) == Seconds(b[..k]) + Seconds(b[k + 1..]);
  }

  lemma SecondsFirst<K, T>(a: seq<(K, T)>)
    requires a != []
    ensures multiset(Seconds(a)) == multiset(Seconds(a[1..])) + multiset{a[0].1}
  {
    assert Seconds(a) == [a[0].1] + Seconds(a[1..]);
  }

  /** The first element of one of two permutations, found in the other and removed from both. */
  lemma MatchFirst<T>(a: seq<T>, b: seq<T>) returns (k: nat)
    requires a != [] && multiset(a) == multiset(b)
    ensures k < |b| && b[k] == a[0] && multiset(a[1..]) == multiset(b[..k] + b[k + 1..])
  {
    assert a[0] in multiset(b);
    k :| 0 <= k < |b| && b[k] == a[0];
    RemoveAt(b, k);
    RemoveAt(a, 0);
    assert a[..0] + a[1..] == a[1..];
    MultisetCancel(multiset(a[1..]), multiset(b[..k] + b[k + 1..]), a[0]);
  }

  /** Permuting the pairs permutes their items. */
  lemma {:induction false} MultisetSeconds<K, T>(a: seq<(K, T)>, b: seq<(K, T)>)
    requires multiset(a) == multiset(b)
    ensures multiset(Seconds(a)) == multiset(Seconds(b))
    decreases |a|
  {
    if a == [] {
      assert |b| == |multiset(b)| == 0;
    } else {
      var k := MatchFirst(a, b);
      var rest := b[..k] + b[k + 1..];
      MultisetSeconds(a[1..], rest);
      SecondsRemoveAt(b, k);
      SecondsFirst(a);
    }
  }
}
