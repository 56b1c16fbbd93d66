/** frontend/src/components/AvailableTimePicker/EachDateBlock.js: one day's grid of time slots. */
module EachDateBlock {
  import opened Seqs
  import opened Values

  /** The click handler: an active slot is filtered out, an inactive one appended. */
  function Toggle(selected: seq<string>, v: string): (r: seq<string>)
    ensures v in selected ==> v !in r
    ensures v in selected ==> forall i :: 0 <= i < |selected| && selected[i] != v ==> selected[i] in r
    ensures v in selected ==> Subsequence(r, selected) && multiset(r) == multiset(selected)[v := 0]
    ensures v !in selected ==> r == selected + [v]
  {
    if v in selected then RemoveKeepsRest(selected, v); Remove(selected, v) else selected + [v]
  }

  /** Removing a value just appended to a list that lacked it restores the list. */
  lemma RemoveAppended(s: seq<string>, v: string)
    requires v !in s
    ensures Remove(s + [v], v) == s
  {
    RemoveDistributes(s, [v], v);
    assert Remove([v], v) == [] + Remove([], v);
  }

  /** Removing from a concatenation removes from each part. */
  lemma {:induction false} RemoveDistributes(a: seq<string>, b: seq<string>, v: string)
    ensures Remove(a + b, v) == Remove(a, v) + Remove(b, v)
  {
    if a == [] {
      assert a + b == b;
    } else {
      assert (a + b)[0] == a[0] && (a + b)[1..] == a[1..] + b;
      RemoveDistributes(a[1..], b, v);
    }
  }

  /** Toggling an inactive slot twice leaves the selection as it was. */
  lemma ToggleTwice(selected: seq<string>, v: string)
    requires v !in selected
    ensures Toggle(Toggle(selected, v), v) == selected
  {
    RemoveAppended(selected, v);
  }

  /** Toggling is never a no-op: it flips whether the slot is active. */
  lemma ToggleFlips(selected: seq<string>, v: string)
    ensures (v in Toggle(selected, v)) <==> v !in selected
  {
  }

  /**
   * `!moment(x).isBetween(lo, hi, undefined, "[)")`: a slot is disabled unless
   * it lies in the half-open range `[lo, hi)`; an unparseable bound disables every slot.
   */
  predicate Disabled(x: int, lo: Time, hi: Time) {
    !(TimeLe(lo, At(x)) && TimeLt(At(x), hi))
  }

  /** Disabled exactly outside `[lo, hi)`. */
  lemma DisabledOutsideRange(x: int, lo: Time, hi: Time)
    ensures Disabled(x, lo, hi) <==> !(lo.At? && hi.At? && lo.minute <= x < hi.minute)
  {
  }

  /** The enabled slots form an interval: a slot between two enabled ones is enabled. */
  lemma EnabledIsConvex(x: int, y: int, z: int, lo: Time, hi: Time)
    requires x <= y <= z
    requires !Disabled(x, lo, hi) && !Disabled(z, lo, hi)
    ensures !Disabled(y, lo, hi)
  {
  }
}
