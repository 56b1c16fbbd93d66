/** frontend/src/pages/academy/syllabus.js: which teaching slot a UTC offset falls in. */
module Syllabus {
  import opened Wrappers

  /** One entry of `slotMetadata`: the slot number, its Etc/GMT shift and the hour range `[lo, hi)` it covers. */
  datatype SlotInfo = SlotInfo(slot: int, shift: string, lo: real, hi: real)

  const SlotMetadata: seq<SlotInfo> := [
    SlotInfo(1, "-7", 6.5, 16.0),
    SlotInfo(2, "+0", -1.5, 6.5),
    SlotInfo(3, "+10", -16.0, -1.5)
  ]

  /** `isInRange(x, range)`: `x - range[0] >= 0 && x - range[1] < 0`. */
  predicate IsInRange(x: real, lo: real, hi: real) {
    x - lo >= 0.0 && x - hi < 0.0
  }

  /** `isInRange` is the half-open test. */
  lemma IsInRangeHalfOpen(x: real, lo: real, hi: real)
    ensures IsInRange(x, lo, hi) <==> lo <= x < hi
  {
  }

  /** `slots.find(s => isInRange(x, s.rangeInclude))`: the first slot whose range holds `x`. */
  function FindSlot(slots: seq<SlotInfo>, x: real): (r: Option<nat>)
    ensures r.None? <==> forall i :: 0 <= i < |slots| ==> !IsInRange(x, slots[i].lo, slots[i].hi)
    ensures r.Some? ==> r.value < |slots| && IsInRange(x, slots[r.value].lo, slots[r.value].hi)
    ensures r.Some? ==> forall j :: 0 <= j < r.value ==> !IsInRange(x, slots[j].lo, slots[j].hi)
  {
    if slots == [] then None
    else if IsInRange(x, slots[0].lo, slots[0].hi) then Some(0)
    else match FindSlot(slots[1..], x)
      case None => None
      case Some(k) => Some(k + 1)
  }

  /** What `getSlot` returns: a slot number, or `''` when no slot matches. */
  datatype SlotLabel = Number(n: int) | NoSlot

  /** `getSlot(utcOffset)`, with the offset in minutes; the console report is left out. */
  function GetSlot(utcOffset: real): SlotLabel {
    match FindSlot(SlotMetadata, utcOffset / 60.0)
    case Some(k) => Number(SlotMetadata[k].slot)
    case None => NoSlot
  }

  /** No hour lies in two slot ranges. */
  lemma SlotRangesDisjoint(x: real, i: nat, j: nat)
    requires i < j < |SlotMetadata|
    ensures !(IsInRange(x, SlotMetadata[i].lo, SlotMetadata[i].hi) && IsInRange(x, SlotMetadata[j].lo, SlotMetadata[j].hi))
  {
  }

  /** The slot ranges together cover exactly `[-16, 16)`. */
  lemma SlotRangesCover(x: real)
    ensures (exists i :: 0 <= i < |SlotMetadata| && IsInRange(x, SlotMetadata[i].lo, SlotMetadata[i].hi)) <==> -16.0 <= x < 16.0
  {
    if -16.0 <= x < 16.0 {
      if x >= 6.5 { assert IsInRange(x, SlotMetadata[0].lo, SlotMetadata[0].hi); }
      else if x >= -1.5 { assert IsInRange(x, SlotMetadata[1].lo, SlotMetadata[1].hi); }
      else { assert IsInRange(x, SlotMetadata[2].lo, SlotMetadata[2].hi); }
    }
  }

  /**
   * `getSlot` names a slot exactly for offsets in `[-16, 16)` hours, and that
   * slot's range is the one holding the offset; otherwise it returns `''`.
   */
  lemma GetSlotIsCoveringSlot(utcOffset: real)
    ensures GetSlot(utcOffset).Number? <==> -16.0 <= utcOffset / 60.0 < 16.0
    ensures GetSlot(utcOffset).Number? ==> forall i :: 0 <= i < |SlotMetadata| ==>
      (IsInRange(utcOffset / 60.0, SlotMetadata[i].lo, SlotMetadata[i].hi) <==> SlotMetadata[i].slot == GetSlot(utcOffset).n)
  {
    var x := utcOffset / 60.0;
    SlotRangesCover(x);
  }
}
