/** frontend/src/components/AvailableTimePicker/index.js: merging one day's selection into the list of days. */
module AvailableTimePicker {
  import opened Wrappers
  import Seqs

  /** `{ date, time }`: the selected ISO times of one date. */
  datatype DateEntry = DateEntry(date: string, time: seq<string>)

  /** The dates of the entries, in order. */
  function Dates(entries: seq<DateEntry>): (r: seq<string>)
    ensures |r| == |entries| && forall i :: 0 <= i < |r| ==> r[i] == entries[i].date
  {
    seq(|entries|, i requires 0 <= i < |entries| => entries[i].date)
  }

  /** No two entries share a date. */
  predicate UniqueDates(entries: seq<DateEntry>) {
    forall i, j :: 0 <= i < j < |entries| ==> entries[i].date != entries[j].date
  }

  /** `selectedDatetime.find(x => x.date === date)` as a position: None when no entry has that date. */
  function FindDate(entries: seq<DateEntry>, date: string): (r: Option<nat>)
    ensures r.Some? <==> exists i :: 0 <= i < |entries| && entries[i].date == date
    ensures r.Some? ==> r.value < |entries| && entries[r.value].date == date
    ensures r.Some? ==> forall j :: 0 <= j < r.value ==> entries[j].date != date
  {
    if entries == [] then None
    else if entries[0].date == date then Some(0)
    else match FindDate(entries[1..], date)
      case None => None
      case Some(k) => Some(k + 1)
  }

  /** The entry for `date` replaced in place, or a new entry appended. */
  function Place(entries: seq<DateEntry>, date: string, updated: seq<string>): seq<DateEntry> {
    match FindDate(entries, date)
    case Some(k) => entries[..k] + [entries[k].(time := updated)] + entries[k + 1..]
    case None => entries + [DateEntry(date, updated)]
  }

  /** `filter(x => x.time.length !== 0)`. */
  function DropEmpty(entries: seq<DateEntry>): (r: seq<DateEntry>)
    ensures forall i :: 0 <= i < |r| ==> r[i].time != [] && r[i] in entries
    ensures forall i :: 0 <= i < |entries| && entries[i].time != [] ==> entries[i] in r
  {
    if entries == [] then []
    else (if entries[0].time == [] then [] else [entries[0]]) + DropEmpty(entries[1..])
  }

  /** The filter keeps every entry with times, in order and as often as it occurs, and no other. */
  lemma DropEmptyKeepsRest(entries: seq<DateEntry>)
    ensures Seqs.Subsequence(DropEmpty(entries), entries)
    ensures forall e :: multiset(DropEmpty(entries))[e] == if e.time != [] then multiset(entries)[e] else 0
  {
    DropEmptyInOrder(entries);
    DropEmptyCounts(entries);
  }

  lemma {:induction false} DropEmptyInOrder(entries: seq<DateEntry>)
    ensures Seqs.Subsequence(DropEmpty(entries), entries)
  {
    if entries != [] {
      DropEmptyInOrder(entries[1..]);
      Seqs.SubsequenceStep(entries, DropEmpty(entries[1..]), entries[0].time == []);
    }
  }

  lemma {:induction false} DropEmptyCounts(entries: seq<DateEntry>)
    ensures forall e :: multiset(DropEmpty(entries))[e] == if e.time != [] then multiset(entries)[e] else 0
  {
    if entries != [] {
      var e0, tail := entries[0], entries[1..];
      DropEmptyCounts(tail);
      assert entries == [e0] + tail;
      var head := if e0.time == [] then [] else [e0];
      assert DropEmpty(entries) == head + DropEmpty(tail);
      forall e ensures multiset(DropEmpty(entries))[e] == if e.time != [] then multiset(entries)[e] else 0 {
        assert multiset(DropEmpty(entries))[e] == multiset(head)[e] + multiset(DropEmpty(tail))[e];
        assert multiset(entries)[e] == multiset{e0}[e] + multiset(tail)[e];
      }
    }
  }

  /** The `onChange` handler of one date block. */
  function Merge(entries: seq<DateEntry>, date: string, updated: seq<string>): seq<DateEntry> {
    DropEmpty(Place(entries, date, updated))
  }

  /** An existing date's entry is replaced where it stands; every other entry is unchanged. */
  lemma PlaceReplacesInPlace(entries: seq<DateEntry>, date: string, updated: seq<string>, k: nat)
    requires k < |entries| && entries[k].date == date
    requires forall j :: 0 <= j < k ==> entries[j].date != date
    ensures var r := Place(entries, date, updated);
      |r| == |entries| && r[k] == DateEntry(date, updated) &&
      forall j :: 0 <= j < |r| && j != k ==> r[j] == entries[j]
  {
    var f := FindDate(entries, date);
    assert f.Some? && f.value == k;
    var r := entries[..k] + [entries[k].(time := updated)] + entries[k + 1..];
    assert Place(entries, date, updated) == r;
    forall j | 0 <= j < |r| && j != k ensures r[j] == entries[j] {
      if j < k {
        assert r[j] == entries[..k][j];
      } else {
        assert r[j] == entries[k + 1..][j - k - 1];
      }
    }
  }

  /** A date without an entry gets a new one at the end. */
  lemma PlaceAppendsNewDate(entries: seq<DateEntry>, date: string, updated: seq<string>)
    requires forall j :: 0 <= j < |entries| ==> entries[j].date != date
    ensures Place(entries, date, updated) == entries + [DateEntry(date, updated)]
  {
  }

  /** No entry with an empty time list survives the merge. */
  lemma MergeHasNoEmpty(entries: seq<DateEntry>, date: string, updated: seq<string>)
    ensures forall i :: 0 <= i < |Merge(entries, date, updated)| ==> Merge(entries, date, updated)[i].time != []
  {
  }

  /**
   * After the merge, `date` holds exactly `updated` (when non-empty), every
   * other entry is an old one, and every old non-empty entry of another date
   * survives.
   */
  lemma MergeContents(entries: seq<DateEntry>, date: string, updated: seq<string>)
    requires UniqueDates(entries)
    ensures var r := Merge(entries, date, updated);
      (forall i :: 0 <= i < |r| && r[i].date == date ==> r[i].time == updated) &&
      (forall i :: 0 <= i < |r| && r[i].date != date ==> r[i] in entries) &&
      (updated != [] ==> DateEntry(date, updated) in r) &&
      (forall i :: 0 <= i < |entries| && entries[i].date != date && entries[i].time != [] ==> entries[i] in r)
  {
    var p := Place(entries, date, updated);
    match FindDate(entries, date)
    case Some(k) =>
      PlaceReplacesInPlace(entries, date, updated, k);
      assert p[k] == DateEntry(date, updated);
      forall j | 0 <= j < |p| && j != k ensures p[j].date != date {
        assert p[j] == entries[j];
      }
      forall i | 0 <= i < |entries| && entries[i].date != date ensures p[i] == entries[i] {
      }
    case None =>
      assert p == entries + [DateEntry(date, updated)];
      assert p[|entries|] == DateEntry(date, updated);
      assert forall i :: 0 <= i < |entries| ==> p[i] == entries[i];
  }

  /** Dropping entries introduces no date. */
  lemma DropEmptyAddsNoDate(entries: seq<DateEntry>, d: string)
    requires forall i :: 0 <= i < |entries| ==> entries[i].date != d
    ensures forall i :: 0 <= i < |DropEmpty(entries)| ==> DropEmpty(entries)[i].date != d
  {
    var r := DropEmpty(entries);
    forall i | 0 <= i < |r| ensures r[i].date != d {
      assert r[i] in entries;
    }
  }

  /** A distinct-dated list headed by an entry whose date is not in the tail. */
  lemma ConsUniqueDates(e: DateEntry, rest: seq<DateEntry>)
    requires UniqueDates(rest)
    requires forall i :: 0 <= i < |rest| ==> rest[i].date != e.date
    ensures UniqueDates([e] + rest)
  {
    var r := [e] + rest;
    forall i, j | 0 <= i < j < |r| ensures r[i].date != r[j].date {
      assert r[j] == rest[j - 1];
      if i > 0 { assert r[i] == rest[i - 1]; }
    }
  }

  /** Dropping entries keeps the dates distinct. */
  lemma {:induction false} DropEmptyKeepsUnique(entries: seq<DateEntry>)
    requires UniqueDates(entries)
    ensures UniqueDates(DropEmpty(entries))
  {
    if entries != [] {
      var e, tail := entries[0], entries[1..];
      UniqueDatesTail(entries);
      DropEmptyKeepsUnique(tail);
      DropEmptyAddsNoDate(tail, e.date);
      if e.time != [] {
        assert DropEmpty(entries) == [e] + DropEmpty(tail);
        ConsUniqueDates(e, DropEmpty(tail));
      } else {
        assert DropEmpty(entries) == DropEmpty(tail);
      }
    }
  }

  /** The tail of a distinct-dated list is distinct-dated and does not repeat the head's date. */
  lemma UniqueDatesTail(entries: seq<DateEntry>)
    requires UniqueDates(entries) && entries != []
    ensures UniqueDates(entries[1..])
    ensures forall i :: 0 <= i < |entries| - 1 ==> entries[1..][i].date != entries[0].date
  {
    var tail := entries[1..];
    forall i, j | 0 <= i < j < |tail| ensures tail[i].date != tail[j].date {
      assert tail[i] == entries[i + 1] && tail[j] == entries[j + 1];
    }
    forall i | 0 <= i < |tail| ensures tail[i].date != entries[0].date {
      assert tail[i] == entries[i + 1];
    }
  }

  /** The merge keeps one entry per date when the input had one. */
  lemma MergeKeepsDatesUnique(entries: seq<DateEntry>, date: string, updated: seq<string>)
    requires UniqueDates(entries)
    ensures UniqueDates(Merge(entries, date, updated))
  {
    var p := Place(entries, date, updated);
    match FindDate(entries, date)
    case Some(k) =>
      PlaceReplacesInPlace(entries, date, updated, k);
      forall i, j | 0 <= i < j < |p| ensures p[i].date != p[j].date {
        assert p[i].date == entries[i].date && p[j].date == entries[j].date;
      }
      DropEmptyKeepsUnique(p);
    case None =>
      assert forall i :: 0 <= i < |entries| ==> p[i] == entries[i];
      DropEmptyKeepsUnique(p);
  }
}
