/** frontend/src/utils/timePickerHelpers.js: the stored "t1;t2;..." form of the selected available times. */
module TimePickerHelpers {
  import opened Strings
  import opened Seqs
  import opened Wrappers
  import Common
  import opened AvailableTimePicker

  /** `flat(selected.map(x => x.time))`: the time lists one after another. */
  function AllTimes(entries: seq<DateEntry>): seq<string> {
    if entries == [] then [] else entries[0].time + AllTimes(entries[1..])
  }

  /** For lists of strings `flat` is exactly `AllTimes`: a string is not an array. */
  lemma {:induction false} FlatOfTimeLists(entries: seq<DateEntry>)
    ensures Common.Flat(AsNested(entries)) == AsLeaves(AllTimes(entries))
  {
    Common.FlatIsLeaves(AsNested(entries));
    LeavesOfTimeLists(entries);
  }

  function AsLeaves(t: seq<string>): (r: seq<Common.Nested<string>>)
    ensures |r| == |t| && forall i :: 0 <= i < |t| ==> r[i] == Common.Leaf(t[i])
  {
    seq(|t|, i requires 0 <= i < |t| => Common.Leaf(t[i]))
  }

  /** The JavaScript array `selected.map(x => x.time)`. */
  function AsNested(entries: seq<DateEntry>): (r: seq<Common.Nested<string>>)
    ensures |r| == |entries| && forall i :: 0 <= i < |entries| ==> r[i] == Common.Array(AsLeaves(entries[i].time))
  {
    seq(|entries|, i requires 0 <= i < |entries| => Common.Array(AsLeaves(entries[i].time)))
  }

  lemma {:induction false} LeavesOfTimeLists(entries: seq<DateEntry>)
    ensures Common.Leaves(AsNested(entries)) == AsLeaves(AllTimes(entries))
  {
    if entries != [] {
      var n := AsNested(entries);
      assert n[0] == Common.Array(AsLeaves(entries[0].time));
      assert n[1..] == AsNested(entries[1..]);
      assert Common.Leaves(n) == Common.Leaves(n[0].items) + Common.Leaves(n[1..]);
      LeavesOfTimeLists(entries[1..]);
      Common.LeavesOfLeaves(AsLeaves(entries[0].time));
      AsLeavesAppend(entries[0].time, AllTimes(entries[1..]));
    }
  }

  lemma AsLeavesAppend(a: seq<string>, b: seq<string>)
    ensures AsLeaves(a + b) == AsLeaves(a) + AsLeaves(b)
  {
  }

  /** `filter(x => x)`: the empty strings dropped. */
  function NonEmpty(xs: seq<string>): (r: seq<string>)
    ensures forall i :: 0 <= i < |r| ==> r[i] != "" && r[i] in xs
    ensures forall i :: 0 <= i < |xs| && xs[i] != "" ==> xs[i] in r
  {
    if xs == [] then [] else (if xs[0] == "" then [] else [xs[0]]) + NonEmpty(xs[1..])
  }

  /** The filter keeps every non-empty string, in order and as often as it occurs. */
  lemma {:induction false} NonEmptyKeepsRest(xs: seq<string>)
    ensures Subsequence(NonEmpty(xs), xs) && multiset(NonEmpty(xs)) == multiset(xs)["" := 0]
  {
    if xs != [] {
      NonEmptyKeepsRest(xs[1..]);
      RemoveStep(xs, "", NonEmpty(xs[1..]));
    }
  }

  /** The pieces `serializeSelectedDatetime` joins: non-empty, sorted, and the same times. */
  function SerializedPieces(entries: seq<DateEntry>): (r: seq<string>)
    ensures SortedStrings(r)
    ensures multiset(r) == multiset(NonEmpty(AllTimes(entries)))
    ensures forall i :: 0 <= i < |r| ==> r[i] != ""
  {
    var r := SortStrings(NonEmpty(AllTimes(entries)));
    assert forall i :: 0 <= i < |r| ==> r[i] in multiset(NonEmpty(AllTimes(entries)));
    r
  }

  /** `serializeSelectedDatetime`. */
  function Serialize(entries: seq<DateEntry>): string {
    Join(SerializedPieces(entries), ';')
  }

  /** Splitting the serialised form at ';' gives back the sorted non-empty times, when no time holds a ';'. */
  lemma SerializeSplits(entries: seq<DateEntry>)
    requires forall t :: t in AllTimes(entries) ==> ';' !in t
    requires NonEmpty(AllTimes(entries)) != []
    ensures Split(Serialize(entries), ';') == SerializedPieces(entries)
  {
    var r := SerializedPieces(entries);
    assert |multiset(r)| == |multiset(NonEmpty(AllTimes(entries)))|;
    forall k | 0 <= k < |r| ensures ';' !in r[k] {
      assert r[k] in multiset(NonEmpty(AllTimes(entries)));
    }
    SplitJoin(r, ';');
  }

  /** The reduce step: `cur` appended to its date's group, or a new group at the end. */
  function AddPiece(acc: seq<DateEntry>, cur: string, dateKey: string -> string): seq<DateEntry> {
    match FindDate(acc, dateKey(cur))
    case Some(k) => acc[k := acc[k].(time := acc[k].time + [cur])]
    case None => acc + [DateEntry(dateKey(cur), [cur])]
  }

  /** `pieces.reduce(addPiece, [])`. */
  function Group(pieces: seq<string>, dateKey: string -> string): seq<DateEntry> {
    if pieces == [] then []
    else AddPiece(Group(pieces[..|pieces| - 1], dateKey), pieces[|pieces| - 1], dateKey)
  }

  /**
   * `deserializeSelectedDatetime`, with `dateKey(t)` standing for
   * `moment(t).format("MMMM DD, YYYY")`; a falsy string gives `[]`.
   */
  function Deserialize(s: string, dateKey: string -> string): (r: seq<DateEntry>)
    ensures s == "" ==> r == []
  {
    if s == "" then [] else Group(Split(s, ';'), dateKey)
  }

  /** The date key of every piece. */
  function Keys(pieces: seq<string>, dateKey: string -> string): (r: seq<string>)
    ensures |r| == |pieces| && forall i :: 0 <= i < |pieces| ==> r[i] == dateKey(pieces[i])
  {
    seq(|pieces|, i requires 0 <= i < |pieces| => dateKey(pieces[i]))
  }

  /** The pieces with date key `d`, in input order. */
  function PiecesOn(pieces: seq<string>, dateKey: string -> string, d: string): seq<string> {
    if pieces == [] then []
    else
      var last := pieces[|pieces| - 1];
      PiecesOn(pieces[..|pieces| - 1], dateKey, d) + (if dateKey(last) == d then [last] else [])
  }

  lemma DatesOfAddPiece(acc: seq<DateEntry>, cur: string, dateKey: string -> string)
    ensures Dates(AddPiece(acc, cur, dateKey)) ==
      if dateKey(cur) in Dates(acc) then Dates(acc) else Dates(acc) + [dateKey(cur)]
  {
    var d := dateKey(cur);
    match FindDate(acc, d)
    case Some(k) =>
      assert Dates(acc)[k] == d;
      assert Dates(AddPiece(acc, cur, dateKey)) == Dates(acc);
    case None =>
      assert d !in Dates(acc);
      assert Dates(AddPiece(acc, cur, dateKey)) == Dates(acc) + [d];
  }

  /** The groups' dates are the pieces' date keys, each once, in order of first appearance. */
  lemma {:induction false} GroupDates(pieces: seq<string>, dateKey: string -> string)
    ensures Dates(Group(pieces, dateKey)) == Dedupe(Keys(pieces, dateKey))
  {
    if pieces != [] {
      var q, c := pieces[..|pieces| - 1], pieces[|pieces| - 1];
      GroupDates(q, dateKey);
      DatesOfAddPiece(Group(q, dateKey), c, dateKey);
      var ks := Keys(pieces, dateKey);
      assert ks[..|ks| - 1] == Keys(q, dateKey);
    }
  }

  /** `deserialize` yields each date once, in the order the dates first appear in the string. */
  lemma DeserializeDates(s: string, dateKey: string -> string)
    requires s != ""
    ensures var r := Deserialize(s, dateKey); Dates(r) == Dedupe(Keys(Split(s, ';'), dateKey)) && UniqueDates(r)
  {
    var r := Deserialize(s, dateKey);
    GroupDates(Split(s, ';'), dateKey);
    assert NoDuplicates(Dates(r));
    forall i, j | 0 <= i < j < |r| ensures r[i].date != r[j].date {
      assert Dates(r)[i] == r[i].date && Dates(r)[j] == r[j].date;
    }
  }

  lemma {:induction false} PiecesOnNoKey(pieces: seq<string>, dateKey: string -> string, d: string)
    requires forall i :: 0 <= i < |pieces| ==> dateKey(pieces[i]) != d
    ensures PiecesOn(pieces, dateKey, d) == []
  {
    if pieces != [] {
      PiecesOnNoKey(pieces[..|pieces| - 1], dateKey, d);
    }
  }

  lemma PiecesOnSnoc(q: seq<string>, c: string, dateKey: string -> string, d: string)
    ensures PiecesOn(q + [c], dateKey, d) == PiecesOn(q, dateKey, d) + (if dateKey(c) == d then [c] else [])
  {
    assert (q + [c])[..|q|] == q;
  }

  /** Each group lists the pieces with its date. */
  predicate GroupsHoldTheirPieces(g: seq<DateEntry>, pieces: seq<string>, dateKey: string -> string) {
    forall i :: 0 <= i < |g| ==> g[i].time == PiecesOn(pieces, dateKey, g[i].date)
  }

  /** One reduce step keeps every group equal to the pieces on its date. */
  lemma AddPieceHoldsPieces(g: seq<DateEntry>, q: seq<string>, c: string, dateKey: string -> string)
    requires GroupsHoldTheirPieces(g, q, dateKey)
    requires Dates(g) == Dedupe(Keys(q, dateKey))
    ensures GroupsHoldTheirPieces(AddPiece(g, c, dateKey), q + [c], dateKey)
  {
    var d := dateKey(c);
    var g2 := AddPiece(g, c, dateKey);
    assert NoDuplicates(Dates(g));
    match FindDate(g, d)
    case Some(k) =>
      forall i | 0 <= i < |g2| ensures g2[i].time == PiecesOn(q + [c], dateKey, g2[i].date) {
        PiecesOnSnoc(q, c, dateKey, g2[i].date);
        if i != k {
          assert Dates(g)[i] != Dates(g)[k];
        }
      }
    case None =>
      assert d !in Dates(g);
      forall j | 0 <= j < |q| ensures dateKey(q[j]) != d {
        assert Keys(q, dateKey)[j] in Dedupe(Keys(q, dateKey));
      }
      PiecesOnNoKey(q, dateKey, d);
      forall i | 0 <= i < |g2| ensures g2[i].time == PiecesOn(q + [c], dateKey, g2[i].date) {
        PiecesOnSnoc(q, c, dateKey, g2[i].date);
      }
  }

  /** Every group holds exactly the pieces with its date, in input order. */
  lemma {:induction false} GroupTimes(pieces: seq<string>, dateKey: string -> string)
    ensures GroupsHoldTheirPieces(Group(pieces, dateKey), pieces, dateKey)
  {
    if pieces != [] {
      var q, c := pieces[..|pieces| - 1], pieces[|pieces| - 1];
      assert pieces == q + [c];
      GroupTimes(q, dateKey);
      GroupDates(q, dateKey);
      AddPieceHoldsPieces(Group(q, dateKey), q, c, dateKey);
    }
  }

  lemma {:induction false} AllTimesAppend(a: seq<DateEntry>, b: seq<DateEntry>)
    ensures AllTimes(a + b) == AllTimes(a) + AllTimes(b)
  {
    if a == [] {
      assert a + b == b;
    } else {
      assert (a + b)[1..] == a[1..] + b;
      AllTimesAppend(a[1..], b);
    }
  }

  lemma AllTimesOfAddPiece(acc: seq<DateEntry>, cur: string, dateKey: string -> string)
    ensures multiset(AllTimes(AddPiece(acc, cur, dateKey))) == multiset(AllTimes(acc)) + multiset{cur}
  {
    match FindDate(acc, dateKey(cur))
    case Some(k) =>
      var e := acc[k].(time := acc[k].time + [cur]);
      assert acc == acc[..k] + [acc[k]] + acc[k + 1..];
      assert acc[k := e] == acc[..k] + [e] + acc[k + 1..];
      AllTimesAppend(acc[..k] + [acc[k]], acc[k + 1..]);
      AllTimesAppend(acc[..k], [acc[k]]);
      AllTimesAppend(acc[..k] + [e], acc[k + 1..]);
      AllTimesAppend(acc[..k], [e]);
      assert AllTimes([e]) == e.time;
      assert AllTimes([acc[k]]) == acc[k].time;
    case None =>
      AllTimesAppend(acc, [DateEntry(dateKey(cur), [cur])]);
      assert AllTimes([DateEntry(dateKey(cur), [cur])]) == [cur];
  }

  /** Grouping neither loses nor invents a piece: the same multiset, so the same count. */
  lemma {:induction false} GroupKeepsPieces(pieces: seq<string>, dateKey: string -> string)
    ensures multiset(AllTimes(Group(pieces, dateKey))) == multiset(pieces)
    ensures |AllTimes(Group(pieces, dateKey))| == |pieces|
  {
    if pieces != [] {
      var q, c := pieces[..|pieces| - 1], pieces[|pieces| - 1];
      assert pieces == q + [c];
      GroupKeepsPieces(q, dateKey);
      AllTimesOfAddPiece(Group(q, dateKey), c, dateKey);
    }
    assert |multiset(AllTimes(Group(pieces, dateKey)))| == |multiset(pieces)|;
  }

  lemma {:induction false} NonEmptyOfNonEmpty(xs: seq<string>)
    requires forall i :: 0 <= i < |xs| ==> xs[i] != ""
    ensures NonEmpty(xs) == xs
  {
    if xs != [] {
      var tail := xs[1..];
      assert forall i :: 0 <= i < |tail| ==> tail[i] == xs[i + 1];
      NonEmptyOfNonEmpty(tail);
      assert xs[0] != "";
      assert NonEmpty(xs) == [xs[0]] + NonEmpty(tail);
      assert xs == [xs[0]] + tail;
    }
  }

  /** Serialising what was deserialised gives the string back, when its pieces are non-empty and sorted. */
  lemma SerializeDeserialize(s: string, dateKey: string -> string)
    requires forall i :: 0 <= i < |Split(s, ';')| ==> Split(s, ';')[i] != ""
    requires SortedStrings(Split(s, ';'))
    ensures Serialize(Deserialize(s, dateKey)) == s
  {
    var pieces := Split(s, ';');
    var g := Group(pieces, dateKey);
    assert Deserialize(s, dateKey) == g;
    GroupKeepsPieces(pieces, dateKey);
    var all := AllTimes(g);
    forall i | 0 <= i < |all| ensures all[i] != "" {
      assert all[i] in multiset(pieces);
    }
    NonEmptyOfNonEmpty(all);
    SortedUnique(SerializedPieces(g), pieces);
    JoinSplit(s, ';');
  }
}
