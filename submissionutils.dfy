/**
 * The submission helpers of the backend: reshaping search hits, the one-day
 * agenda window and its sort, the start/end time filter and the
 * affiliation suggestions.
 */
module SubmissionUtils {
  import opened Wrappers
  import opened Values
  import opened Seqs

  /** A search hit: its `_id`, its `_score` and its `_source` document. */
  datatype EsHit = EsHit(id: string, score: Value, source: Record)

  /** Why a computation over hits raises. */
  datatype TimeError =
    | Unparsable     // `pd.to_datetime` raises
    | MissingKey     // `hit["starttime"]` or `hit["endtime"]` raises `KeyError`
    | NoneBound      // `None.tzinfo` raises `AttributeError`

  // ---------------------------------------------------------------------
  // convert_es_responses_to_list
  // ---------------------------------------------------------------------

  /** A hit's document with `score` and `submission_id` taken from the hit. */
  function Reshape(h: EsHit): (r: Record)
    ensures r.Keys == h.source.Keys + {"score", "submission_id"}
    ensures r["score"] == h.score
    ensures r["submission_id"] == Str(h.id)
    ensures forall k :: k in h.source && k != "score" && k != "submission_id" ==> r[k] == h.source[k]
  {
    h.source["score" := h.score]["submission_id" := Str(h.id)]
  }

  /** One reshaped document per hit, in the order of the hits. */
  method ConvertEsResponses(responses: seq<EsHit>) returns (submissions: seq<Record>)
    ensures |submissions| == |responses|
    ensures forall i :: 0 <= i < |responses| ==> submissions[i] == Reshape(responses[i])
  {
    submissions := [];
    var i := 0;
    while i < |responses|
      invariant 0 <= i <= |responses|
      invariant |submissions| == i
      invariant forall j :: 0 <= j < i ==> submissions[j] == Reshape(responses[j])
    {
      submissions := submissions + [Reshape(responses[i])];
      i := i + 1;
    }
  }

  // ---------------------------------------------------------------------
  // get_agenda
  // ---------------------------------------------------------------------

  /** `hit.get("starttime") is not None and hit.get("endtime") is not None`. */
  predicate HasTimes(h: Record) {
    "starttime" in h && h["starttime"] != Null && "endtime" in h && h["endtime"] != Null
  }

  /** `convert_utc(starttime)` and `startday + 1 day - 1 minute`; `NaT` stays `NaT`. */
  function DayWindow(starttime: string, clock: Clock): Result<(Time, Time), TimeError> {
    match clock.parse(Str(starttime))
    case None => Err(Unparsable)
    case Some(NaT) => Ok((NaT, NaT))
    case Some(At(m)) => Ok((At(m), At(m + DayMinusMinute)))
  }

  /** A kept hit with both times replaced by their ISO text. */
  function Stamped(h: Record, start: int, end: int, clock: Clock): Record {
    h["starttime" := Str(clock.iso(start))]["endtime" := Str(clock.iso(end))]
  }

  /** The hit has both times, they parse, and they lie within the day starting at minute `m`. */
  predicate InDay(h: Record, m: int, clock: Clock) {
    HasTimes(h)
    && clock.parse(h["starttime"]).Some? && clock.parse(h["endtime"]).Some?
    && TimeLe(At(m), clock.parse(h["starttime"]).value)
    && TimeLe(clock.parse(h["endtime"]).value, At(m + DayMinusMinute))
  }

  /** What the loop body of `get_agenda` does with one hit: nothing, keep it, or raise. */
  function AgendaStep(h: Record, starttime: Option<string>, clock: Clock): Result<Option<Record>, TimeError> {
    if !HasTimes(h) then Ok(None)
    else
      var ds := clock.parse(h["starttime"]);
      var de := clock.parse(h["endtime"]);
      if ds.None? || de.None? then Err(Unparsable)
      else if starttime.None? then Ok(Some(h))
      else
        var window :- DayWindow(starttime.value, clock);
        if TimeLe(window.0, ds.value) && TimeLe(de.value, window.1) then
          Ok(Some(Stamped(h, ds.value.minute, de.value.minute, clock)))
        else
          Ok(None)
  }

  /** The agenda before sorting: the kept hits in the order of the scan. */
  function AgendaFilter(hits: seq<Record>, starttime: Option<string>, clock: Clock): (r: Result<seq<Record>, TimeError>)
    ensures r.Ok? ==> |r.value| <= |hits|
  {
    if hits == [] then Ok([])
    else
      var kept :- AgendaFilter(hits[..|hits| - 1], starttime, clock);
      var step :- AgendaStep(hits[|hits| - 1], starttime, clock);
      Ok(if step.Some? then kept + [step.value] else kept)
  }

  /** The time a record's `starttime` parses to, `NaT` when it is missing or does not parse. */
  function StartOf(x: Record, clock: Clock): Time {
    if "starttime" in x && clock.parse(x["starttime"]).Some? then clock.parse(x["starttime"]).value else NaT
  }

  /** Each pair's key is the time its record's `starttime` parses to. */
  predicate KeyedByStart(p: seq<(Time, Record)>, clock: Clock) {
    forall i :: 0 <= i < |p| ==> StartOf(p[i].1, clock) == p[i].0
  }

  /** The sort keys `pd.to_datetime(x["starttime"])`, computed in order before sorting; `NaT` is a key like any other. */
  function SortKeys(agenda: seq<Record>, clock: Clock): (r: Result<seq<(Time, Record)>, TimeError>)
    ensures r.Ok? ==> Seconds(r.value) == agenda && KeyedByStart(r.value, clock)
    ensures r.Ok? <==> forall i :: 0 <= i < |agenda| ==> "starttime" in agenda[i] && clock.parse(agenda[i]["starttime"]).Some?
  {
    if agenda == [] then Ok([])
    else
      var front :- SortKeys(agenda[..|agenda| - 1], clock);
      var x := agenda[|agenda| - 1];
      if "starttime" !in x then Err(MissingKey)
      else
        match clock.parse(x["starttime"])
        case None => Err(Unparsable)
        case Some(t) =>
          assert agenda == agenda[..|agenda| - 1] + [x];
          Ok(front + [(t, x)])
  }

  /**
   * Inserting one keyed record: it goes before the first pair whose key is
   * not less than its own, where every comparison with `NaT` is false.
   */
  function InsertByStart(x: (Time, Record), s: seq<(Time, Record)>): (r: seq<(Time, Record)>)
    ensures |r| == |s| + 1 && (r[0] == x || (s != [] && r[0] == s[0]))
  {
    if s == [] then [x]
    else if TimeLt(s[0].0, x.0) then [s[0]] + InsertByStart(x, s[1..])
    else [x] + s
  }

  /** `sorted(agenda, key=...)` as a stable insertion sort on the keys. */
  function SortByStart(p: seq<(Time, Record)>): seq<(Time, Record)> {
    if p == [] then [] else InsertByStart(p[0], SortByStart(p[1..]))
  }

  /** Every key is a time, none is `NaT`. */
  predicate AllTimed(p: seq<(Time, Record)>) {
    forall i :: 0 <= i < |p| ==> p[i].0.At?
  }

  /** Keys in non-decreasing order. */
  predicate SortedByStart(p: seq<(Time, Record)>) {
    forall i, j :: 0 <= i < j < |p| ==> TimeLe(p[i].0, p[j].0)
  }

  /** The pairs whose key is `k`, in order. */
  function WithKey(p: seq<(Time, Record)>, k: Time): seq<(Time, Record)> {
    if p == [] then [] else (if p[0].0 == k then [p[0]] else []) + WithKey(p[1..], k)
  }

  lemma {:induction false} InsertByStartPermutes(x: (Time, Record), s: seq<(Time, Record)>)
    ensures multiset(InsertByStart(x, s)) == multiset(s) + multiset{x}
  {
    if s != [] && TimeLt(s[0].0, x.0) {
      InsertByStartPermutes(x, s[1..]);
      assert s == [s[0]] + s[1..];
    }
  }

  /** The sort only reorders. */
  lemma {:induction false} SortByStartPermutes(p: seq<(Time, Record)>)
    ensures multiset(SortByStart(p)) == multiset(p)
  {
    if p != [] {
      SortByStartPermutes(p[1..]);
      InsertByStartPermutes(p[0], SortByStart(p[1..]));
      assert p == [p[0]] + p[1..];
    }
  }

  lemma SortedByStartCons(a: (Time, Record), t: seq<(Time, Record)>)
    requires SortedByStart(t) && AllTimed(t) && a.0.At? && (t == [] || TimeLe(a.0, t[0].0))
    ensures SortedByStart([a] + t)
  {
    var r := [a] + t;
    forall i, j | 0 <= i < j < |r| ensures TimeLe(r[i].0, r[j].0) {
      if i > 0 {
        assert r[i] == t[i - 1] && r[j] == t[j - 1];
      } else {
        assert r[j] == t[j - 1];
        assert TimeLe(t[0].0, t[j - 1].0) || j == 1;
      }
    }
  }

  /** Inserting a timed pair into timed pairs in order keeps them in order. */
  lemma {:induction false} InsertByStartSorted(x: (Time, Record), s: seq<(Time, Record)>)
    requires SortedByStart(s) && AllTimed(s) && x.0.At?
    ensures SortedByStart(InsertByStart(x, s)) && AllTimed(InsertByStart(x, s))
  {
    InsertByStartPermutes(x, s);
    assert multiset(s + [x]) == multiset(s) + multiset{x};
    TimedPermuted(InsertByStart(x, s), s + [x]);
    if s != [] && TimeLt(s[0].0, x.0) {
      var t := InsertByStart(x, s[1..]);
      InsertByStartSorted(x, s[1..]);
      SortedByStartCons(s[0], t);
    } else if s != [] {
      SortedByStartCons(x, s);
    }
  }

  /** A reordering of timed pairs is timed. */
  lemma TimedPermuted(p: seq<(Time, Record)>, q: seq<(Time, Record)>)
    requires multiset(p) == multiset(q) && AllTimed(q)
    ensures AllTimed(p)
  {
    forall i | 0 <= i < |p| ensures p[i].0.At? {
      assert p[i] in multiset(q);
    }
  }

  /** With every key a time, the sort puts the keys in non-decreasing order. */
  lemma {:induction false} SortByStartSorted(p: seq<(Time, Record)>)
    requires AllTimed(p)
    ensures SortedByStart(SortByStart(p)) && AllTimed(SortByStart(p))
  {
    if p != [] {
      SortByStartSorted(p[1..]);
      InsertByStartSorted(p[0], SortByStart(p[1..]));
    }
  }

  /** Inserting adds `x` in front of the pairs with its key, and changes no other key's pairs. */
  lemma {:induction false} InsertByStartWithKey(x: (Time, Record), s: seq<(Time, Record)>, k: Time)
    ensures WithKey(InsertByStart(x, s), k) == (if x.0 == k then [x] else []) + WithKey(s, k)
  {
    if s != [] && TimeLt(s[0].0, x.0) {
      InsertByStartWithKey(x, s[1..], k);
      var r := InsertByStart(x, s);
      assert r[1..] == InsertByStart(x, s[1..]);
    } else if s != [] {
      assert ([x] + s)[1..] == s;
    }
  }

  /** The sort is stable: the pairs with any one key keep their order. */
  lemma {:induction false} SortByStartStable(p: seq<(Time, Record)>, k: Time)
    ensures WithKey(SortByStart(p), k) == WithKey(p, k)
  {
    if p != [] {
      SortByStartStable(p[1..], k);
      InsertByStartWithKey(p[0], SortByStart(p[1..]), k);
    }
  }

  /** `get_agenda`, given the scanned hits. */
  function Agenda(hits: seq<Record>, starttime: Option<string>, sort: bool, clock: Clock): Result<seq<Record>, TimeError> {
    var agenda :- AgendaFilter(hits, starttime, clock);
    if sort then
      var keyed :- SortKeys(agenda, clock);
      Ok(Seconds(SortByStart(keyed)))
    else
      Ok(agenda)
  }

  /** Once a prefix of the hits raises, the whole scan raises the same error. */
  lemma {:induction false} AgendaErrPersists(hits: seq<Record>, n: nat, starttime: Option<string>, clock: Clock)
    requires n <= |hits| && AgendaFilter(hits[..n], starttime, clock).Err?
    ensures AgendaFilter(hits, starttime, clock) == AgendaFilter(hits[..n], starttime, clock)
    decreases |hits| - n
  {
    if n < |hits| {
      assert hits[..n + 1][..n] == hits[..n];
      AgendaErrPersists(hits, n + 1, starttime, clock);
    } else {
      assert hits[..n] == hits;
    }
  }

  /** The loop of `get_agenda` appends each kept hit; raising stops it. */
  method GetAgenda(hits: seq<Record>, starttime: Option<string>, sort: bool, clock: Clock)
    returns (r: Result<seq<Record>, TimeError>)
    ensures r == Agenda(hits, starttime, sort, clock)
  {
    var agenda: seq<Record> := [];
    var i := 0;
    while i < |hits|
      invariant 0 <= i <= |hits|
      invariant AgendaFilter(hits[..i], starttime, clock) == Ok(agenda)
    {
      assert hits[..i + 1][..i] == hits[..i];
      var step := AgendaStep(hits[i], starttime, clock);
      if step.Err? {
        AgendaErrPersists(hits, i + 1, starttime, clock);
        return Err(step.error);
      }
      if step.value.Some? {
        agenda := agenda + [step.value.value];
      }
      i := i + 1;
    }
    assert hits[..|hits|] == hits;
    if sort {
      var keyed := SortKeys(agenda, clock);
      if keyed.Err? {
        return Err(keyed.error);
      }
      r := Ok(Seconds(SortByStart(keyed.value)));
    } else {
      r := Ok(agenda);
    }
  }

  /** A kept hit had both times, and so does what is kept of it. */
  lemma StepKeepsOnlyTimed(h: Record, starttime: Option<string>, clock: Clock)
    requires AgendaStep(h, starttime, clock).Ok? && AgendaStep(h, starttime, clock).value.Some?
    ensures HasTimes(h) && HasTimes(AgendaStep(h, starttime, clock).value.value)
  {
  }

  /** Without a start, a hit with both times is kept as it is, or the scan raises. */
  lemma StepWithoutStart(h: Record, clock: Clock)
    ensures HasTimes(h) && AgendaStep(h, None, clock).Ok? ==> AgendaStep(h, None, clock) == Ok(Some(h))
  {
  }

  /** With a start parsing to minute `m`, a hit is kept exactly when it lies within that day, with ISO times. */
  lemma StepInDay(h: Record, st: string, m: int, clock: Clock)
    requires clock.parse(Str(st)) == Some(At(m))
    ensures InDay(h, m, clock) ==>
      AgendaStep(h, Some(st), clock)
        == Ok(Some(Stamped(h, clock.parse(h["starttime"]).value.minute, clock.parse(h["endtime"]).value.minute, clock)))
    ensures AgendaStep(h, Some(st), clock).Ok? && AgendaStep(h, Some(st), clock).value.Some? ==> InDay(h, m, clock)
  {
  }

  /** Every agenda entry is what the loop body made of some hit. */
  lemma {:induction false} AgendaFromHits(hits: seq<Record>, starttime: Option<string>, clock: Clock)
    requires AgendaFilter(hits, starttime, clock).Ok?
    ensures forall i :: 0 <= i < |AgendaFilter(hits, starttime, clock).value| ==>
      exists j :: 0 <= j < |hits| && AgendaStep(hits[j], starttime, clock) == Ok(Some(AgendaFilter(hits, starttime, clock).value[i]))
  {
    if hits != [] {
      var front := hits[..|hits| - 1];
      AgendaFromHits(front, starttime, clock);
      assert forall j :: 0 <= j < |front| ==> front[j] == hits[j];
    }
  }

  /** Every hit the loop body keeps is in the agenda, and no hit raised. */
  lemma {:induction false} AgendaKeepsHits(hits: seq<Record>, starttime: Option<string>, clock: Clock)
    requires AgendaFilter(hits, starttime, clock).Ok?
    ensures forall j :: 0 <= j < |hits| ==> AgendaStep(hits[j], starttime, clock).Ok?
    ensures forall j :: 0 <= j < |hits| && AgendaStep(hits[j], starttime, clock).value.Some? ==>
      AgendaStep(hits[j], starttime, clock).value.value in AgendaFilter(hits, starttime, clock).value
  {
    if hits != [] {
      var front := hits[..|hits| - 1];
      AgendaKeepsHits(front, starttime, clock);
      assert forall j :: 0 <= j < |front| ==> front[j] == hits[j];
    }
  }

  /** The agenda holds only hits that had both a start and an end time. */
  lemma AgendaOnlyTimed(hits: seq<Record>, starttime: Option<string>, clock: Clock)
    requires AgendaFilter(hits, starttime, clock).Ok?
    ensures forall x :: x in AgendaFilter(hits, starttime, clock).value ==> HasTimes(x)
  {
    AgendaFromHits(hits, starttime, clock);
  }

  /** With a start given, the agenda is the in-day hits, with their times in ISO form. */
  lemma AgendaWithinDay(hits: seq<Record>, st: string, m: int, clock: Clock)
    requires clock.parse(Str(st)) == Some(At(m))
    requires AgendaFilter(hits, Some(st), clock).Ok?
    ensures forall x :: x in AgendaFilter(hits, Some(st), clock).value ==>
      exists j :: 0 <= j < |hits| && InDay(hits[j], m, clock) && AgendaStep(hits[j], Some(st), clock) == Ok(Some(x))
    ensures forall j :: 0 <= j < |hits| && InDay(hits[j], m, clock) ==>
      Stamped(hits[j], clock.parse(hits[j]["starttime"]).value.minute, clock.parse(hits[j]["endtime"]).value.minute, clock)
        in AgendaFilter(hits, Some(st), clock).value
  {
    AgendaFromHits(hits, Some(st), clock);
    AgendaKeepsHits(hits, Some(st), clock);
    forall j | 0 <= j < |hits| {
      StepInDay(hits[j], st, m, clock);
    }
  }

  /** Non-decreasing by start time; every start time is a real time. */
  predicate StartOrdered(r: seq<Record>, clock: Clock) {
    forall i, j :: 0 <= i <= j < |r| ==> TimeLe(StartOf(r[i], clock), StartOf(r[j], clock))
  }

  /** The records whose start is `k`, in order. */
  function StartingAt(r: seq<Record>, k: Time, clock: Clock): seq<Record> {
    if r == [] then [] else (if StartOf(r[0], clock) == k then [r[0]] else []) + StartingAt(r[1..], k, clock)
  }

  lemma KeyedByStartPermuted(p: seq<(Time, Record)>, q: seq<(Time, Record)>, clock: Clock)
    requires KeyedByStart(p, clock) && multiset(q) == multiset(p)
    ensures KeyedByStart(q, clock)
  {
    forall i | 0 <= i < |q| ensures StartOf(q[i].1, clock) == q[i].0 {
      assert q[i] in multiset(p);
    }
  }

  /** Selecting one key commutes with dropping the keys. */
  lemma {:induction false} WithKeySeconds(p: seq<(Time, Record)>, k: Time, clock: Clock)
    requires KeyedByStart(p, clock)
    ensures Seconds(WithKey(p, k)) == StartingAt(Seconds(p), k, clock)
  {
    if p != [] {
      WithKeySeconds(p[1..], k, clock);
      assert Seconds(p)[1..] == Seconds(p[1..]);
      var head := if p[0].0 == k then [p[0]] else [];
      assert Seconds(head + WithKey(p[1..], k)) == Seconds(head) + Seconds(WithKey(p[1..], k));
    }
  }

  /**
   * The sorted agenda is a reordering of the kept hits; when every start is a
   * time, it is in non-decreasing start order.
   */
  lemma AgendaSorted(hits: seq<Record>, starttime: Option<string>, clock: Clock)
    requires Agenda(hits, starttime, true, clock).Ok?
    ensures AgendaFilter(hits, starttime, clock).Ok?
    ensures multiset(Agenda(hits, starttime, true, clock).value) == multiset(AgendaFilter(hits, starttime, clock).value)
    ensures (forall x :: x in AgendaFilter(hits, starttime, clock).value ==> StartOf(x, clock).At?) ==>
      StartOrdered(Agenda(hits, starttime, true, clock).value, clock)
  {
    var agenda := AgendaFilter(hits, starttime, clock).value;
    var keyed := SortKeys(agenda, clock).value;
    var sorted := SortByStart(keyed);
    assert Agenda(hits, starttime, true, clock).value == Seconds(sorted);
    SortByStartPermutes(keyed);
    MultisetSeconds(sorted, keyed);
    if forall x :: x in agenda ==> StartOf(x, clock).At? {
      forall i | 0 <= i < |keyed| ensures keyed[i].0.At? {
        assert keyed[i].1 == agenda[i];
      }
      SortByStartSorted(keyed);
      KeyedByStartPermuted(keyed, sorted, clock);
      KeyedSortedIsStartOrdered(sorted, clock);
    }
  }

  /** The sort is stable: hits with the same start, `NaT` included, keep their scan order. */
  lemma AgendaSortStable(hits: seq<Record>, starttime: Option<string>, clock: Clock, k: Time)
    requires Agenda(hits, starttime, true, clock).Ok?
    ensures AgendaFilter(hits, starttime, clock).Ok?
    ensures StartingAt(Agenda(hits, starttime, true, clock).value, k, clock)
      == StartingAt(AgendaFilter(hits, starttime, clock).value, k, clock)
  {
    var agenda := AgendaFilter(hits, starttime, clock).value;
    var keyed := SortKeys(agenda, clock).value;
    var sorted := SortByStart(keyed);
    assert Agenda(hits, starttime, true, clock).value == Seconds(sorted);
    SortByStartPermutes(keyed);
    KeyedByStartPermuted(keyed, sorted, clock);
    WithKeySeconds(sorted, k, clock);
    WithKeySeconds(keyed, k, clock);
    SortByStartStable(keyed, k);
  }

  /** Records keyed by their start and sorted by key are in start order. */
  lemma KeyedSortedIsStartOrdered(p: seq<(Time, Record)>, clock: Clock)
    requires KeyedByStart(p, clock) && SortedByStart(p) && AllTimed(p)
    ensures StartOrdered(Seconds(p), clock)
  {
    var r := Seconds(p);
    forall i, j | 0 <= i <= j < |r| ensures TimeLe(StartOf(r[i], clock), StartOf(r[j], clock)) {
      assert StartOf(r[i], clock) == p[i].0 && StartOf(r[j], clock) == p[j].0;
    }
  }

  lemma {:induction false} SortKeysSucceeds(agenda: seq<Record>, clock: Clock)
    requires forall i :: 0 <= i < |agenda| ==> StartOf(agenda[i], clock).At?
    ensures SortKeys(agenda, clock).Ok?
  {
    if agenda != [] {
      SortKeysSucceeds(agenda[..|agenda| - 1], clock);
    }
  }

  /**
   * When the clock reads back the ISO text it writes, an agenda with a start
   * given always sorts: every kept hit carries its start in ISO form.
   */
  lemma AgendaWithStartSorts(hits: seq<Record>, st: string, clock: Clock)
    requires forall t :: clock.parse(Str(clock.iso(t))) == Some(At(t))
    requires AgendaFilter(hits, Some(st), clock).Ok?
    ensures Agenda(hits, Some(st), true, clock).Ok?
    ensures StartOrdered(Agenda(hits, Some(st), true, clock).value, clock)
  {
    var agenda := AgendaFilter(hits, Some(st), clock).value;
    AgendaFromHits(hits, Some(st), clock);
    forall i | 0 <= i < |agenda| ensures StartOf(agenda[i], clock).At? {
      var j :| 0 <= j < |hits| && AgendaStep(hits[j], Some(st), clock) == Ok(Some(agenda[i]));
      var ds := clock.parse(hits[j]["starttime"]).value;
      assert agenda[i]["starttime"] == Str(clock.iso(ds.minute));
    }
    SortKeysSucceeds(agenda, clock);
    AgendaSorted(hits, Some(st), clock);
  }

  // ---------------------------------------------------------------------
  // filter_startend_time
  // ---------------------------------------------------------------------

  /** `bound in ["", None]`. */
  predicate IsEmptyBound(b: Option<string>) {
    b.None? || b.value == ""
  }

  /** `pd.to_datetime(bound)`: `None` passes through, a string parses or raises. */
  function ParseBound(b: Option<string>, clock: Clock): Result<Option<Time>, TimeError> {
    match b
    case None => Ok(None)
    case Some(s) =>
      match clock.parse(Str(s))
      case None => Err(Unparsable)
      case Some(t) => Ok(Some(t))
  }

  /** The loop test: the start is read and compared first, the end only when the start passes. */
  function HitWithin(h: Record, lo: Time, hi: Time, clock: Clock): Result<bool, TimeError> {
    if "starttime" !in h then Err(MissingKey)
    else
      match clock.parse(h["starttime"])
      case None => Err(Unparsable)
      case Some(ds) =>
        if !TimeLe(lo, ds) then Ok(false)
        else if "endtime" !in h then Err(MissingKey)
        else
          match clock.parse(h["endtime"])
          case None => Err(Unparsable)
          case Some(de) => Ok(TimeLe(de, hi))
  }

  /** The filtering loop over parsed bounds. */
  function WindowFilter(responses: seq<Record>, lo: Time, hi: Time, clock: Clock): Result<seq<Record>, TimeError> {
    if responses == [] then Ok([])
    else
      var kept :- WindowFilter(responses[..|responses| - 1], lo, hi, clock);
      var h := responses[|responses| - 1];
      var keep :- HitWithin(h, lo, hi, clock);
      Ok(if keep then kept + [h] else kept)
  }

  /** `filter_startend_time`. */
  function TimeFilter(responses: seq<Record>, starttime: Option<string>, endtime: Option<string>, clock: Clock)
    : Result<seq<Record>, TimeError>
  {
    if IsEmptyBound(starttime) && IsEmptyBound(endtime) then Ok(responses)
    else
      var lo :- ParseBound(starttime, clock);
      var hi :- ParseBound(endtime, clock);
      if lo.None? || hi.None? then Err(NoneBound)
      else WindowFilter(responses, lo.value, hi.value, clock)
  }

  lemma {:induction false} WindowErrPersists(responses: seq<Record>, n: nat, lo: Time, hi: Time, clock: Clock)
    requires n <= |responses| && WindowFilter(responses[..n], lo, hi, clock).Err?
    ensures WindowFilter(responses, lo, hi, clock) == WindowFilter(responses[..n], lo, hi, clock)
    decreases |responses| - n
  {
    if n < |responses| {
      assert responses[..n + 1][..n] == responses[..n];
      WindowErrPersists(responses, n + 1, lo, hi, clock);
    } else {
      assert responses[..n] == responses;
    }
  }

  /** The loop of `filter_startend_time`; both bounds empty returns the input itself. */
  method FilterStartEnd(responses: seq<Record>, starttime: Option<string>, endtime: Option<string>, clock: Clock)
    returns (r: Result<seq<Record>, TimeError>)
    ensures r == TimeFilter(responses, starttime, endtime, clock)
    ensures IsEmptyBound(starttime) && IsEmptyBound(endtime) ==> r == Ok(responses)
  {
    if IsEmptyBound(starttime) && IsEmptyBound(endtime) {
      return Ok(responses);
    }
    var lo := ParseBound(starttime, clock);
    if lo.Err? {
      return Err(lo.error);
    }
    var hi := ParseBound(endtime, clock);
    if hi.Err? {
      return Err(hi.error);
    }
    if lo.value.None? || hi.value.None? {
      return Err(NoneBound);
    }
    var submissions: seq<Record> := [];
    var i := 0;
    while i < |responses|
      invariant 0 <= i <= |responses|
      invariant WindowFilter(responses[..i], lo.value.value, hi.value.value, clock) == Ok(submissions)
    {
      assert responses[..i + 1][..i] == responses[..i];
      var keep := HitWithin(responses[i], lo.value.value, hi.value.value, clock);
      if keep.Err? {
        WindowErrPersists(responses, i + 1, lo.value.value, hi.value.value, clock);
        return Err(keep.error);
      }
      if keep.value {
        submissions := submissions + [responses[i]];
      }
      i := i + 1;
    }
    assert responses[..|responses|] == responses;
    r := Ok(submissions);
  }

  /** The hits within the bounds, read from the front: the filter stated independently of the loop. */
  function Within(responses: seq<Record>, lo: Time, hi: Time, clock: Clock): seq<Record> {
    if responses == [] then []
    else (if HitWithin(responses[0], lo, hi, clock) == Ok(true) then [responses[0]] else []) + Within(responses[1..], lo, hi, clock)
  }

  lemma {:induction false} WithinSnoc(a: seq<Record>, h: Record, lo: Time, hi: Time, clock: Clock)
    ensures Within(a + [h], lo, hi, clock) == Within(a, lo, hi, clock) + (if HitWithin(h, lo, hi, clock) == Ok(true) then [h] else [])
  {
    if a != [] {
      var ah := a + [h];
      assert ah[0] == a[0] && ah[1..] == a[1..] + [h];
      var head := if HitWithin(a[0], lo, hi, clock) == Ok(true) then [a[0]] else [];
      assert Within(ah, lo, hi, clock) == head + Within(a[1..] + [h], lo, hi, clock);
      assert Within(a, lo, hi, clock) == head + Within(a[1..], lo, hi, clock);
      WithinSnoc(a[1..], h, lo, hi, clock);
    } else {
      assert [h][1..] == [];
    }
  }

  /**
   * The filter keeps exactly the hits whose start and end fall within the
   * bounds, each as often as it occurs, in their original order, and no hit
   * raised.
   */
  lemma WindowFilterExact(responses: seq<Record>, lo: Time, hi: Time, clock: Clock)
    requires WindowFilter(responses, lo, hi, clock).Ok?
    ensures Subsequence(WindowFilter(responses, lo, hi, clock).value, responses)
    ensures forall i :: 0 <= i < |responses| ==> HitWithin(responses[i], lo, hi, clock).Ok?
    ensures forall x :: x in WindowFilter(responses, lo, hi, clock).value <==>
      x in responses && HitWithin(x, lo, hi, clock) == Ok(true)
    ensures WindowFilter(responses, lo, hi, clock).value == Within(responses, lo, hi, clock)
  {
    WindowFilterSound(responses, lo, hi, clock);
    WindowFilterIsWithin(responses, lo, hi, clock);
  }

  lemma {:induction false} WindowFilterSound(responses: seq<Record>, lo: Time, hi: Time, clock: Clock)
    requires WindowFilter(responses, lo, hi, clock).Ok?
    ensures Subsequence(WindowFilter(responses, lo, hi, clock).value, responses)
    ensures forall i :: 0 <= i < |responses| ==> HitWithin(responses[i], lo, hi, clock).Ok?
    ensures forall x :: x in WindowFilter(responses, lo, hi, clock).value <==>
      x in responses && HitWithin(x, lo, hi, clock) == Ok(true)
  {
    if responses != [] {
      var front := responses[..|responses| - 1];
      var h := responses[|responses| - 1];
      assert responses == front + [h];
      WindowFilterSound(front, lo, hi, clock);
      var kept := WindowFilter(front, lo, hi, clock).value;
      var keep := HitWithin(h, lo, hi, clock).value;
      assert WindowFilter(responses, lo, hi, clock).value == if keep then kept + [h] else kept;
      SubsequenceSnoc(kept, front, h, keep);
      forall i | 0 <= i < |responses| ensures HitWithin(responses[i], lo, hi, clock).Ok? {
        if i < |front| {
          assert responses[i] == front[i];
        }
      }
    }
  }

  lemma {:induction false} WindowFilterIsWithin(responses: seq<Record>, lo: Time, hi: Time, clock: Clock)
    requires WindowFilter(responses, lo, hi, clock).Ok?
    ensures WindowFilter(responses, lo, hi, clock).value == Within(responses, lo, hi, clock)
  {
    if responses != [] {
      var front := responses[..|responses| - 1];
      var h := responses[|responses| - 1];
      assert responses == front + [h];
      assert front == responses[..|responses| - 1];
      var kept := WindowFilter(front, lo, hi, clock).value;
      assert WindowFilter(responses, lo, hi, clock).value
        == kept + (if HitWithin(h, lo, hi, clock) == Ok(true) then [h] else []);
      WindowFilterIsWithin(front, lo, hi, clock);
      WithinSnoc(front, h, lo, hi, clock);
    }
  }

  /** A bound that parses to `NaT` lets no hit through. */
  lemma {:induction false} NaTBoundKeepsNothing(responses: seq<Record>, lo: Time, hi: Time, clock: Clock)
    requires lo == NaT || hi == NaT
    ensures WindowFilter(responses, lo, hi, clock).Err? || WindowFilter(responses, lo, hi, clock) == Ok([])
  {
    if responses != [] {
      NaTBoundKeepsNothing(responses[..|responses| - 1], lo, hi, clock);
    }
  }

  /** One empty string bound beside a real one: when `""` parses to `NaT`, nothing is kept. */
  lemma EmptyStringBoundKeepsNothing(responses: seq<Record>, endtime: string, clock: Clock)
    requires clock.parse(Str("")) == Some(NaT) && endtime != ""
    ensures TimeFilter(responses, Some(""), Some(endtime), clock).Err?
      || TimeFilter(responses, Some(""), Some(endtime), clock) == Ok([])
  {
    var hi := ParseBound(Some(endtime), clock);
    if hi.Ok? {
      NaTBoundKeepsNothing(responses, NaT, hi.value.value, clock);
    }
  }

  // ---------------------------------------------------------------------
  // query_affiliations
  // ---------------------------------------------------------------------

  /** The `Name` of every hit's document, in order; `KeyError` when one lacks it. */
  function SuggestionNames(responses: seq<EsHit>, show: Value -> string): (r: Option<seq<string>>)
    ensures r.Some? <==> forall i :: 0 <= i < |responses| ==> "Name" in responses[i].source
    ensures r.Some? ==> |r.value| == |responses|
    ensures r.Some? ==> forall i :: 0 <= i < |responses| ==> r.value[i] == PyStr(responses[i].source["Name"], show)
  {
    if responses == [] then Some([])
    else
      var front := SuggestionNames(responses[..|responses| - 1], show);
      var h := responses[|responses| - 1];
      assert forall i :: 0 <= i < |responses| - 1 ==> responses[..|responses| - 1][i] == responses[i];
      if front.None? || "Name" !in h.source then None
      else Some(front.value + [PyStr(h.source["Name"], show)])
  }

  /** `list(pd.unique(query_suggestions))`. */
  function QueryAffiliations(responses: seq<EsHit>, show: Value -> string): Option<seq<string>> {
    var names :- SuggestionNames(responses, show);
    Some(Dedupe(names))
  }

  /** Each name is suggested once, every name is suggested, in the order names first appear. */
  lemma AffiliationsDeduplicated(responses: seq<EsHit>, show: Value -> string)
    requires QueryAffiliations(responses, show).Some?
    ensures NoDuplicates(QueryAffiliations(responses, show).value)
    ensures forall x :: x in QueryAffiliations(responses, show).value <==> x in SuggestionNames(responses, show).value
    ensures forall i, j :: 0 <= i < j < |QueryAffiliations(responses, show).value| ==>
      FirstIndex(SuggestionNames(responses, show).value, QueryAffiliations(responses, show).value[i])
        < FirstIndex(SuggestionNames(responses, show).value, QueryAffiliations(responses, show).value[j])
  {
    DedupeKeepsFirstOccurrenceOrder(SuggestionNames(responses, show).value);
  }
}
