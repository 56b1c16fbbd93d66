/** frontend/src/pages/abstract-browser.js: the query string of the browse request, and local vote toggling. */
module AbstractBrowser {
  import opened Wrappers
  import opened Strings
  import opened Seqs

  /** `addParam(current, newParam)`: the first parameter opens with '?', later ones join with '&'. */
  function AddParam(current: string, newParam: string): string {
    if Contains(current, "?") then current + "&" + newParam else "?" + newParam
  }

  lemma ContainsQuestionMark(t: string)
    ensures Contains("?" + t, "?")
  {
    assert ("?" + t)[..1] == "?";
  }

  /** `addParam` on a string holding '?' appends '&' and the parameter. */
  lemma AddParamAppends(current: string, newParam: string)
    requires '?' in current
    ensures AddParam(current, newParam) == current + "&" + newParam
  {
    var k :| 0 <= k < |current| && current[k] == '?';
    ContainsAt(current, k);
  }

  lemma {:induction false} ContainsAt(s: string, k: nat)
    requires k < |s| && s[k] == '?'
    ensures Contains(s, "?")
  {
    if k > 0 && s[..1] != "?" {
      ContainsAt(s[1..], k - 1);
    }
  }

  lemma {:induction false} ContainsMeansIn(s: string)
    requires Contains(s, "?")
    ensures '?' in s
  {
    if s[..1] != "?" {
      ContainsMeansIn(s[1..]);
    } else {
      assert s[0] == '?';
    }
  }

  /** `addParam` on a string without '?' discards it and starts a query with '?'. */
  lemma AddParamStarts(current: string, newParam: string)
    requires '?' !in current
    ensures AddParam(current, newParam) == "?" + newParam
  {
    if Contains(current, "?") {
      ContainsMeansIn(current);
    }
  }

  /** `params.forEach((v, k) => { fetchParams = addParam(fetchParams, `${k}=${v}`) })`, from `""`. */
  function AddParams(ps: seq<(string, string)>): string {
    if ps == [] then "" else AddParam(AddParams(ps[..|ps| - 1]), PairText(ps[|ps| - 1]))
  }

  /** Whatever the keys and values hold, the pairs end up as `?k1=v1&k2=v2...`. */
  lemma {:induction false} AddParamsJoins(ps: seq<(string, string)>)
    requires ps != []
    ensures AddParams(ps) == "?" + Join(PairTexts(ps), '&')
  {
    var q := ps[..|ps| - 1];
    var last := PairText(ps[|ps| - 1]);
    if q == [] {
      assert PairTexts(ps) == [last];
      assert AddParam("", last) == "?" + last;
    } else {
      AddParamsJoins(q);
      var acc := AddParams(q);
      ContainsQuestionMark(Join(PairTexts(q), '&'));
      assert AddParam(acc, last) == acc + "&" + last;
      assert PairTexts(ps) == PairTexts(q) + [last];
      JoinSnoc(PairTexts(q), last, '&');
    }
  }

  /** A JavaScript `Map` as its entries in insertion order. */
  function Lookup(entries: seq<(string, string)>, k: string): (r: Option<string>)
    ensures r.Some? <==> exists i :: 0 <= i < |entries| && entries[i].0 == k
  {
    if entries == [] then None
    else if entries[0].0 == k then Some(entries[0].1)
    else Lookup(entries[1..], k)
  }

  /** `map.set(k, v)`: an existing key keeps its place and takes the new value; a new key goes last. */
  function SetEntry(entries: seq<(string, string)>, k: string, v: string): seq<(string, string)> {
    if entries == [] then [(k, v)]
    else if entries[0].0 == k then [(k, v)] + entries[1..]
    else [entries[0]] + SetEntry(entries[1..], k, v)
  }

  /** `map.delete(k)`. */
  function DeleteEntry(entries: seq<(string, string)>, k: string): seq<(string, string)> {
    if entries == [] then []
    else if entries[0].0 == k then entries[1..]
    else [entries[0]] + DeleteEntry(entries[1..], k)
  }

  /** No key occurs twice: how a `Map` keeps its entries. */
  predicate UniqueKeys(entries: seq<(string, string)>) {
    forall i, j :: 0 <= i < j < |entries| ==> entries[i].0 != entries[j].0
  }

  /** After `set`, the key reads back its new value and every other key is unchanged. */
  lemma {:induction false} SetEntryLookup(entries: seq<(string, string)>, k: string, v: string, k2: string)
    ensures Lookup(SetEntry(entries, k, v), k2) == if k2 == k then Some(v) else Lookup(entries, k2)
  {
    if entries != [] && entries[0].0 != k {
      SetEntryLookup(entries[1..], k, v, k2);
    }
  }

  /** After `delete`, the key is gone and every other key is unchanged, when keys are unique. */
  lemma {:induction false} DeleteEntryLookup(entries: seq<(string, string)>, k: string, k2: string)
    requires UniqueKeys(entries)
    ensures Lookup(DeleteEntry(entries, k), k2) == if k2 == k then None else Lookup(entries, k2)
  {
    if entries != [] {
      var tail := entries[1..];
      assert UniqueKeys(tail) by {
        forall i, j | 0 <= i < j < |tail| ensures tail[i].0 != tail[j].0 {
          assert tail[i] == entries[i + 1] && tail[j] == entries[j + 1];
        }
      }
      if entries[0].0 == k {
        if k2 == k {
          forall i | 0 <= i < |tail| ensures tail[i].0 != k {
            assert tail[i] == entries[i + 1];
          }
        }
      } else {
        DeleteEntryLookup(tail, k, k2);
      }
    }
  }

  lemma {:induction false} SetEntryKeys(entries: seq<(string, string)>, k: string, v: string)
    ensures |SetEntry(entries, k, v)| >= 1
    ensures forall i :: 0 <= i < |SetEntry(entries, k, v)| ==>
      SetEntry(entries, k, v)[i].0 == k || exists j :: 0 <= j < |entries| && entries[j].0 == SetEntry(entries, k, v)[i].0
    ensures |entries| > 0 ==> SetEntry(entries, k, v)[0].0 == entries[0].0
  {
    if entries != [] && entries[0].0 != k {
      SetEntryKeys(entries[1..], k, v);
      var r := SetEntry(entries, k, v);
      forall i | 1 <= i < |r| ensures r[i].0 == k || exists j :: 0 <= j < |entries| && entries[j].0 == r[i].0 {
        assert r[i] == SetEntry(entries[1..], k, v)[i - 1];
        if r[i].0 != k {
          var j :| 0 <= j < |entries[1..]| && entries[1..][j].0 == r[i].0;
          assert entries[j + 1].0 == r[i].0;
        }
      }
    }
  }

  /** The `Map` of the fetch effect. */
  class ParamMap {
    var entries: seq<(string, string)>

    constructor()
      ensures entries == []
    {
      entries := [];
    }

    function Get(k: string): Option<string>
      reads this
    {
      Lookup(entries, k)
    }

    method Set(k: string, v: string)
      modifies this
      ensures entries == SetEntry(old(entries), k, v)
    {
      entries := SetEntry(entries, k, v);
    }

    method Delete(k: string)
      modifies this
      ensures entries == DeleteEntry(old(entries), k)
    {
      entries := DeleteEntry(entries, k);
    }
  }

  /**
   * The entries the fetch effect sets first. `query` is the search box (falsy
   * when empty); `start` and `end` are the selected times already converted by
   * `selectedDatetimeToISO`, None when unset; `encodeUri` and `encodeComponent`
   * are `encodeURI` and `encodeURIComponent`.
   */
  function BaseEntries(view: string, query: string, start: Option<string>, end: Option<string>,
                       encodeUri: string -> string, encodeComponent: string -> string): seq<(string, string)>
  {
    var p0 := SetEntry([], "view", view);
    var p1 := SetEntry(p0, "q", if query != "" then encodeUri(query) else "");
    if start.Some? && end.Some? then
      SetEntry(SetEntry(p1, "starttime", encodeComponent(start.value)), "endtime", encodeComponent(end.value))
    else p1
  }

  /** The view-dependent edits: `sort=true` for your-votes, `q` deleted outside the default view. */
  function FinishEntries(p: seq<(string, string)>): seq<(string, string)> {
    var p3 := if Lookup(p, "view") == Some("your-votes") then SetEntry(p, "sort", "true") else p;
    if Lookup(p3, "view") != Some("default") then DeleteEntry(p3, "q") else p3
  }

  /** The entries of the fetch effect's `Map`, in insertion order. */
  function FetchEntries(view: string, query: string, start: Option<string>, end: Option<string>,
                        encodeUri: string -> string, encodeComponent: string -> string): seq<(string, string)>
  {
    FinishEntries(BaseEntries(view, query, start, end, encodeUri, encodeComponent))
  }

  /** The `Map` the fetch effect fills, as its entries. */
  method CollectParams(view: string, query: string, start: Option<string>, end: Option<string>,
                       encodeUri: string -> string, encodeComponent: string -> string)
    returns (entries: seq<(string, string)>)
    ensures entries == FetchEntries(view, query, start, end, encodeUri, encodeComponent)
  {
    var params := new ParamMap();
    params.Set("view", view);
    if query != "" {
      params.Set("q", encodeUri(query));
    } else {
      params.Set("q", "");
    }
    if start.Some? && end.Some? {
      params.Set("starttime", encodeComponent(start.value));
      params.Set("endtime", encodeComponent(end.value));
    }
    if params.Get("view") == Some("your-votes") {
      params.Set("sort", "true");
    }
    if params.Get("view") != Some("default") {
      params.Delete("q");
    }
    entries := params.entries;
  }

  /** The `forEach` loop of `addParam` calls over the entries. */
  method JoinParams(entries: seq<(string, string)>) returns (fetchParams: string)
    ensures fetchParams == AddParams(entries)
  {
    fetchParams := "";
    var i := 0;
    while i < |entries|
      invariant 0 <= i <= |entries|
      invariant fetchParams == AddParams(entries[..i])
    {
      assert entries[..i + 1][..i] == entries[..i];
      fetchParams := AddParam(fetchParams, PairText(entries[i]));
      i := i + 1;
    }
    assert entries[..|entries|] == entries;
  }

  /**
   * The fetch effect: no request when exactly one of the two times is set
   * (None); otherwise the query string the request is sent with.
   */
  method FetchParams(view: string, query: string, start: Option<string>, end: Option<string>,
                     encodeUri: string -> string, encodeComponent: string -> string) returns (r: Option<string>)
    ensures start.Some? != end.Some? ==> r.None?
    ensures start.Some? == end.Some? ==> r == Some(AddParams(FetchEntries(view, query, start, end, encodeUri, encodeComponent)))
  {
    if start.Some? != end.Some? {
      return None;
    }
    var entries := CollectParams(view, query, start, end, encodeUri, encodeComponent);
    var fetchParams := JoinParams(entries);
    return Some(fetchParams);
  }

  lemma BaseEntriesShape(view: string, query: string, start: Option<string>, end: Option<string>,
                         encodeUri: string -> string, encodeComponent: string -> string)
    ensures var qv := if query != "" then encodeUri(query) else "";
      BaseEntries(view, query, start, end, encodeUri, encodeComponent) ==
        [("view", view), ("q", qv)] +
        (if start.Some? && end.Some? then [("starttime", encodeComponent(start.value)), ("endtime", encodeComponent(end.value))] else [])
  {
    var qv := if query != "" then encodeUri(query) else "";
    var p0 := SetEntry([], "view", view);
    assert p0 == [("view", view)];
    assert "view"[0] != "q"[0];
    SetEntryAppend(p0, "q", qv);
    var p1 := [("view", view), ("q", qv)];
    if start.Some? && end.Some? {
      var st, en := ("starttime", encodeComponent(start.value)), ("endtime", encodeComponent(end.value));
      assert "view"[0] != "starttime"[0] && "q"[0] != "starttime"[0];
      SetEntryAppend(p1, "starttime", st.1);
      assert "view"[0] != "endtime"[0] && "q"[0] != "endtime"[0] && "starttime"[0] != "endtime"[0];
      SetEntryAppend(p1 + [st], "endtime", en.1);
    }
  }

  /** The view-dependent edits, read key by key. */
  lemma FinishEntriesLookup(p: seq<(string, string)>, k: string)
    requires UniqueKeys(p) && |p| >= 1 && p[0].0 == "view"
    requires Lookup(p, "sort").None?
    ensures var view := p[0].1; var r := FinishEntries(p);
      |r| >= 1 && r[0] == p[0] &&
      Lookup(r, k) ==
        if k == "sort" then (if view == "your-votes" then Some("true") else None)
        else if k == "q" && view != "default" then None
        else Lookup(p, k)
  {
    var view := p[0].1;
    assert Lookup(p, "view") == Some(view);
    var p3 := if view == "your-votes" then SetEntry(p, "sort", "true") else p;
    SortStep(p, k);
    assert Lookup(p3, "view") == Some(view);
    QStep(p3, k);
  }

  /** The your-votes step: `sort` is added after the other keys, and only for that view. */
  lemma SortStep(p: seq<(string, string)>, k: string)
    requires UniqueKeys(p) && |p| >= 1 && p[0].0 == "view"
    requires Lookup(p, "sort").None?
    ensures var p3 := if p[0].1 == "your-votes" then SetEntry(p, "sort", "true") else p;
      && UniqueKeys(p3) && |p3| >= 1 && p3[0] == p[0]
      && Lookup(p3, k) == if k == "sort" then (if p[0].1 == "your-votes" then Some("true") else None) else Lookup(p, k)
  {
    if p[0].1 == "your-votes" {
      assert forall i :: 0 <= i < |p| ==> p[i].0 != "sort";
      SetEntryAppend(p, "sort", "true");
      SetEntryLookup(p, "sort", "true", k);
      assert UniqueKeys(p + [("sort", "true")]);
    }
  }

  /** The step that drops `q` outside the default view; the view stays first. */
  lemma QStep(p3: seq<(string, string)>, k: string)
    requires UniqueKeys(p3) && |p3| >= 1 && p3[0].0 == "view"
    ensures var r := if p3[0].1 != "default" then DeleteEntry(p3, "q") else p3;
      && |r| >= 1 && r[0] == p3[0]
      && Lookup(r, k) == if k == "q" && p3[0].1 != "default" then None else Lookup(p3, k)
  {
    if p3[0].1 != "default" {
      DeleteEntryLookup(p3, "q", k);
      assert DeleteEntry(p3, "q")[0] == p3[0];
    }
  }

  /**
   * What the request carries: the view always, first; `q` exactly in the
   * default view (the encoded search, or empty); `sort=true` exactly in the
   * your-votes view; the two times exactly when both are set.
   */
  lemma FetchEntriesContent(view: string, query: string, start: Option<string>, end: Option<string>,
                            encodeUri: string -> string, encodeComponent: string -> string)
    ensures var p := FetchEntries(view, query, start, end, encodeUri, encodeComponent);
      |p| >= 1 && p[0] == ("view", view) &&
      Lookup(p, "q") == (if view == "default" then Some(if query != "" then encodeUri(query) else "") else None) &&
      Lookup(p, "sort") == (if view == "your-votes" then Some("true") else None) &&
      (Lookup(p, "starttime").Some? <==> start.Some? && end.Some?) &&
      (Lookup(p, "endtime").Some? <==> start.Some? && end.Some?)
  {
    var b := BaseEntries(view, query, start, end, encodeUri, encodeComponent);
    BaseEntriesFacts(view, query, start, end, encodeUri, encodeComponent);
    FinishEntriesLookup(b, "q");
    FinishEntriesLookup(b, "sort");
    FinishEntriesLookup(b, "starttime");
    FinishEntriesLookup(b, "endtime");
  }

  /** The entries before the view-dependent edits, read key by key. */
  lemma BaseEntriesFacts(view: string, query: string, start: Option<string>, end: Option<string>,
                         encodeUri: string -> string, encodeComponent: string -> string)
    ensures var b := BaseEntries(view, query, start, end, encodeUri, encodeComponent);
      && UniqueKeys(b) && |b| >= 1 && b[0] == ("view", view)
      && Lookup(b, "sort").None?
      && Lookup(b, "q") == Some(if query != "" then encodeUri(query) else "")
      && (Lookup(b, "starttime").Some? <==> start.Some? && end.Some?)
      && (Lookup(b, "endtime").Some? <==> start.Some? && end.Some?)
  {
    var b := BaseEntries(view, query, start, end, encodeUri, encodeComponent);
    BaseEntriesShape(view, query, start, end, encodeUri, encodeComponent);
    assert "view"[0] != "q"[0] && "view"[0] != "starttime"[0] && "view"[0] != "endtime"[0];
    assert "q"[0] != "starttime"[0] && "q"[0] != "endtime"[0] && "starttime"[0] != "endtime"[0];
    assert "sort"[0] != "view"[0] && "sort"[0] != "q"[0] && "sort"[1] != "starttime"[1] && "sort"[0] != "endtime"[0];
    if start.Some? && end.Some? {
      assert b[2].0 == "starttime" && b[3].0 == "endtime";
    } else {
      assert |b| == 2;
    }
  }

  lemma {:induction false} SetEntryAppend(entries: seq<(string, string)>, k: string, v: string)
    requires forall i :: 0 <= i < |entries| ==> entries[i].0 != k
    ensures SetEntry(entries, k, v) == entries + [(k, v)]
  {
    if entries != [] {
      SetEntryAppend(entries[1..], k, v);
      assert entries == [entries[0]] + entries[1..];
    }
  }

  /** The vote the button sends: a liked submission is disliked, any other liked. */
  datatype Vote = Like | Dislike

  function VoteFor(preferences: seq<string>, submissionId: string): Vote {
    if submissionId in preferences then Dislike else Like
  }

  /** The optimistic local update made before the request. */
  function AfterVote(preferences: seq<string>, submissionId: string): (r: seq<string>)
    ensures VoteFor(preferences, submissionId) == Dislike ==>
      submissionId !in r && forall i :: 0 <= i < |preferences| && preferences[i] != submissionId ==> preferences[i] in r
    ensures VoteFor(preferences, submissionId) == Dislike ==>
      Subsequence(r, preferences) && multiset(r) == multiset(preferences)[submissionId := 0]
    ensures VoteFor(preferences, submissionId) == Like ==> r == preferences + [submissionId]
  {
    if VoteFor(preferences, submissionId) == Like then preferences + [submissionId]
    else RemoveKeepsRest(preferences, submissionId); Remove(preferences, submissionId)
  }

  /**
   * The revert in `.catch`, as written: it works from `myPreferences` as it was
   * when the button was clicked, so a failed like filters the id out of the old
   * list and a failed dislike appends it to the old list.
   */
  function RevertAsWritten(preferences: seq<string>, submissionId: string, vote: Vote): seq<string> {
    if vote == Like then Remove(preferences, submissionId) else preferences + [submissionId]
  }

  /** A failed dislike, as written, leaves the id in the list twice. */
  lemma RevertAsWrittenDuplicates()
    ensures VoteFor(["a"], "a") == Dislike
    ensures RevertAsWritten(["a"], "a", Dislike) == ["a", "a"]
  {
  }

  /** For any list holding the id, the as-written revert of a failed dislike does not give back the list. */
  lemma RevertAsWrittenDislikeWrong(preferences: seq<string>, submissionId: string)
    requires submissionId in preferences
    ensures RevertAsWritten(preferences, submissionId, VoteFor(preferences, submissionId)) != preferences
  {
    assert |RevertAsWritten(preferences, submissionId, Dislike)| == |preferences| + 1;
  }

  /** The revert that restores the list shown before the click: a failed like drops the id, a failed dislike keeps the old list. */
  function Revert(preferences: seq<string>, submissionId: string, vote: Vote): seq<string> {
    if vote == Like then Remove(preferences, submissionId) else preferences
  }

  /** A failed vote, reverted, shows the list shown before the click. */
  lemma RevertRestores(preferences: seq<string>, submissionId: string)
    ensures Revert(preferences, submissionId, VoteFor(preferences, submissionId)) == preferences
  {
  }

  /** The as-written revert is right for a failed like. */
  lemma RevertAsWrittenLikeRestores(preferences: seq<string>, submissionId: string)
    requires submissionId !in preferences
    ensures RevertAsWritten(preferences, submissionId, VoteFor(preferences, submissionId)) == preferences
  {
  }
}
