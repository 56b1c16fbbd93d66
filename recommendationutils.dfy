/**
 * The recommendation ranking: the liked ids that have embeddings, their
 * scaled mean as the preference vector, the neighbour positions mapped
 * back to submission ids, the optional exploration shuffle, truncation and
 * hydration. The neighbour search, the random draw and the abstract lookup
 * are parameters.
 */
module RecommendationUtils {
  import opened Wrappers
  import opened Seqs
  import opened Values

  /** One row of an edition's embedding data. */
  datatype EmbeddingRow = EmbeddingRow(submissionId: string, embedding: seq<real>)

  /** The embedding data, by edition index. */
  type Data = map<string, seq<EmbeddingRow>>

  /** Why `generate_recommendations` raises. */
  datatype RecommendError =
    | UnknownIndex        // `data[index]` raises `KeyError`
    | NoLikedEmbedding    // the mean of no vectors is NaN, which the neighbour search refuses
    | RaggedEmbeddings    // `np.mean(..., axis=0)` over vectors of different lengths
    | NeighboursFailed    // the neighbour search raises

  /** What the function returns: the ids, or one looked-up abstract per id. */
  datatype Recommendations = Ids(ids: seq<string>) | Abstracts(items: seq<Option<Record>>)

  /** `idx_mapping.get(sid)`: the embedding of the last row with that id, since later rows overwrite. */
  function EmbeddingOf(rows: seq<EmbeddingRow>, sid: string): (r: Option<seq<real>>)
    ensures r.Some? <==> exists i :: 0 <= i < |rows| && rows[i].submissionId == sid
  {
    if rows == [] then None
    else if rows[|rows| - 1].submissionId == sid then Some(rows[|rows| - 1].embedding)
    else
      var r := EmbeddingOf(rows[..|rows| - 1], sid);
      assert forall i :: 0 <= i < |rows| - 1 ==> rows[..|rows| - 1][i] == rows[i];
      r
  }

  /** The liked ids with an embedding, in the order they were liked. */
  function KeptIds(ids: seq<string>, rows: seq<EmbeddingRow>): (r: seq<string>)
    ensures Subsequence(r, ids)
    ensures forall i :: 0 <= i < |r| ==> EmbeddingOf(rows, r[i]).Some?
  {
    if ids == [] then []
    else
      var front := KeptIds(ids[..|ids| - 1], rows);
      var sid := ids[|ids| - 1];
      if EmbeddingOf(rows, sid).Some? then front + [sid] else front
  }

  /** A liked id is kept exactly when it has an embedding. */
  lemma {:induction false} KeptIdsExact(ids: seq<string>, rows: seq<EmbeddingRow>)
    ensures forall sid :: sid in KeptIds(ids, rows) <==> sid in ids && EmbeddingOf(rows, sid).Some?
    ensures forall sid :: multiset(KeptIds(ids, rows))[sid] == if EmbeddingOf(rows, sid).Some? then multiset(ids)[sid] else 0
  {
    if ids != [] {
      var front := ids[..|ids| - 1];
      KeptIdsExact(front, rows);
      assert ids == front + [ids[|ids| - 1]];
      assert multiset(ids) == multiset(front) + multiset{ids[|ids| - 1]};
    }
  }

  /** The embeddings of the kept ids. */
  function Embeddings(kept: seq<string>, rows: seq<EmbeddingRow>): (vs: seq<seq<real>>)
    requires forall i :: 0 <= i < |kept| ==> EmbeddingOf(rows, kept[i]).Some?
    ensures |vs| == |kept|
  {
    seq(|kept|, i requires 0 <= i < |kept| => EmbeddingOf(rows, kept[i]).value)
  }

  /** Every vector has `d` components. */
  predicate SameDimension(vs: seq<seq<real>>, d: nat) {
    forall i :: 0 <= i < |vs| ==> |vs[i]| == d
  }

  /** Component `j` of every vector. */
  function Column(vs: seq<seq<real>>, j: nat): (c: seq<real>)
    requires forall i :: 0 <= i < |vs| ==> j < |vs[i]|
    ensures |c| == |vs|
  {
    seq(|vs|, i requires 0 <= i < |vs| => vs[i][j])
  }

  /** `alpha * np.mean(vectors, axis=0)`: each component is alpha times the mean of that component. */
  function PrefVector(vs: seq<seq<real>>, alpha: real): (v: seq<real>)
    requires |vs| > 0 && SameDimension(vs, |vs[0]|)
    ensures |v| == |vs[0]|
  {
    seq(|vs[0]|, j requires 0 <= j < |vs[0]| => alpha * (Sum(Column(vs, j)) / |vs| as real))
  }

  lemma {:induction false} SumOfConstant(s: seq<real>, c: real)
    requires forall i :: 0 <= i < |s| ==> s[i] == c
    ensures Sum(s) == |s| as real * c
  {
    if s != [] {
      SumOfConstant(s[..|s| - 1], c);
    }
  }

  /** Liking submissions that share one embedding gives that embedding, scaled by alpha. */
  lemma PrefVectorOfEqualEmbeddings(vs: seq<seq<real>>, e: seq<real>, alpha: real)
    requires |vs| > 0 && forall i :: 0 <= i < |vs| ==> vs[i] == e
    ensures SameDimension(vs, |vs[0]|)
    ensures |PrefVector(vs, alpha)| == |e|
    ensures forall j :: 0 <= j < |e| ==> PrefVector(vs, alpha)[j] == alpha * e[j]
  {
    assert |vs[0]| == |e|;
    var v := PrefVector(vs, alpha);
    forall j | 0 <= j < |e| ensures v[j] == alpha * e[j] {
      var c := Column(vs, j);
      assert forall i :: 0 <= i < |c| ==> c[i] == vs[i][j] == e[j];
      SumOfConstant(c, e[j]);
      var n := |vs| as real;
      assert Sum(c) == n * e[j];
      assert n > 0.0;
      assert (n * e[j]) / n * n == n * e[j];
    }
  }

  /** `[idx_subid_mapping.get(idx) for idx in indices if idx in idx_subid_mapping.keys()]`. */
  function MapIndices(indices: seq<int>, rows: seq<EmbeddingRow>): (r: seq<string>)
    ensures |r| <= |indices|
  {
    if indices == [] then []
    else
      var front := MapIndices(indices[..|indices| - 1], rows);
      var idx := indices[|indices| - 1];
      if 0 <= idx < |rows| then front + [rows[idx].submissionId] else front
  }

  lemma {:induction false} MapIndicesAppend(a: seq<int>, b: seq<int>, rows: seq<EmbeddingRow>)
    ensures MapIndices(a + b, rows) == MapIndices(a, rows) + MapIndices(b, rows)
    decreases |b|
  {
    if b != [] {
      var b' := b[..|b| - 1];
      assert a + b == (a + b') + [b[|b| - 1]];
      assert (a + b)[..|a + b| - 1] == a + b';
      MapIndicesAppend(a, b', rows);
    } else {
      assert a + b == a;
    }
  }

  /** Positions are mapped in order; positions outside the data are dropped. */
  lemma {:induction false} MapIndicesInOrder(indices: seq<int>, rows: seq<EmbeddingRow>)
    ensures (forall k :: 0 <= k < |indices| ==> 0 <= indices[k] < |rows|) ==>
      |MapIndices(indices, rows)| == |indices|
      && forall k :: 0 <= k < |indices| ==> MapIndices(indices, rows)[k] == rows[indices[k]].submissionId
    ensures (forall k :: 0 <= k < |indices| ==> !(0 <= indices[k] < |rows|)) ==> MapIndices(indices, rows) == []
  {
    if indices != [] {
      MapIndicesInOrder(indices[..|indices| - 1], rows);
    }
  }

  lemma MapIndicesRemoveAt(b: seq<int>, k: nat, rows: seq<EmbeddingRow>)
    requires k < |b|
    ensures multiset(MapIndices(b, rows)) == multiset(MapIndices(b[..k] + b[k + 1..], rows)) + multiset(MapIndices([b[k]], rows))
  {
    assert b == b[..k] + [b[k]] + b[k + 1..];
    MapIndicesAppend(b[..k] + [b[k]], b[k + 1..], rows);
    MapIndicesAppend(b[..k], [b[k]], rows);
    MapIndicesAppend(b[..k], b[k + 1..], rows);
  }

  lemma MapIndicesFirst(a: seq<int>, rows: seq<EmbeddingRow>)
    requires a != []
    ensures multiset(MapIndices(a, rows)) == multiset(MapIndices(a[1..], rows)) + multiset(MapIndices([a[0]], rows))
  {
    MapIndicesRemoveAt(a, 0, rows);
    assert a[..0] + a[1..] == a[1..];
  }

  /** Reordering the positions reorders the ids and nothing else. */
  lemma {:induction false} MapIndicesPermuted(a: seq<int>, b: seq<int>, rows: seq<EmbeddingRow>)
    requires multiset(a) == multiset(b)
    ensures multiset(MapIndices(a, rows)) == multiset(MapIndices(b, rows))
    decreases |a|
  {
    if a == [] {
      assert |b| == |multiset(b)| == 0;
    } else {
      var k := MatchFirst(a, b);
      MapIndicesPermuted(a[1..], b[..k] + b[k + 1..], rows);
      MapIndicesRemoveAt(b, k, rows);
      MapIndicesFirst(a, rows);
    }
  }

  /** `if n_recommend:` take `[0:n_recommend + 1]`. */
  function Truncate(ids: seq<string>, nRecommend: Option<int>): seq<string> {
    if nRecommend.Some? && nRecommend.value != 0 then Slice(ids, 0, nRecommend.value + 1) else ids
  }

  /** A positive count keeps a prefix of at most `n + 1` ids; `None` or 0 keeps everything. */
  lemma TruncateKeepsPrefix(ids: seq<string>, nRecommend: Option<int>)
    ensures nRecommend.None? || nRecommend.value == 0 ==> Truncate(ids, nRecommend) == ids
    ensures nRecommend.Some? && nRecommend.value > 0 ==>
      |Truncate(ids, nRecommend)| <= nRecommend.value + 1
      && |Truncate(ids, nRecommend)| == (if |ids| < nRecommend.value + 1 then |ids| else nRecommend.value + 1)
      && Truncate(ids, nRecommend) == ids[..|Truncate(ids, nRecommend)|]
  {
    if nRecommend.Some? && nRecommend.value > 0 {
      SliceNonNegative(ids, 0, nRecommend.value + 1);
    }
  }

  /** `np.random.choice(indices, size=len(indices), replace=False)` draws a reordering of its input. */
  ghost predicate IsShuffle(shuffle: seq<int> -> seq<int>) {
    forall s :: multiset(shuffle(s)) == multiset(s)
  }

  /** The positions used: the neighbours in distance order, or their random reordering. */
  function UsedIndices(found: seq<int>, exploration: bool, shuffle: seq<int> -> seq<int>): seq<int> {
    if exploration then shuffle(found) else found
  }

  /** `generate_recommendations`. */
  function Recommend(
    ids: seq<string>, data: Data, index: string, kneighbors: seq<real> -> Option<seq<int>>,
    exploration: bool, shuffle: seq<int> -> seq<int>, nRecommend: Option<int>, alpha: real,
    abstractInfo: bool, getAbstract: string -> Option<Record>)
    : Result<Recommendations, RecommendError>
  {
    if index !in data then Err(UnknownIndex)
    else
      var rows := data[index];
      var kept := KeptIds(ids, rows);
      if kept == [] then Err(NoLikedEmbedding)
      else
        var vs := Embeddings(kept, rows);
        if !SameDimension(vs, |vs[0]|) then Err(RaggedEmbeddings)
        else
          var found := kneighbors(PrefVector(vs, alpha));
          if found.None? then Err(NeighboursFailed)
          else
            var recommended := Truncate(MapIndices(UsedIndices(found.value, exploration, shuffle), rows), nRecommend);
            if abstractInfo then Ok(Abstracts(seq(|recommended|, i requires 0 <= i < |recommended| => getAbstract(recommended[i]))))
            else Ok(Ids(recommended))
  }

  /** The neighbour search is queried with alpha times the mean embedding of the kept liked ids. */
  lemma QueriesPreferenceVector(
    ids: seq<string>, data: Data, index: string, kneighbors: seq<real> -> Option<seq<int>>,
    exploration: bool, shuffle: seq<int> -> seq<int>, nRecommend: Option<int>, alpha: real,
    abstractInfo: bool, getAbstract: string -> Option<Record>)
    requires Recommend(ids, data, index, kneighbors, exploration, shuffle, nRecommend, alpha, abstractInfo, getAbstract).Ok?
    ensures index in data && KeptIds(ids, data[index]) != []
    ensures var vs := Embeddings(KeptIds(ids, data[index]), data[index]);
      SameDimension(vs, |vs[0]|) && kneighbors(PrefVector(vs, alpha)).Some?
  {
  }

  /** Without exploration or truncation, the ids follow the neighbour order, out-of-range positions dropped. */
  lemma IdsFollowNeighbours(
    ids: seq<string>, data: Data, index: string, kneighbors: seq<real> -> Option<seq<int>>,
    shuffle: seq<int> -> seq<int>, alpha: real, getAbstract: string -> Option<Record>, found: seq<int>)
    requires index in data && KeptIds(ids, data[index]) != []
    requires var vs := Embeddings(KeptIds(ids, data[index]), data[index]);
      SameDimension(vs, |vs[0]|) && kneighbors(PrefVector(vs, alpha)) == Some(found)
    ensures Recommend(ids, data, index, kneighbors, false, shuffle, None, alpha, false, getAbstract)
      == Ok(Ids(MapIndices(found, data[index])))
  {
  }

  /** Exploration only reorders the recommended ids, as long as the draw is a reordering. */
  lemma ExplorationReorders(
    ids: seq<string>, data: Data, index: string, kneighbors: seq<real> -> Option<seq<int>>,
    shuffle: seq<int> -> seq<int>, alpha: real, getAbstract: string -> Option<Record>)
    requires IsShuffle(shuffle)
    requires Recommend(ids, data, index, kneighbors, false, shuffle, None, alpha, false, getAbstract).Ok?
    ensures Recommend(ids, data, index, kneighbors, true, shuffle, None, alpha, false, getAbstract).Ok?
    ensures multiset(Recommend(ids, data, index, kneighbors, true, shuffle, None, alpha, false, getAbstract).value.ids)
      == multiset(Recommend(ids, data, index, kneighbors, false, shuffle, None, alpha, false, getAbstract).value.ids)
  {
    var rows := data[index];
    var vs := Embeddings(KeptIds(ids, rows), rows);
    var found := kneighbors(PrefVector(vs, alpha)).value;
    assert multiset(shuffle(found)) == multiset(found);
    MapIndicesPermuted(shuffle(found), found, rows);
  }

  /** With `abstract_info`, one lookup per recommended id, in the same order. */
  lemma HydratesEachId(
    ids: seq<string>, data: Data, index: string, kneighbors: seq<real> -> Option<seq<int>>,
    exploration: bool, shuffle: seq<int> -> seq<int>, nRecommend: Option<int>, alpha: real,
    getAbstract: string -> Option<Record>)
    requires Recommend(ids, data, index, kneighbors, exploration, shuffle, nRecommend, alpha, false, getAbstract).Ok?
    ensures var plain := Recommend(ids, data, index, kneighbors, exploration, shuffle, nRecommend, alpha, false, getAbstract).value.ids;
      var full := Recommend(ids, data, index, kneighbors, exploration, shuffle, nRecommend, alpha, true, getAbstract);
      full.Ok? && full.value.Abstracts? && |full.value.items| == |plain|
      && forall i :: 0 <= i < |plain| ==> full.value.items[i] == getAbstract(plain[i])
  {
  }
}
