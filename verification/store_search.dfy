/** Similarity search over a `VectorStore.Store`: `search` ranks every stored
    vector against a query and keeps the best `k`; `search_with_filter` scans
    the full ranking and keeps the first `k` results a predicate accepts.
    Cosine similarity is an oracle `sim` from (query, stored vector) to a
    score; nothing here computes with the vectors. */
module StoreSearch {
  import opened Wrappers
  import opened Seqs
  import opened VectorStore

  type Similarity = (Embedding, Embedding) -> real

  /** One entry of the list `search` returns; `metadata` is absent when the
      record has none. */
  datatype SearchResult = SearchResult(text: string, score: real, metadata: Option<Meta>)

  /** `cosine_similarity(query, embeddings)[0]`. */
  function Scores(sim: Similarity, query: Embedding, embeddings: seq<Embedding>): (sc: seq<real>)
    ensures |sc| == |embeddings|
    ensures forall i :: 0 <= i < |embeddings| ==> sc[i] == sim(query, embeddings[i])
  {
    Map((v: Embedding) => sim(query, v), embeddings)
  }

  /** Positions in `r` index `sc` and their scores never increase. */
  predicate RankedBy(sc: seq<real>, r: seq<nat>) {
    && (forall i :: 0 <= i < |r| ==> r[i] < |sc|)
    && (forall i, j :: 0 <= i < j < |r| ==> sc[r[i]] >= sc[r[j]])
  }

  predicate Distinct(r: seq<nat>) {
    forall i, j :: 0 <= i < j < |r| ==> r[i] != r[j]
  }

  /** Insert position `x` after every position scoring at least as high. */
  function Insert(sc: seq<real>, x: nat, r: seq<nat>): (res: seq<nat>)
    requires x < |sc| && RankedBy(sc, r)
    ensures |res| == |r| + 1
  {
    if |r| == 0 then [x]
    else if sc[r[0]] >= sc[x] then [r[0]] + Insert(sc, x, r[1..])
    else [x] + r
  }

  /** Inserting adds `x` and keeps every other position. */
  lemma {:induction false} InsertMembers(sc: seq<real>, x: nat, r: seq<nat>)
    requires x < |sc| && RankedBy(sc, r)
    ensures forall y :: y in Insert(sc, x, r) <==> y == x || y in r
  {
    if |r| > 0 && sc[r[0]] >= sc[x] {
      InsertMembers(sc, x, r[1..]);
      assert r == [r[0]] + r[1..];
    }
  }

  /** Inserting keeps the scores descending. */
  lemma {:induction false} InsertRanked(sc: seq<real>, x: nat, r: seq<nat>)
    requires x < |sc| && RankedBy(sc, r)
    ensures RankedBy(sc, Insert(sc, x, r))
  {
    if |r| > 0 && sc[r[0]] >= sc[x] {
      var tail := Insert(sc, x, r[1..]);
      InsertRanked(sc, x, r[1..]);
      InsertMembers(sc, x, r[1..]);
      forall j | 0 <= j < |tail| ensures sc[r[0]] >= sc[tail[j]] {
        assert tail[j] in tail;
        if tail[j] != x {
          var m :| 0 <= m < |r[1..]| && r[1..][m] == tail[j];
          assert r[1 + m] == tail[j];
        }
      }
      var res := [r[0]] + tail;
      assert forall j :: 1 <= j < |res| ==> res[j] == tail[j - 1];
    }
  }

  /** Inserting a new position into distinct positions keeps them distinct. */
  lemma {:induction false} InsertDistinct(sc: seq<real>, x: nat, r: seq<nat>)
    requires x < |sc| && RankedBy(sc, r)
    requires Distinct(r) && x !in r
    ensures Distinct(Insert(sc, x, r))
  {
    if |r| > 0 && sc[r[0]] >= sc[x] {
      var tail := Insert(sc, x, r[1..]);
      InsertDistinct(sc, x, r[1..]);
      InsertMembers(sc, x, r[1..]);
      assert r[0] !in r[1..];
      assert r[0] !in tail;
      var res := [r[0]] + tail;
      assert forall j :: 1 <= j < |res| ==> res[j] == tail[j - 1];
    }
  }

  /** The positions `0 .. n-1` ordered by descending score; among equal
      scores the earlier position comes first. */
  function Rank(sc: seq<real>, n: nat): (r: seq<nat>)
    requires n <= |sc|
    ensures |r| == n
    ensures RankedBy(sc, r) && Distinct(r)
    ensures forall y: int :: y in r <==> 0 <= y < n
  {
    if n == 0 then []
    else
      var prev := Rank(sc, n - 1);
      var res := Insert(sc, n - 1, prev);
      InsertMembers(sc, n - 1, prev);
      InsertRanked(sc, n - 1, prev);
      InsertDistinct(sc, n - 1, prev);
      assert forall y: int :: y in res <==> 0 <= y < n by {
        forall y: int ensures y in res <==> 0 <= y < n {
          assert y in res <==> y == n - 1 || y in prev;
        }
      }
      res
  }

  /** The positions `search(query, k)` reports, best first:
      `argsort(similarities)[::-1][:k]`. */
  function TopIndices(s: Store, sim: Similarity, query: Embedding, k: int): (idx: seq<nat>)
    ensures idx == PyTake(Rank(Scores(sim, query, s.embeddings), |s.embeddings|), k)
    ensures forall i :: 0 <= i < |idx| ==> idx[i] < |s.embeddings|
  {
    var sc := Scores(sim, query, s.embeddings);
    PyTake(Rank(sc, |sc|), k)
  }

  /** The top positions are distinct stored positions in descending score
      order, and no position left out scores higher than one reported. */
  lemma TopIndicesAreBest(s: Store, sim: Similarity, query: Embedding, k: int)
    ensures var sc := Scores(sim, query, s.embeddings);
      var idx := TopIndices(s, sim, query, k);
      && RankedBy(sc, idx) && Distinct(idx)
      && (k >= 0 ==> |idx| == if k < |s.embeddings| then k else |s.embeddings|)
      && (forall i, j :: 0 <= i < |idx| && 0 <= j < |s.embeddings| && j !in idx ==> sc[j] <= sc[idx[i]])
  {
    var sc := Scores(sim, query, s.embeddings);
    var full := Rank(sc, |sc|);
    var idx := TopIndices(s, sim, query, k);
    assert idx == full[..|idx|];
    PrefixRanked(sc, full, |idx|);
    PrefixBest(sc, full, |idx|);
    assert forall j :: 0 <= j < |s.embeddings| ==> j in full;
  }

  /** A prefix of a ranking is a ranking. */
  lemma PrefixRanked(sc: seq<real>, full: seq<nat>, m: nat)
    requires RankedBy(sc, full) && Distinct(full) && m <= |full|
    ensures RankedBy(sc, full[..m]) && Distinct(full[..m])
  {
  }

  /** Whatever a prefix of a ranking leaves out scores no higher than what
      it keeps. */
  lemma PrefixBest(sc: seq<real>, full: seq<nat>, m: nat)
    requires RankedBy(sc, full) && m <= |full|
    ensures forall i, j :: 0 <= i < m && j in full && j !in full[..m] ==> sc[j] <= sc[full[i]]
  {
    forall i, j | 0 <= i < m && j in full && j !in full[..m]
      ensures sc[j] <= sc[full[i]]
    {
      var p :| 0 <= p < |full| && full[p] == j;
      assert p >= m;
    }
  }

  /** The dictionary built for stored position `i`. */
  function ResultAt(s: Store, sc: seq<real>, i: nat): (r: SearchResult)
    requires i < |s.texts| && i < |sc|
    ensures r.text == s.texts[i] && r.score == sc[i]
    ensures r.metadata.Some? <==> i in s.metadata
    ensures i in s.metadata ==> r.metadata.value == s.metadata[i]
  {
    SearchResult(s.texts[i], sc[i], if i in s.metadata then Some(s.metadata[i]) else None)
  }

  /** The result loop over the chosen positions; a position past the end of
      the texts raises IndexError, which only a store whose lists disagree in
      length can reach. */
  function Collect(s: Store, sc: seq<real>, idx: seq<nat>): (r: Result<seq<SearchResult>, StoreError>)
    requires forall i :: 0 <= i < |idx| ==> idx[i] < |sc|
    ensures r.Ok? <==> forall i :: 0 <= i < |idx| ==> idx[i] < |s.texts|
    ensures r.Ok? ==> |r.value| == |idx| && forall i :: 0 <= i < |idx| ==> r.value[i] == ResultAt(s, sc, idx[i])
  {
    if |idx| == 0 then Ok([])
    else if idx[0] >= |s.texts| then Err(IndexOutOfRange(idx[0]))
    else
      var rest := Collect(s, sc, idx[1..]);
      if rest.Err? then rest
      else
        assert forall i :: 1 <= i < |idx| ==> idx[i] == idx[1..][i - 1];
        Ok([ResultAt(s, sc, idx[0])] + rest.value)
  }

  /** `cosine_similarity` accepts the query and the stored vectors: the
      query has at least one component and every stored vector has the
      query's width (so stored vectors of differing widths never pass). */
  predicate Comparable(embeddings: seq<Embedding>, query: Embedding) {
    |query| > 0 && forall i :: 0 <= i < |embeddings| ==> |embeddings[i]| == |query|
  }

  /** `search(query_embedding, k)`. */
  function Search(s: Store, sim: Similarity, query: Embedding, k: int): (r: Result<seq<SearchResult>, StoreError>)
    ensures |s.embeddings| == 0 ==> r == Ok([])
    // a non-empty store raises ValueError for a query it cannot be compared with
    ensures |s.embeddings| > 0 && !Comparable(s.embeddings, query) ==> r == Err(DimensionMismatch)
    // a comparable store with a text for every embedding never raises
    ensures Comparable(s.embeddings, query) && |s.texts| >= |s.embeddings| ==> r.Ok?
    ensures r.Err? ==> |s.embeddings| > 0 && (!Comparable(s.embeddings, query) || |s.texts| < |s.embeddings|)
    ensures r.Ok? && k >= 0 ==> |r.value| == if k < |s.embeddings| then k else |s.embeddings|
    // best first
    ensures r.Ok? ==> forall i, j :: 0 <= i < j < |r.value| ==> r.value[i].score >= r.value[j].score
    // every result is the stored record at the reported position
    ensures r.Ok? && |s.embeddings| > 0 ==>
      var idx := TopIndices(s, sim, query, k);
      |r.value| == |idx| && forall i :: 0 <= i < |idx| ==>
        idx[i] < |s.texts| && r.value[i] == ResultAt(s, Scores(sim, query, s.embeddings), idx[i])
  {
    if |s.embeddings| == 0 then Ok([])
    else if !Comparable(s.embeddings, query) then Err(DimensionMismatch)
    else
      var sc := Scores(sim, query, s.embeddings);
      var idx := TopIndices(s, sim, query, k);
      TopIndicesAreBest(s, sim, query, k);
      Collect(s, sc, idx)
  }

  /** The filter gets the text and the metadata, `{}` when there is none. */
  function Accepts(f: (string, Meta) -> bool): SearchResult -> bool {
    (x: SearchResult) => f(x.text, x.metadata.GetOr(map[]))
  }

  /** The first `max(k, 1)` accepted results, in ranking order. */
  function FirstMatches(ranked: seq<SearchResult>, accepts: SearchResult -> bool, k: int): (r: seq<SearchResult>)
    ensures var kept := Filter(accepts, ranked);
      var budget := if k >= 1 then k else 1;
      |r| == (if |kept| < budget then |kept| else budget) && r == kept[..|r|]
  {
    var kept := Filter(accepts, ranked);
    var budget := if k >= 1 then k else 1;
    if |kept| < budget then kept else kept[..budget]
  }

  /** The scanning loop of `search_with_filter`: keep accepted results and
      stop as soon as `k` are kept. The test comes after a result is kept, so
      `k <= 0` still keeps the first match. */
  method ScanFiltered(ranked: seq<SearchResult>, accepts: SearchResult -> bool, k: int) returns (kept: seq<SearchResult>)
    ensures kept == FirstMatches(ranked, accepts, k)
  {
    kept := [];
    var i := 0;
    while i < |ranked|
      invariant 0 <= i <= |ranked|
      invariant kept == Filter(accepts, ranked[..i])
      invariant |kept| < (if k >= 1 then k else 1)
    {
      ScanStep(ranked, accepts, i);
      if accepts(ranked[i]) {
        kept := kept + [ranked[i]];
        if |kept| >= k {
          ScanDone(ranked, accepts, k, i);
          return;
        }
      }
      i := i + 1;
    }
    ScanDone(ranked, accepts, k, i - 1);
  }

  /** One more ranked result adds itself to the kept ones when accepted. */
  lemma ScanStep(ranked: seq<SearchResult>, accepts: SearchResult -> bool, i: nat)
    requires i < |ranked|
    ensures Filter(accepts, ranked[..i + 1]) ==
      Filter(accepts, ranked[..i]) + (if accepts(ranked[i]) then [ranked[i]] else [])
  {
    assert ranked[..i + 1] == ranked[..i] + [ranked[i]];
    FilterSnoc(accepts, ranked[..i], ranked[i]);
  }

  /** The scan may stop once the budget is full or the ranking is used up. */
  lemma ScanDone(ranked: seq<SearchResult>, accepts: SearchResult -> bool, k: int, i: int)
    requires -1 <= i < |ranked|
    requires var kept := Filter(accepts, ranked[..i + 1]);
      var budget := if k >= 1 then k else 1;
      |kept| == budget || (i + 1 == |ranked| && |kept| < budget)
    ensures Filter(accepts, ranked[..i + 1]) == FirstMatches(ranked, accepts, k)
  {
    FilterAppend(accepts, ranked[..i + 1], ranked[i + 1..]);
    assert ranked[..i + 1] + ranked[i + 1..] == ranked;
  }

  /** `search_with_filter(query_embedding, k, filter_func)`: rank all records,
      then scan the ranking. */
  method SearchWithFilter(s: Store, sim: Similarity, query: Embedding, k: int, filter: Option<(string, Meta) -> bool>)
    returns (r: Result<seq<SearchResult>, StoreError>)
    ensures |s.embeddings| == 0 ==> r == Ok([])
    ensures |s.embeddings| > 0 ==>
      var all := Search(s, sim, query, |s.texts|);
      && (all.Err? ==> r == all)
      && (all.Ok? && filter.None? ==> r == Ok(PyTake(all.value, k)))
      && (all.Ok? && filter.Some? ==> r == Ok(FirstMatches(all.value, Accepts(filter.value), k)))
  {
    if |s.embeddings| == 0 {
      return Ok([]);
    }
    var all := Search(s, sim, query, |s.texts|);
    if all.Err? {
      return all;
    }
    if filter.None? {
      return Ok(PyTake(all.value, k));
    }
    var kept := ScanFiltered(all.value, Accepts(filter.value), k);
    return Ok(kept);
  }

  /** Without a filter, the filtered search is the plain top-`k` search: both
      raise for the same query, and otherwise agree. */
  lemma UnfilteredIsTopK(s: Store, sim: Similarity, query: Embedding, k: int)
    requires |s.embeddings| > 0 && |s.texts| >= |s.embeddings|
    ensures var all := Search(s, sim, query, |s.texts|);
      var top := Search(s, sim, query, k);
      && (all.Ok? <==> top.Ok?)
      && (all.Ok? ==> PyTake(all.value, k) == top.value)
  {
    if Comparable(s.embeddings, query) {
      var sc := Scores(sim, query, s.embeddings);
      var full := Rank(sc, |sc|);
      assert PyTake(full, |s.texts|) == full;
      var all := Search(s, sim, query, |s.texts|).value;
      var top := Search(s, sim, query, k).value;
      assert PyTake(all, k) == top;
    }
  }

  lemma {:induction false} PrefixOfSubsequence<T>(xs: seq<T>, ys: seq<T>, m: nat)
    requires IsSubsequence(xs, ys) && m <= |xs|
    ensures IsSubsequence(xs[..m], ys)
    decreases |ys|
  {
    if m > 0 {
      if xs[0] == ys[0] {
        PrefixOfSubsequence(xs[1..], ys[1..], m - 1);
        assert xs[..m][1..] == xs[1..][..m - 1];
      } else {
        PrefixOfSubsequence(xs, ys[1..], m);
      }
    }
  }

  /** A filtered search returns accepted results only, in ranking order, and
      never more than `max(k, 1)` of them. */
  lemma FilteredIsOrderedSubset(ranked: seq<SearchResult>, f: (string, Meta) -> bool, k: int)
    ensures var r := FirstMatches(ranked, Accepts(f), k);
      && IsSubsequence(r, ranked)
      && (forall i :: 0 <= i < |r| ==> f(r[i].text, r[i].metadata.GetOr(map[])))
      && |r| <= (if k >= 1 then k else 1)
  {
    var kept := Filter(Accepts(f), ranked);
    var r := FirstMatches(ranked, Accepts(f), k);
    FilterIsSubsequence(Accepts(f), ranked);
    PrefixOfSubsequence(kept, ranked, |r|);
    forall i | 0 <= i < |r| ensures f(r[i].text, r[i].metadata.GetOr(map[])) {
      assert r[i] == kept[i];
      assert Accepts(f)(kept[i]);
    }
  }
}
