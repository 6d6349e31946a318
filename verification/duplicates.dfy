/** `find_duplicates(similarity_threshold)` of `LeaseVectorStore`: a greedy
    single pass that groups each not-yet-grouped position with every later
    not-yet-grouped position similar enough to it. */
module Duplicates {
  import opened Wrappers
  import opened VectorStore
  import opened StoreSearch

  /** Positions `p` and `q` are similar enough under the threshold. */
  predicate Hit(e: seq<Embedding>, sim: Similarity, threshold: real, p: int, q: int)
    requires 0 <= p < |e| && 0 <= q < |e|
  {
    sim(e[p], e[q]) >= threshold
  }

  /** The inner loop for head `i`, run up to (not including) position `j`:
      the later positions that are not yet processed and similar enough to
      `i`, in increasing order. */
  function Matches(e: seq<Embedding>, sim: Similarity, threshold: real, i: int, j: int, processed: set<int>): seq<int>
    requires 0 <= i < |e| && j <= |e|
    decreases j
  {
    if j <= i + 1 then []
    else
      var last := if j - 1 !in processed && Hit(e, sim, threshold, i, j - 1) then [j - 1] else [];
      Matches(e, sim, threshold, i, j - 1, processed) + last
  }

  /** The positions listed in `xs`. */
  function Elems(xs: seq<int>): set<int> {
    set x | x in xs
  }

  lemma ElemsSnoc(xs: seq<int>, x: int)
    ensures Elems(xs + [x]) == Elems(xs) + {x}
  {
  }

  /** The outer loop from position `i` on, with `processed` the positions
      already placed in a group. */
  function ScanFrom(e: seq<Embedding>, sim: Similarity, threshold: real, i: int, processed: set<int>): seq<seq<int>>
    requires 0 <= i
    decreases |e| - i
  {
    if i >= |e| then []
    else if i in processed then ScanFrom(e, sim, threshold, i + 1, processed)
    else
      var tail := Matches(e, sim, threshold, i, |e|, processed);
      if |tail| == 0 then ScanFrom(e, sim, threshold, i + 1, processed)
      else [[i] + tail] + ScanFrom(e, sim, threshold, i + 1, processed + Elems(tail) + {i})
  }

  /** The groups `find_duplicates` returns for the given embeddings. */
  function Groups(e: seq<Embedding>, sim: Similarity, threshold: real): seq<seq<int>> {
    if |e| < 2 then [] else ScanFrom(e, sim, threshold, 0, {})
  }

  /** Position `x` belongs to some group of `d`. */
  predicate Grouped(d: seq<seq<int>>, x: int) {
    exists a :: 0 <= a < |d| && x in d[a]
  }

  predicate Ascending(c: seq<int>) {
    forall a, b :: 0 <= a < b < |c| ==> c[a] < c[b]
  }

  /** A group as the source builds it: a head followed by at least one later
      position, increasing, every member similar enough to the head. */
  predicate WellShapedGroup(e: seq<Embedding>, sim: Similarity, threshold: real, c: seq<int>) {
    && |c| >= 2
    && Ascending(c)
    && (forall k :: 0 <= k < |c| ==> 0 <= c[k] < |e|)
    && (forall k :: 1 <= k < |c| ==> Hit(e, sim, threshold, c[0], c[k]))
  }

  /** The inner loop's list grows at its end, one position at a time. */
  lemma MatchesLast(e: seq<Embedding>, sim: Similarity, threshold: real, i: int, j: int, processed: set<int>)
    requires 0 <= i < |e| && i + 1 < j <= |e|
    ensures Matches(e, sim, threshold, i, j, processed)
      == Matches(e, sim, threshold, i, j - 1, processed) + (if j - 1 !in processed && Hit(e, sim, threshold, i, j - 1) then [j - 1] else [])
  {
  }

  /** Every listed position is later than the head, before `j`, new and
      similar enough. */
  lemma {:induction false} MatchesSound(e: seq<Embedding>, sim: Similarity, threshold: real, i: int, j: int, processed: set<int>)
    requires 0 <= i < |e| && j <= |e|
    ensures var m := Matches(e, sim, threshold, i, j, processed);
      forall k :: 0 <= k < |m| ==> i < m[k] < j && m[k] !in processed && Hit(e, sim, threshold, i, m[k])
    decreases j
  {
    if j > i + 1 {
      var prev := Matches(e, sim, threshold, i, j - 1, processed);
      MatchesSound(e, sim, threshold, i, j - 1, processed);
      MatchesLast(e, sim, threshold, i, j, processed);
      var m := Matches(e, sim, threshold, i, j, processed);
      assert forall k :: 0 <= k < |prev| ==> m[k] == prev[k];
    }
  }

  /** The list is increasing. */
  lemma {:induction false} MatchesAscending(e: seq<Embedding>, sim: Similarity, threshold: real, i: int, j: int, processed: set<int>)
    requires 0 <= i < |e| && j <= |e|
    ensures Ascending(Matches(e, sim, threshold, i, j, processed))
    decreases j
  {
    if j > i + 1 {
      var prev := Matches(e, sim, threshold, i, j - 1, processed);
      MatchesAscending(e, sim, threshold, i, j - 1, processed);
      MatchesSound(e, sim, threshold, i, j - 1, processed);
      MatchesLast(e, sim, threshold, i, j, processed);
      var m := Matches(e, sim, threshold, i, j, processed);
      forall a, b | 0 <= a < b < |m| ensures m[a] < m[b] {
        assert m[a] == prev[a];
        if b < |prev| {
          assert m[b] == prev[b];
        }
      }
    }
  }

  /** Every later position before `j` that is new and similar enough is
      listed. */
  lemma {:induction false} MatchesComplete(e: seq<Embedding>, sim: Similarity, threshold: real, i: int, j: int, processed: set<int>)
    requires 0 <= i < |e| && j <= |e|
    ensures forall x :: i < x < j && x !in processed && Hit(e, sim, threshold, i, x) ==>
      x in Matches(e, sim, threshold, i, j, processed)
    decreases j
  {
    if j > i + 1 {
      var prev := Matches(e, sim, threshold, i, j - 1, processed);
      MatchesComplete(e, sim, threshold, i, j - 1, processed);
      MatchesLast(e, sim, threshold, i, j, processed);
      var m := Matches(e, sim, threshold, i, j, processed);
      forall x | i < x < j && x !in processed && Hit(e, sim, threshold, i, x) ensures x in m {
        if x < j - 1 {
          assert x in prev;
        } else {
          assert m[|m| - 1] == x;
        }
      }
    }
  }

  lemma MatchesFacts(e: seq<Embedding>, sim: Similarity, threshold: real, i: int, j: int, processed: set<int>)
    requires 0 <= i < |e| && j <= |e|
    ensures var m := Matches(e, sim, threshold, i, j, processed);
      && Ascending(m)
      && (forall k :: 0 <= k < |m| ==> i < m[k] < j && m[k] !in processed && Hit(e, sim, threshold, i, m[k]))
      && (forall x :: i < x < j && x !in processed && Hit(e, sim, threshold, i, x) ==> x in m)
  {
    MatchesAscending(e, sim, threshold, i, j, processed);
    MatchesSound(e, sim, threshold, i, j, processed);
    MatchesComplete(e, sim, threshold, i, j, processed);
  }

  lemma MatchesStep(e: seq<Embedding>, sim: Similarity, threshold: real, i: int, j: int, processed: set<int>)
    requires 0 <= i < j < |e|
    ensures Matches(e, sim, threshold, i, j + 1, processed)
      == Matches(e, sim, threshold, i, j, processed) + (if j !in processed && Hit(e, sim, threshold, i, j) then [j] else [])
  {
  }

  /** One step of the outer loop when position `i` opens a group. */
  lemma ScanOpens(e: seq<Embedding>, sim: Similarity, threshold: real, i: int, processed: set<int>)
    requires 0 <= i < |e| && i !in processed
    requires |Matches(e, sim, threshold, i, |e|, processed)| > 0
    ensures var tail := Matches(e, sim, threshold, i, |e|, processed);
      ScanFrom(e, sim, threshold, i, processed)
        == [[i] + tail] + ScanFrom(e, sim, threshold, i + 1, processed + Elems(tail) + {i})
  {
  }

  /** Every group of `d` is well shaped, starts at or after `i`, and avoids
      the positions processed before `i`. */
  predicate ShapedFrom(e: seq<Embedding>, sim: Similarity, threshold: real, i: int, processed: set<int>, d: seq<seq<int>>) {
    forall a :: 0 <= a < |d| ==>
      && WellShapedGroup(e, sim, threshold, d[a])
      && d[a][0] >= i
      && (forall k :: 0 <= k < |d[a]| ==> d[a][k] !in processed)
  }

  lemma ShapedCons(e: seq<Embedding>, sim: Similarity, threshold: real, i: int, processed: set<int>, p': set<int>,
                    c: seq<int>, rest: seq<seq<int>>)
    requires WellShapedGroup(e, sim, threshold, c) && c[0] == i
    requires forall k :: 0 <= k < |c| ==> c[k] !in processed
    requires processed <= p' && ShapedFrom(e, sim, threshold, i + 1, p', rest)
    ensures ShapedFrom(e, sim, threshold, i, processed, [c] + rest)
  {
    var d := [c] + rest;
    forall a | 0 <= a < |d|
      ensures WellShapedGroup(e, sim, threshold, d[a]) && d[a][0] >= i
      ensures forall k :: 0 <= k < |d[a]| ==> d[a][k] !in processed
    {
      if a > 0 {
        assert d[a] == rest[a - 1];
      }
    }
  }

  /** A step of the outer loop that opens no group leaves the rest of the
      scan as it is. */
  lemma ScanSkips(e: seq<Embedding>, sim: Similarity, threshold: real, i: int, processed: set<int>)
    requires 0 <= i < |e|
    requires i in processed || |Matches(e, sim, threshold, i, |e|, processed)| == 0
    ensures ScanFrom(e, sim, threshold, i, processed) == ScanFrom(e, sim, threshold, i + 1, processed)
  {
  }

  /** A head followed by increasing, new, similar later positions. */
  lemma HeadedGroup(e: seq<Embedding>, sim: Similarity, threshold: real, i: int, processed: set<int>, tail: seq<int>)
    requires 0 <= i < |e| && i !in processed && |tail| > 0
    requires Ascending(tail)
    requires forall k :: 0 <= k < |tail| ==>
      i < tail[k] < |e| && tail[k] !in processed && Hit(e, sim, threshold, i, tail[k])
    ensures var c := [i] + tail;
      && WellShapedGroup(e, sim, threshold, c) && c[0] == i
      && (forall k :: 0 <= k < |c| ==> c[k] !in processed)
      && (forall k :: 0 <= k < |c| ==> c[k] in processed + Elems(tail) + {i})
  {
    var c := [i] + tail;
    assert forall k :: 1 <= k < |c| ==> c[k] == tail[k - 1];
  }

  /** The group opened at `i`: well shaped, headed by `i`, new, and wholly
      marked processed afterwards. */
  lemma OpenedGroup(e: seq<Embedding>, sim: Similarity, threshold: real, i: int, processed: set<int>)
    requires 0 <= i < |e| && i !in processed
    requires |Matches(e, sim, threshold, i, |e|, processed)| > 0
    ensures var tail := Matches(e, sim, threshold, i, |e|, processed);
      var c := [i] + tail;
      && WellShapedGroup(e, sim, threshold, c) && c[0] == i
      && (forall k :: 0 <= k < |c| ==> c[k] !in processed)
      && (forall k :: 0 <= k < |c| ==> c[k] in processed + Elems(tail) + {i})
  {
    MatchesFacts(e, sim, threshold, i, |e|, processed);
    HeadedGroup(e, sim, threshold, i, processed, Matches(e, sim, threshold, i, |e|, processed));
  }

  lemma ShapedLater(e: seq<Embedding>, sim: Similarity, threshold: real, i: int, processed: set<int>, d: seq<seq<int>>)
    requires ShapedFrom(e, sim, threshold, i + 1, processed, d)
    ensures ShapedFrom(e, sim, threshold, i, processed, d)
  {
  }

  /** The shape of the scan from `i` when `i` opens a group, given the
      shape of the scan that follows it. */
  lemma ShapeOpenStep(e: seq<Embedding>, sim: Similarity, threshold: real, i: int, processed: set<int>)
    requires 0 <= i < |e| && i !in processed
    requires |Matches(e, sim, threshold, i, |e|, processed)| > 0
    requires var p' := processed + Elems(Matches(e, sim, threshold, i, |e|, processed)) + {i};
      ShapedFrom(e, sim, threshold, i + 1, p', ScanFrom(e, sim, threshold, i + 1, p'))
    ensures ShapedFrom(e, sim, threshold, i, processed, ScanFrom(e, sim, threshold, i, processed))
  {
    var tail := Matches(e, sim, threshold, i, |e|, processed);
    var p' := processed + Elems(tail) + {i};
    OpenedGroup(e, sim, threshold, i, processed);
    ScanOpens(e, sim, threshold, i, processed);
    ShapedCons(e, sim, threshold, i, processed, p', [i] + tail, ScanFrom(e, sim, threshold, i + 1, p'));
  }

  /** The shape of the scan from `i` when `i` opens no group. */
  lemma ShapeSkipStep(e: seq<Embedding>, sim: Similarity, threshold: real, i: int, processed: set<int>)
    requires 0 <= i < |e|
    requires i in processed || |Matches(e, sim, threshold, i, |e|, processed)| == 0
    requires ShapedFrom(e, sim, threshold, i + 1, processed, ScanFrom(e, sim, threshold, i + 1, processed))
    ensures ShapedFrom(e, sim, threshold, i, processed, ScanFrom(e, sim, threshold, i, processed))
  {
    ScanSkips(e, sim, threshold, i, processed);
    ShapedLater(e, sim, threshold, i, processed, ScanFrom(e, sim, threshold, i + 1, processed));
  }

  lemma {:induction false} ScanShape(e: seq<Embedding>, sim: Similarity, threshold: real, i: int, processed: set<int>)
    requires 0 <= i
    ensures ShapedFrom(e, sim, threshold, i, processed, ScanFrom(e, sim, threshold, i, processed))
    decreases |e| - i
  {
    if i < |e| {
      var tail := Matches(e, sim, threshold, i, |e|, processed);
      if i !in processed && |tail| > 0 {
        ScanShape(e, sim, threshold, i + 1, processed + Elems(tail) + {i});
        ShapeOpenStep(e, sim, threshold, i, processed);
      } else {
        ScanShape(e, sim, threshold, i + 1, processed);
        ShapeSkipStep(e, sim, threshold, i, processed);
      }
    }
  }

  /** No position is in two groups. */
  predicate Disjoint(d: seq<seq<int>>) {
    forall a, b, x :: 0 <= a < b < |d| && x in d[a] ==> x !in d[b]
  }

  /** Groups come in increasing order of their heads. */
  predicate HeadsIncrease(d: seq<seq<int>>) {
    forall a, b :: 0 <= a < b < |d| && d[a] != [] && d[b] != [] ==> d[a][0] < d[b][0]
  }

  /** Every similar pair `p < q` from `i` on has a member that was processed
      before `i` or lands in a group of `d`. */
  predicate CoversFrom(e: seq<Embedding>, sim: Similarity, threshold: real, i: int, processed: set<int>, d: seq<seq<int>>) {
    forall p, q :: 0 <= i <= p < q < |e| && Hit(e, sim, threshold, p, q) ==>
      p in processed || q in processed || Grouped(d, p) || Grouped(d, q)
  }

  /** A new group whose members are all marked processed, before groups
      that avoid every processed position and start later. */
  lemma DisjointCons(e: seq<Embedding>, sim: Similarity, threshold: real, i: int, p': set<int>,
                     c: seq<int>, rest: seq<seq<int>>)
    requires |c| > 0 && c[0] == i
    requires forall k :: 0 <= k < |c| ==> c[k] in p'
    requires ShapedFrom(e, sim, threshold, i + 1, p', rest)
    requires Disjoint(rest) && HeadsIncrease(rest)
    ensures Disjoint([c] + rest) && HeadsIncrease([c] + rest)
  {
    var d := [c] + rest;
    forall a, b, x | 0 <= a < b < |d| && x in d[a] ensures x !in d[b] {
      assert d[b] == rest[b - 1];
      if a == 0 {
        assert x in p';
        var g := rest[b - 1];
        assert forall k :: 0 <= k < |g| ==> g[k] != x;
      } else {
        assert d[a] == rest[a - 1];
      }
    }
    forall a, b | 0 <= a < b < |d| && d[a] != [] && d[b] != [] ensures d[a][0] < d[b][0] {
      assert d[b] == rest[b - 1];
      if a > 0 {
        assert d[a] == rest[a - 1];
      }
    }
  }

  lemma {:induction false} ScanDisjoint(e: seq<Embedding>, sim: Similarity, threshold: real, i: int, processed: set<int>)
    requires 0 <= i
    ensures Disjoint(ScanFrom(e, sim, threshold, i, processed))
    ensures HeadsIncrease(ScanFrom(e, sim, threshold, i, processed))
    decreases |e| - i
  {
    if i < |e| {
      var tail := Matches(e, sim, threshold, i, |e|, processed);
      if i !in processed && |tail| > 0 {
        var p' := processed + Elems(tail) + {i};
        OpenedGroup(e, sim, threshold, i, processed);
        ScanDisjoint(e, sim, threshold, i + 1, p');
        ScanShape(e, sim, threshold, i + 1, p');
        ScanOpens(e, sim, threshold, i, processed);
        DisjointCons(e, sim, threshold, i, p', [i] + tail, ScanFrom(e, sim, threshold, i + 1, p'));
      } else {
        ScanSkips(e, sim, threshold, i, processed);
        ScanDisjoint(e, sim, threshold, i + 1, processed);
      }
    }
  }

  /** A position grouped in the rest of the scan is grouped in the whole. */
  lemma GroupedInRest(c: seq<int>, rest: seq<seq<int>>, x: int)
    requires Grouped(rest, x)
    ensures Grouped([c] + rest, x)
  {
    var a :| 0 <= a < |rest| && x in rest[a];
    assert ([c] + rest)[a + 1] == rest[a];
  }

  /** A skipped head leaves no similar pair it heads uncovered: either it
      was processed already or every later similar position was. */
  lemma CoverSkip(e: seq<Embedding>, sim: Similarity, threshold: real, i: int, processed: set<int>, d: seq<seq<int>>)
    requires 0 <= i < |e|
    requires i in processed || |Matches(e, sim, threshold, i, |e|, processed)| == 0
    requires CoversFrom(e, sim, threshold, i + 1, processed, d)
    ensures CoversFrom(e, sim, threshold, i, processed, d)
  {
    MatchesFacts(e, sim, threshold, i, |e|, processed);
  }

  /** An opened group covers the pairs its head takes part in; the rest of
      the scan covers the others. */
  lemma CoverOpen(e: seq<Embedding>, sim: Similarity, threshold: real, i: int, processed: set<int>, rest: seq<seq<int>>)
    requires 0 <= i < |e| && i !in processed
    requires |Matches(e, sim, threshold, i, |e|, processed)| > 0
    requires var tail := Matches(e, sim, threshold, i, |e|, processed);
      CoversFrom(e, sim, threshold, i + 1, processed + Elems(tail) + {i}, rest)
    ensures CoversFrom(e, sim, threshold, i, processed, [[i] + Matches(e, sim, threshold, i, |e|, processed)] + rest)
  {
    var tail := Matches(e, sim, threshold, i, |e|, processed);
    var p' := processed + Elems(tail) + {i};
    var c := [i] + tail;
    var d := [c] + rest;
    MatchesFacts(e, sim, threshold, i, |e|, processed);
    forall p, q | i <= p < q < |e| && Hit(e, sim, threshold, p, q)
      ensures p in processed || q in processed || Grouped(d, p) || Grouped(d, q)
    {
      assert Grouped(d, i) by {
        assert i in d[0];
      }
      if q !in processed && p == i {
        assert q in tail;
        assert q in d[0];
      } else if p != i {
        forall x | x in p' && x !in processed ensures Grouped(d, x) {
          assert x in d[0];
        }
        if Grouped(rest, p) {
          GroupedInRest(c, rest, p);
        }
        if Grouped(rest, q) {
          GroupedInRest(c, rest, q);
        }
      }
    }
  }

  lemma {:induction false} ScanComplete(e: seq<Embedding>, sim: Similarity, threshold: real, i: int, processed: set<int>)
    requires 0 <= i
    ensures CoversFrom(e, sim, threshold, i, processed, ScanFrom(e, sim, threshold, i, processed))
    decreases |e| - i
  {
    if i < |e| {
      var tail := Matches(e, sim, threshold, i, |e|, processed);
      if i !in processed && |tail| > 0 {
        var p' := processed + Elems(tail) + {i};
        ScanComplete(e, sim, threshold, i + 1, p');
        ScanOpens(e, sim, threshold, i, processed);
        CoverOpen(e, sim, threshold, i, processed, ScanFrom(e, sim, threshold, i + 1, p'));
      } else {
        ScanSkips(e, sim, threshold, i, processed);
        ScanComplete(e, sim, threshold, i + 1, processed);
        CoverSkip(e, sim, threshold, i, processed, ScanFrom(e, sim, threshold, i + 1, processed));
      }
    }
  }

  /** The groups `find_duplicates` returns: each is a head followed by the
      later positions similar enough to it, in increasing order; no position
      is in two groups; groups are ordered by head; and for every pair of
      positions that is similar enough, at least one of the two is grouped. */
  lemma GroupsCorrect(e: seq<Embedding>, sim: Similarity, threshold: real)
    ensures var d := Groups(e, sim, threshold);
      && (forall a :: 0 <= a < |d| ==> WellShapedGroup(e, sim, threshold, d[a]))
      && (forall a, k :: 0 <= a < |d| && 0 <= k < |d[a]| ==> 0 <= d[a][k] < |e|)
      && Disjoint(d)
      && HeadsIncrease(d)
      && (forall p, q :: 0 <= p < q < |e| && Hit(e, sim, threshold, p, q) ==> Grouped(d, p) || Grouped(d, q))
  {
    if |e| >= 2 {
      ScanShape(e, sim, threshold, 0, {});
      ScanDisjoint(e, sim, threshold, 0, {});
      ScanComplete(e, sim, threshold, 0, {});
    }
  }

  /** One step of the inner loop: position `j` joins the list exactly when
      it is not yet processed, counting the positions listed so far, and
      similar enough to the head. */
  lemma CollectStep(e: seq<Embedding>, sim: Similarity, threshold: real, i: int, j: int, processed: set<int>, tail: seq<int>)
    requires 0 <= i < j < |e|
    requires tail == Matches(e, sim, threshold, i, j, processed)
    requires forall k :: 0 <= k < |tail| ==> tail[k] < j
    ensures var hit := j !in processed + Elems(tail) && sim(e[i], e[j]) >= threshold;
      var next := Matches(e, sim, threshold, i, j + 1, processed);
      && next == tail + (if hit then [j] else [])
      && (forall k :: 0 <= k < |next| ==> next[k] < j + 1)
      && processed + Elems(next) == processed + Elems(tail) + (if hit then {j} else {})
  {
    MatchesStep(e, sim, threshold, i, j, processed);
    assert j !in Elems(tail);
    ElemsSnoc(tail, j);
  }

  /** Appending to the list the inner loop builds: the head goes in first
      when the list is still empty. */
  lemma GroupGrows(i: int, j: int, similar: seq<int>, tail: seq<int>)
    requires similar == if |tail| == 0 then [] else [i] + tail
    ensures (if |similar| == 0 then similar + [i] else similar) + [j] == [i] + (tail + [j])
  {
  }

  /** The inner loop of `find_duplicates` for head `i`: the group it opens
      (empty when no later position matches) and the processed set after it. */
  method CollectSimilar(e: seq<Embedding>, sim: Similarity, threshold: real, i: int, processed: set<int>)
    returns (similar: seq<int>, after: set<int>)
    requires 0 <= i < |e|
    ensures var m := Matches(e, sim, threshold, i, |e|, processed);
      && similar == (if |m| == 0 then [] else [i] + m)
      && after == processed + Elems(m)
  {
    similar := [];
    after := processed;
    ghost var tail: seq<int> := [];
    var j := i + 1;
    while j < |e|
      invariant i + 1 <= j <= |e|
      invariant tail == Matches(e, sim, threshold, i, j, processed)
      invariant similar == if |tail| == 0 then [] else [i] + tail
      invariant after == processed + Elems(tail)
      invariant forall k :: 0 <= k < |tail| ==> tail[k] < j
    {
      CollectStep(e, sim, threshold, i, j, processed, tail);
      if j !in after && sim(e[i], e[j]) >= threshold {
        GroupGrows(i, j, similar, tail);
        if |similar| == 0 {
          similar := similar + [i];
        }
        similar := similar + [j];
        after := after + {j};
        tail := tail + [j];
      }
      j := j + 1;
    }
  }

  /** `find_duplicates` with its two nested loops. With two or more vectors
      it first stacks them into a matrix and compares every pair, which
      raises ValueError unless all vectors share one non-zero width. */
  method FindDuplicates(s: Store, sim: Similarity, threshold: real) returns (r: Result<seq<seq<int>>, StoreError>)
    ensures |s.embeddings| < 2 ==> r == Ok([])
    ensures |s.embeddings| >= 2 && !Comparable(s.embeddings, s.embeddings[0]) ==> r == Err(DimensionMismatch)
    ensures r.Err? ==> |s.embeddings| >= 2 && !Comparable(s.embeddings, s.embeddings[0])
    ensures r.Ok? ==> r.value == Groups(s.embeddings, sim, threshold)
  {
    var e := s.embeddings;
    var n := |e|;
    if n < 2 {
      return Ok([]);
    }
    if !Comparable(e, e[0]) {
      return Err(DimensionMismatch);
    }
    var d: seq<seq<int>> := [];
    var processed: set<int> := {};
    var i := 0;
    while i < n
      invariant 0 <= i <= n
      invariant d + ScanFrom(e, sim, threshold, i, processed) == ScanFrom(e, sim, threshold, 0, {})
    {
      if i in processed {
        i := i + 1;
        continue;
      }
      var similar, after := CollectSimilar(e, sim, threshold, i, processed);
      if |similar| > 0 {
        ScanOpens(e, sim, threshold, i, processed);
        d := d + [similar];
        processed := after + Elems(similar);
        assert processed == after + {i};
      }
      i := i + 1;
    }
    r := Ok(d);
  }
}
