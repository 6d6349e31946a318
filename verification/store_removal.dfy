/** `remove_by_index(indices)` of `LeaseVectorStore`: positions are deleted
    from the highest to the lowest, and after each deletion the metadata
    keys above the deleted position move one position down, so each
    surviving record keeps its own metadata. */
module StoreRemoval {
  import opened Wrappers
  import opened VectorStore
  import Seqs

  function DeleteAt<T>(xs: seq<T>, i: int): (r: seq<T>)
    requires 0 <= i < |xs|
    ensures |r| == |xs| - 1
    ensures forall p :: 0 <= p < i ==> r[p] == xs[p]
    ensures forall p :: i <= p < |r| ==> r[p] == xs[p + 1]
  {
    xs[..i] + xs[i + 1..]
  }

  /** The keys one below the given ones. */
  function Lowered(keys: set<int>): set<int> {
    set j | j in keys :: j - 1
  }

  lemma LoweredHas(keys: set<int>, k: int)
    requires k + 1 in keys
    ensures k in Lowered(keys)
  {
    assert (k + 1) - 1 == k;
  }

  /** Key `k` is present after the remapping for a deletion at `idx`. */
  predicate KeepsKey(m: map<int, Meta>, idx: int, k: int) {
    (k < idx && k in m) || (k >= idx && k + 1 in m)
  }

  /** The metadata after deleting position `idx`: the entry at `idx` is
      dropped, entries below it stay, entries above it move down by one. */
  function ShiftMetadata(m: map<int, Meta>, idx: int): (r: map<int, Meta>)
    ensures forall k :: k in r ==> KeepsKey(m, idx, k)
  {
    var candidates := m.Keys + Lowered(m.Keys);
    map k | k in candidates && KeepsKey(m, idx, k) :: if k < idx then m[k] else m[k + 1]
  }

  lemma ShiftFacts(m: map<int, Meta>, idx: int, k: int)
    ensures k in ShiftMetadata(m, idx) <==> KeepsKey(m, idx, k)
    ensures k in ShiftMetadata(m, idx) ==> ShiftMetadata(m, idx)[k] == if k < idx then m[k] else m[k + 1]
  {
    if k >= idx && k + 1 in m {
      LoweredHas(m.Keys, k);
    }
  }

  /** One turn of the deletion loop for position `idx`. A position outside
      the texts is skipped; a store with fewer embeddings than texts raises
      IndexError after the text is already gone. */
  function RemoveOne(s: Store, idx: int): (r: Outcome)
    ensures !(0 <= idx < |s.texts|) ==> r == Outcome(s, None)
  {
    if !(0 <= idx < |s.texts|) then Outcome(s, None)
    else if idx >= |s.embeddings| then Outcome(s.(texts := DeleteAt(s.texts, idx)), Some(IndexOutOfRange(idx)))
    else Outcome(Store(DeleteAt(s.embeddings, idx), DeleteAt(s.texts, idx), ShiftMetadata(s.metadata, idx)), None)
  }

  /** The remapping of one deletion, key by key and for any store: the entry
      at the deleted position is gone, entries below keep their key and
      entries above move one key down. */
  lemma RemoveOneMetadata(s: Store, idx: int, k: int)
    requires 0 <= idx < |s.texts| && idx < |s.embeddings|
    ensures var m := RemoveOne(s, idx).store.metadata;
      && (k in s.metadata && k < idx ==> k in m && m[k] == s.metadata[k])
      && (k in s.metadata && k > idx ==> k - 1 in m && m[k - 1] == s.metadata[k])
      && (k in m ==> (k < idx && k in s.metadata) || (k >= idx && k + 1 in s.metadata))
  {
    ShiftFacts(s.metadata, idx, k);
    ShiftFacts(s.metadata, idx, k - 1);
  }

  /** `S` has a member. */
  predicate Occupied(S: set<int>) {
    exists x :: x in S
  }

  /** The largest member of a non-empty set. */
  ghost function Max(S: set<int>): (m: int)
    requires Occupied(S)
    ensures m in S && forall x :: x in S ==> x <= m
    decreases |S|
  {
    var x :| x in S;
    if forall y :: y in S ==> y == x then
      assert forall y :: y in S ==> y <= x;
      x
    else
      var other :| other in S && other != x;
      assert other in S - {x};
      var rest := Max(S - {x});
      assert forall z :: z in S ==> z == x || z in S - {x};
      if x > rest then x else rest
  }

  /** The source's order of work: `sorted(set(indices), reverse=True)`,
      highest position first, stopping at the first exception. */
  ghost function RemoveDesc(o: Outcome, S: set<int>): Outcome
    decreases |S|
  {
    if !Occupied(S) || o.raised.Some? then o
    else
      var m := Max(S);
      RemoveDesc(RemoveOne(o.store, m), S - {m})
  }

  /** The members of `S` that are positions of a list of length `n`. */
  function InRange(S: set<int>, n: int): set<int> {
    set x | x in S && 0 <= x < n
  }

  lemma {:induction false} AllOutOfRange(o: Outcome, S: set<int>)
    requires forall x :: x in S ==> !(0 <= x < |o.store.texts|)
    ensures RemoveDesc(o, S) == o
    decreases |S|
  {
    if Occupied(S) && o.raised.None? {
      AllOutOfRange(o, S - {Max(S)});
    }
  }

  /** Positions outside the store are ignored, however they are mixed with
      valid ones. */
  lemma {:induction false} OutOfRangeIgnored(o: Outcome, S: set<int>)
    ensures RemoveDesc(o, S) == RemoveDesc(o, InRange(S, |o.store.texts|))
    decreases |S|
  {
    var n := |o.store.texts|;
    var T := InRange(S, n);
    if !Occupied(S) || o.raised.Some? {
    } else {
      var m := Max(S);
      if m >= n {
        assert InRange(S - {m}, n) == T;
        OutOfRangeIgnored(o, S - {m});
      } else if m < 0 {
        AllOutOfRange(o, S);
      } else {
        assert m in T;
        assert Max(T) == m;
        var o' := RemoveOne(o.store, m);
        SubsetCard(T - {m}, S - {m});
        OutOfRangeIgnored(o', S - {m});
        OutOfRangeIgnored(o', T - {m});
        if o'.raised.None? {
          assert InRange(S - {m}, |o'.store.texts|) == InRange(T - {m}, |o'.store.texts|);
        }
      }
    }
  }

  lemma {:induction false} SubsetCard(a: set<int>, b: set<int>)
    requires a <= b
    ensures |a| <= |b|
    decreases |a|
  {
    if Occupied(a) {
      var x :| x in a;
      SubsetCard(a - {x}, b - {x});
    } else {
      assert forall y :: y !in a;
      assert a == {};
    }
  }

  /** `remove_by_index(indices)`. The loop visits positions from the top
      down and deletes those in `set(indices)`: the same deletions in the same
      order as the source's sorted, de-duplicated list, where positions past
      the end are skipped either way. */
  method RemoveByIndex(s: Store, indices: seq<int>) returns (r: Outcome)
    ensures r == RemoveDesc(Outcome(s, None), set x | x in indices)
  {
    var S := set x | x in indices;
    var start := Outcome(s, None);
    r := start;
    var i := |s.texts|;
    OutOfRangeIgnored(start, S);
    OutOfRangeIgnored(start, InRange(S, i));
    assert InRange(InRange(S, i), i) == InRange(S, i);
    while i > 0
      invariant 0 <= i <= |s.texts|
      invariant r.raised.None?
      invariant RemoveDesc(r, InRange(S, i)) == RemoveDesc(start, S)
    {
      i := i - 1;
      if i in S {
        var below := InRange(S, i + 1);
        assert i in below;
        assert Max(below) == i;
        assert below - {i} == InRange(S, i);
        r := RemoveOne(r.store, i);
        if r.raised.Some? {
          return;
        }
      } else {
        assert InRange(S, i + 1) == InRange(S, i);
      }
    }
    assert !Occupied(InRange(S, 0));
  }

  /** Removing `i` and then a lower `j` is removing both at once. */
  lemma RemoveTwoInSequence(s: Store, i: int, j: int)
    requires j < i
    ensures RemoveDesc(RemoveDesc(Outcome(s, None), {i}), {j}) == RemoveDesc(Outcome(s, None), {i, j})
  {
    assert Max({i}) == i;
    assert Max({i, j}) == i;
    assert {i, j} - {i} == {j};
    assert !Occupied({i} - {i});
  }

  /** A record as the position-free view sees it: its text, its embedding
      and its metadata, if any. */
  datatype Record = Record(text: string, embedding: Embedding, metadata: Option<Meta>)

  function Records(s: Store): (r: seq<Record>)
    requires |s.embeddings| == |s.texts|
    ensures |r| == |s.texts|
    ensures forall p :: 0 <= p < |r| ==>
      r[p] == Record(s.texts[p], s.embeddings[p], if p in s.metadata then Some(s.metadata[p]) else None)
  {
    seq(|s.texts|, p requires 0 <= p < |s.texts| =>
      Record(s.texts[p], s.embeddings[p], if p in s.metadata then Some(s.metadata[p]) else None))
  }

  /** The elements of `xs` whose positions are not in `S`, in order. */
  function Keep<T>(xs: seq<T>, S: set<int>): seq<T>
  {
    if |xs| == 0 then [] else Keep(xs[..|xs| - 1], S) + (if |xs| - 1 in S then [] else [xs[|xs| - 1]])
  }

  lemma {:induction false} KeepAgree<T>(xs: seq<T>, S: set<int>, S': set<int>)
    requires forall p :: 0 <= p < |xs| ==> (p in S <==> p in S')
    ensures Keep(xs, S) == Keep(xs, S')
  {
    if |xs| > 0 {
      KeepAgree(xs[..|xs| - 1], S, S');
    }
  }

  lemma {:induction false} KeepNothing<T>(xs: seq<T>)
    ensures Keep(xs, {}) == xs
  {
    if |xs| > 0 {
      KeepNothing(xs[..|xs| - 1]);
    }
  }

  lemma {:induction false} KeepAppendAbove<T>(p: seq<T>, q: seq<T>, S: set<int>)
    requires forall x :: x in S ==> x < |p|
    ensures Keep(p + q, S) == Keep(p, S) + q
  {
    if |q| > 0 {
      var q' := q[..|q| - 1];
      assert (p + q)[..|p + q| - 1] == p + q';
      KeepAppendAbove(p, q', S);
      assert q == q' + [q[|q| - 1]];
    } else {
      assert p + q == p;
    }
  }

  lemma KeepDeleteMax<T>(xs: seq<T>, S: set<int>, m: int)
    requires Occupied(S) && m == Max(S) && 0 <= m < |xs|
    ensures Keep(DeleteAt(xs, m), S - {m}) == Keep(xs, S)
  {
    var head := xs[..m];
    var upto := xs[..m + 1];
    var tail := xs[m + 1..];
    assert xs == upto + tail;
    KeepAppendAbove(upto, tail, S);
    assert upto[..|upto| - 1] == head;
    assert Keep(upto, S) == Keep(head, S);
    KeepAgree(head, S, S - {m});
    assert DeleteAt(xs, m) == head + tail;
    KeepAppendAbove(head, tail, S - {m});
  }

  lemma {:induction false} KeepMap<A, B>(f: A -> B, xs: seq<A>, S: set<int>)
    ensures Keep(Seqs.Map(f, xs), S) == Seqs.Map(f, Keep(xs, S))
  {
    if |xs| > 0 {
      var init := xs[..|xs| - 1];
      assert Seqs.Map(f, xs)[..|xs| - 1] == Seqs.Map(f, init);
      KeepMap(f, init, S);
    }
  }

  /** One in-range deletion of a well-formed store deletes exactly that
      record, metadata included, and leaves a well-formed store. */
  lemma RemoveOneRecords(s: Store, m: int)
    requires WellFormed(s) && 0 <= m < |s.texts|
    ensures var o := RemoveOne(s, m);
      o.raised == None && WellFormed(o.store) && Records(o.store) == DeleteAt(Records(s), m)
  {
    var o := RemoveOne(s, m);
    forall k | k in o.store.metadata ensures 0 <= k < |o.store.texts| {
      ShiftFacts(s.metadata, m, k);
    }
    forall p | 0 <= p < |o.store.texts| ensures Records(o.store)[p] == DeleteAt(Records(s), m)[p] {
      ShiftFacts(s.metadata, m, p);
    }
  }

  /** Deleting positions `S` from a well-formed store keeps exactly the
      records at the other positions, in their order, each with its own
      text, embedding and metadata; the store stays well formed. */
  lemma {:induction false} RemoveKeepsRecords(s: Store, S: set<int>)
    requires WellFormed(s)
    ensures var r := RemoveDesc(Outcome(s, None), S);
      r.raised == None && WellFormed(r.store) && Records(r.store) == Keep(Records(s), S)
    decreases |S|
  {
    if !Occupied(S) {
      assert forall y :: y !in S;
      assert S == {};
      KeepNothing(Records(s));
    } else {
      var m := Max(S);
      if 0 <= m < |s.texts| {
        var o := RemoveOne(s, m);
        RemoveOneRecords(s, m);
        RemoveKeepsRecords(o.store, S - {m});
        KeepDeleteMax(Records(s), S, m);
      } else {
        RemoveKeepsRecords(s, S - {m});
        KeepAgree(Records(s), S - {m}, S);
      }
    }
  }

  /** The surviving texts are the original texts without the removed
      positions, in their original order. */
  lemma RemoveKeepsTexts(s: Store, S: set<int>)
    requires WellFormed(s)
    ensures RemoveDesc(Outcome(s, None), S).store.texts == Keep(s.texts, S)
  {
    var r := RemoveDesc(Outcome(s, None), S).store;
    RemoveKeepsRecords(s, S);
    var text := (x: Record) => x.text;
    assert r.texts == Seqs.Map(text, Records(r));
    assert s.texts == Seqs.Map(text, Records(s));
    KeepMap(text, Records(s), S);
  }
}
