/** The in-memory vector store `LeaseVectorStore` (backend/utils/retriever.py):
    two parallel lists, embeddings and texts, and a metadata map keyed by list
    position. Every operation is a pure function from the state before the
    call to the state after it; an operation that raises reports the
    exception next to the state it leaves behind, because the source can
    raise after it has already changed the lists. */
module VectorStore {
  import opened Wrappers

  /** An embedding vector; its numbers are only ever handed to the
      similarity oracle, never computed with. */
  type Embedding = seq<real>

  /** One record's metadata dictionary. */
  type Meta = map<string, string>

  datatype Store = Store(embeddings: seq<Embedding>, texts: seq<string>, metadata: map<int, Meta>)

  datatype StoreError =
    | LengthMismatch          // ValueError: embeddings and texts differ in number
    | MetadataLengthMismatch  // ValueError: metadata and texts differ in number
    | IndexOutOfRange(index: int)
    | DimensionMismatch       // ValueError from cosine_similarity: a stored vector's width is not the query's
    | NotFound                // FileNotFoundError from `load`
    | CorruptData             // any other failure to read a snapshot

  /** The state a call leaves behind, and the exception it raised, if any. */
  datatype Outcome = Outcome(store: Store, raised: Option<StoreError>)

  const EmptyStore: Store := Store([], [], map[])

  /** The store's invariant: one embedding per text, and metadata only at
      positions that hold a record. */
  predicate WellFormed(s: Store) {
    && |s.embeddings| == |s.texts|
    && forall k :: k in s.metadata ==> 0 <= k < |s.texts|
  }

  /** Metadata entries numbered from `base`: `ms[i]` under key `base + i`. */
  function NumberFrom(base: int, ms: seq<Meta>): (m: map<int, Meta>)
    ensures forall k :: k in m <==> base <= k < base + |ms|
    ensures forall i :: 0 <= i < |ms| ==> m[base + i] == ms[i]
  {
    if |ms| == 0 then map[] else NumberFrom(base, ms[..|ms| - 1])[base + |ms| - 1 := ms[|ms| - 1]]
  }

  /** `add_embeddings(embeddings, texts, metadata)`; an empty `metadata`
      stands for both `None` and `[]`, which the source treats alike. */
  function AddEmbeddings(s: Store, embeddings: seq<Embedding>, texts: seq<string>, metadata: seq<Meta>): (r: Outcome)
    // a count mismatch is rejected before anything changes
    ensures |embeddings| != |texts| ==> r == Outcome(s, Some(LengthMismatch))
    // otherwise both lists grow by the inputs, in input order
    ensures |embeddings| == |texts| ==>
      r.store.embeddings == s.embeddings + embeddings && r.store.texts == s.texts + texts
    // a metadata list of the wrong length raises after the lists grew
    ensures |embeddings| == |texts| && |metadata| > 0 && |metadata| != |texts| ==>
      r.raised == Some(MetadataLengthMismatch) && r.store.metadata == s.metadata
    ensures |embeddings| == |texts| && |metadata| == 0 ==> r.raised == None && r.store.metadata == s.metadata
    // item i of a matching metadata list lands at position old_len + i; other keys keep their entry
    ensures |embeddings| == |texts| && |metadata| == |texts| ==>
      && r.raised == None
      && (forall i :: 0 <= i < |metadata| ==> |s.texts| + i in r.store.metadata && r.store.metadata[|s.texts| + i] == metadata[i])
      && (forall k :: k in r.store.metadata <==> k in s.metadata || |s.texts| <= k < |s.texts| + |texts|)
      && (forall k :: k in s.metadata && !(|s.texts| <= k < |s.texts| + |texts|) ==> r.store.metadata[k] == s.metadata[k])
  {
    if |embeddings| != |texts| then Outcome(s, Some(LengthMismatch))
    else
      var grown := s.(embeddings := s.embeddings + embeddings, texts := s.texts + texts);
      if |metadata| == 0 then Outcome(grown, None)
      else if |metadata| != |texts| then Outcome(grown, Some(MetadataLengthMismatch))
      else Outcome(grown.(metadata := s.metadata + NumberFrom(|s.texts|, metadata)), None)
  }

  /** A successful or failed batch insert never breaks the store's invariant,
      and the texts and embeddings stay in one-to-one correspondence. */
  lemma AddPreservesWellFormed(s: Store, embeddings: seq<Embedding>, texts: seq<string>, metadata: seq<Meta>)
    requires WellFormed(s)
    ensures WellFormed(AddEmbeddings(s, embeddings, texts, metadata).store)
  {
  }

  /** `add_single_text(embedding, text, metadata)`; an empty `metadata`
      stands for `None` and `{}`, which the source does not store. */
  function AddSingleText(s: Store, embedding: Embedding, text: string, metadata: Meta): (r: Store)
    ensures r.embeddings == s.embeddings + [embedding] && r.texts == s.texts + [text]
    ensures |metadata| > 0 ==> r.metadata == s.metadata[|s.texts| := metadata]
    ensures |metadata| == 0 ==> r.metadata == s.metadata
  {
    var grown := s.(embeddings := s.embeddings + [embedding], texts := s.texts + [text]);
    if |metadata| > 0 then grown.(metadata := s.metadata[|grown.texts| - 1 := metadata]) else grown
  }

  /** The single insert is the batch insert of one record: same lists, same
      metadata key, and it never raises. */
  lemma AddSingleIsBatchOfOne(s: Store, embedding: Embedding, text: string, metadata: Meta)
    ensures var batch := AddEmbeddings(s, [embedding], [text], if |metadata| > 0 then [metadata] else []);
      batch.raised == None && batch.store == AddSingleText(s, embedding, text, metadata)
  {
    if |metadata| > 0 {
      var added := NumberFrom(|s.texts|, [metadata]);
      assert forall k :: k in added <==> k == |s.texts|;
      assert added == map[|s.texts| := metadata];
      assert s.metadata + added == s.metadata[|s.texts| := metadata];
    }
  }

  /** `update_text(index, new_text, new_embedding, new_metadata)`; an empty
      embedding or metadata stands for the falsy "not given" values. */
  function UpdateText(s: Store, index: int, newText: string, newEmbedding: Embedding, newMetadata: Meta): (r: Outcome)
    // a position outside the texts raises before anything changes
    ensures !(0 <= index < |s.texts|) ==> r == Outcome(s, Some(IndexOutOfRange(index)))
    ensures 0 <= index < |s.texts| && (|newEmbedding| == 0 || index < |s.embeddings|) ==>
      && r.raised == None
      && r.store.texts == s.texts[index := newText]
      && r.store.embeddings == (if |newEmbedding| > 0 then s.embeddings[index := newEmbedding] else s.embeddings)
      && r.store.metadata == (if |newMetadata| > 0 then s.metadata[index := newMetadata] else s.metadata)
    // metadata is only ever added or replaced, never removed
    ensures s.metadata.Keys <= r.store.metadata.Keys
    ensures WellFormed(s) ==> WellFormed(r.store)
  {
    if 0 <= index < |s.texts| then
      var t := s.(texts := s.texts[index := newText]);
      if |newEmbedding| > 0 && index >= |s.embeddings| then
        // only a store whose lists disagree in length gets here: the
        // assignment to the shorter embeddings list raises IndexError
        Outcome(t, Some(IndexOutOfRange(index)))
      else
        var e := if |newEmbedding| > 0 then t.(embeddings := t.embeddings[index := newEmbedding]) else t;
        Outcome(if |newMetadata| > 0 then e.(metadata := e.metadata[index := newMetadata]) else e, None)
    else Outcome(s, Some(IndexOutOfRange(index)))
  }

  /** `clear()`. */
  function Clear(s: Store): (r: Store)
    ensures |r.texts| == 0 && |r.embeddings| == 0 && |r.metadata| == 0
    ensures WellFormed(r)
  {
    EmptyStore
  }

  /** The dictionary `get_stats()` returns; `coverage` is absent for an empty
      store and is the exact ratio where the source computes a float. */
  datatype Stats = Stats(totalTexts: nat, dimension: nat, hasMetadata: bool, coverage: Option<real>)

  /** A set of positions below `n` has at most `n` members. */
  lemma {:induction false} PositionsBound(keys: set<int>, n: nat)
    requires forall k :: k in keys ==> 0 <= k < n
    ensures |keys| <= n
  {
    if n > 0 {
      var below := keys - {n - 1};
      PositionsBound(below, n - 1);
      assert keys <= below + {n - 1};
    } else {
      assert forall k :: k !in keys;
      assert keys == {};
    }
  }

  /** A well-formed store holds at most one metadata entry per record. */
  lemma MetadataCount(s: Store)
    requires WellFormed(s)
    ensures |s.metadata| <= |s.texts|
  {
    PositionsBound(s.metadata.Keys, |s.texts|);
  }

  function GetStats(s: Store): (r: Stats)
    ensures |s.embeddings| == 0 ==> r == Stats(0, 0, false, None)
    ensures |s.embeddings| > 0 ==>
      r.totalTexts == |s.texts| && r.dimension == |s.embeddings[0]| && (r.hasMetadata <==> |s.metadata| > 0)
    // the coverage is the share of texts with metadata, 0 when there are no texts
    ensures |s.embeddings| > 0 ==>
      r.coverage == Some(if |s.texts| > 0 then |s.metadata| as real / |s.texts| as real else 0.0)
    // in a well-formed store the metadata coverage is a proportion
    ensures WellFormed(s) && r.coverage.Some? ==> 0.0 <= r.coverage.value <= 1.0
  {
    if |s.embeddings| == 0 then Stats(0, 0, false, None)
    else
      var coverage := if |s.texts| > 0 then |s.metadata| as real / |s.texts| as real else 0.0;
      assert WellFormed(s) ==> |s.metadata| <= |s.texts| by {
        if WellFormed(s) { MetadataCount(s); }
      }
      Stats(|s.texts|, |s.embeddings[0]|, |s.metadata| > 0, Some(coverage))
  }

  /** The positions `0 .. n-1`. */
  function Positions(n: nat): (p: set<int>)
    ensures forall k :: k in p <==> 0 <= k < n
  {
    if n == 0 then {} else Positions(n - 1) + {n - 1}
  }

  lemma {:induction false} PositionsCount(n: nat)
    ensures |Positions(n)| == n
  {
    if n > 0 {
      PositionsCount(n - 1);
    }
  }

  /** A share of `b` things is whole exactly when it counts all of them,
      and nothing exactly when it counts none. */
  lemma Share(a: nat, b: nat)
    requires b > 0
    ensures a as real / b as real == 1.0 <==> a == b
    ensures a as real / b as real == 0.0 <==> a == 0
  {
    var q := a as real / b as real;
    assert q * b as real == a as real;
  }

  /** In a well-formed store with records, the coverage is 1.0 exactly when
      every record has metadata, and 0.0 exactly when none has. */
  lemma CoverageFull(s: Store)
    requires WellFormed(s) && |s.embeddings| > 0
    ensures GetStats(s).coverage == Some(1.0) <==> forall i :: 0 <= i < |s.texts| ==> i in s.metadata
    ensures GetStats(s).coverage == Some(0.0) <==> |s.metadata| == 0
  {
    Share(|s.metadata|, |s.texts|);
    assert GetStats(s).coverage == Some(|s.metadata| as real / |s.texts| as real);
    var keys := s.metadata.Keys;
    var all := Positions(|s.texts|);
    PositionsCount(|s.texts|);
    assert keys <= all;
    assert |all - keys| == |all| - |keys|;
    if forall i :: 0 <= i < |s.texts| ==> i in s.metadata {
      assert all == keys;
    }
    if |keys| == |all| {
      assert all - keys == {};
      forall i | 0 <= i < |s.texts| ensures i in s.metadata {
        assert i in all;
      }
    }
  }

  /** The dictionary a snapshot file holds; a field may be missing. */
  datatype Snapshot = Snapshot(
    embeddings: Option<seq<Embedding>>,
    texts: Option<seq<string>>,
    metadata: Option<map<int, Meta>>,
    version: Option<string>)

  /** What a path on disk holds: nothing, something that does not read as a
      snapshot, or a snapshot. */
  datatype Persisted = Absent | Unreadable | Present(snapshot: Snapshot)

  const FormatVersion: string := "1.0"

  /** `save(path)`: the whole state, with the format version, as one snapshot. */
  function Save(s: Store): (r: Snapshot)
    ensures r.embeddings == Some(s.embeddings) && r.texts == Some(s.texts) && r.metadata == Some(s.metadata)
    ensures r.version == Some(FormatVersion)
  {
    Snapshot(Some(s.embeddings), Some(s.texts), Some(s.metadata), Some(FormatVersion))
  }

  /** `load(path)`: replace the whole state by the snapshot's contents, an
      absent field reading as empty; on failure the state is unchanged. */
  function Load(s: Store, file: Persisted): (r: Outcome)
    ensures file == Absent ==> r == Outcome(s, Some(NotFound))
    ensures file == Unreadable ==> r == Outcome(s, Some(CorruptData))
    // a full replace: the new state is made of the snapshot alone
    ensures file.Present? ==>
      && r.raised == None
      && r.store.embeddings == file.snapshot.embeddings.GetOr([])
      && r.store.texts == file.snapshot.texts.GetOr([])
      && r.store.metadata == file.snapshot.metadata.GetOr(map[])
  {
    match file
    case Absent => Outcome(s, Some(NotFound))
    case Unreadable => Outcome(s, Some(CorruptData))
    case Present(snap) =>
      Outcome(Store(snap.embeddings.GetOr([]), snap.texts.GetOr([]), snap.metadata.GetOr(map[])), None)
  }

  /** Saving and loading into any store reproduces the saved state exactly. */
  lemma SaveLoadRoundTrip(s: Store, other: Store)
    ensures Load(other, Present(Save(s))) == Outcome(s, None)
  {
  }
}
