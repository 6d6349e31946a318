/** The lazy construction of the agent's three vector stores
    (`build_vector_store` and `_build_*_vector_store`): return the cached
    store unless a rebuild is forced; otherwise load the persisted store if
    there is one; otherwise embed the source texts, build a fresh store and
    persist it. The embedding service and how writing the file ends are
    parameters; the file system is the `Persisted` value of each path. */
module KbBuild {
  import opened Wrappers
  import opened Seqs
  import opened VectorStore
  import opened KbRecords
  import opened KbRouter

  /** One vector store of the agent: the cached object (`None` until first
      built) and what its pickle path holds. */
  datatype Slot = Slot(cached: Option<Store>, file: Persisted)

  /** `get_embeddings(texts)`: one embedding per text, or `None` when the
      call raises. */
  type Embedder = seq<string> -> Option<seq<Embedding>>

  /** The slot after a build call and the value the call returns. */
  datatype Built = Built(slot: Slot, returned: Option<Store>)

  /** How `save(path)` ends. The file is opened with mode "wb", which
      truncates it before `pickle.dump` writes anything, so a dump that
      raises leaves a file that no longer unpickles; an `open` (or
      `makedirs`) that raises leaves the file as it was. */
  datatype SaveOutcome = Saved | OpenFailed | DumpFailed

  /** The build from source reaches `save`: the source is non-empty, the
      embedding call answers and the embeddings are accepted. */
  predicate Saving(inputs: seq<string>, texts: seq<string>, embed: Embedder) {
    && |texts| > 0
    && embed(inputs).Some?
    && AddEmbeddings(EmptyStore, embed(inputs).value, texts, []).raised.None?
  }

  /** The build-from-source half: an empty source returns `None` and leaves
      the slot as it is; any failure while embedding, adding or saving sets
      the cached store to `None`. */
  function FromSource(slot: Slot, inputs: seq<string>, texts: seq<string>, embed: Embedder, save: SaveOutcome): (r: Built)
    ensures |texts| == 0 ==> r == Built(slot, None)
    ensures |texts| > 0 ==> r.returned == r.slot.cached
    ensures r.returned.Some? <==> Saving(inputs, texts, embed) && save == Saved
    ensures r.returned.Some? ==>
      && r.returned.value == Store(embed(inputs).value, texts, map[])
      && r.slot.file == Present(Save(r.returned.value))
    // a failure before the file is opened, or in opening it, keeps the file
    ensures !Saving(inputs, texts, embed) || save == OpenFailed ==> r.slot.file == slot.file
    // a failed dump leaves the truncated file behind
    ensures Saving(inputs, texts, embed) && save == DumpFailed ==> r.slot.file == Unreadable
  {
    if |texts| == 0 then Built(slot, None)
    else
      match embed(inputs)
      case None => Built(slot.(cached := None), None)
      case Some(es) =>
        var o := AddEmbeddings(EmptyStore, es, texts, []);
        if o.raised.Some? then Built(slot.(cached := None), None)
        else
          match save
          case Saved => Built(Slot(Some(o.store), Present(Save(o.store))), Some(o.store))
          case OpenFailed => Built(slot.(cached := None), None)
          case DumpFailed => Built(Slot(None, Unreadable), None)
  }

  /** `_build_*_vector_store(force_rebuild)` for one slot. `inputs` are the
      texts that get embedded and `texts` the texts that get stored (the
      questions and the answers for the QA base, the same search texts for
      the other two). A persisted file that fails to load leaves an empty
      store in the cache before the build from source goes on. */
  function LazyBuild(slot: Slot, force: bool, inputs: seq<string>, texts: seq<string>, embed: Embedder, save: SaveOutcome): (r: Built)
    // a cached store wins unless a rebuild is forced
    ensures slot.cached.Some? && !force ==> r == Built(slot, slot.cached)
    // a readable persisted file is loaded next
    ensures slot.cached.None? && !force && slot.file.Present? ==>
      var loaded := Load(EmptyStore, slot.file).store;
      r == Built(slot.(cached := Some(loaded)), Some(loaded))
    // otherwise the store is built from the source
    ensures force || (slot.cached.None? && slot.file == Absent) ==> r == FromSource(slot, inputs, texts, embed, save)
    ensures slot.cached.None? && !force && slot.file == Unreadable ==>
      r == FromSource(slot.(cached := Some(EmptyStore)), inputs, texts, embed, save)
  {
    if slot.cached.Some? && !force then Built(slot, slot.cached)
    else if slot.file != Absent && !force then
      var o := Load(EmptyStore, slot.file);
      if o.raised.None? then Built(slot.(cached := Some(o.store)), Some(o.store))
      else FromSource(slot.(cached := Some(EmptyStore)), inputs, texts, embed, save)
    else FromSource(slot, inputs, texts, embed, save)
  }

  /** Whatever a build returns is what the slot caches afterwards, so an
      unforced second call returns the same store without doing any work. */
  lemma BuildIsCached(slot: Slot, force: bool, inputs: seq<string>, texts: seq<string>, embed: Embedder, save: SaveOutcome,
                      inputs': seq<string>, texts': seq<string>, embed': Embedder, save': SaveOutcome)
    requires LazyBuild(slot, force, inputs, texts, embed, save).returned.Some?
    ensures var r := LazyBuild(slot, force, inputs, texts, embed, save);
      LazyBuild(r.slot, false, inputs', texts', embed', save') == Built(r.slot, r.returned)
  {
  }

  /** A store built from the source and persisted is what a fresh agent
      loads from the file later, whatever the source holds by then. */
  lemma BuildThenReload(slot: Slot, inputs: seq<string>, texts: seq<string>, embed: Embedder, save: SaveOutcome,
                        inputs': seq<string>, texts': seq<string>, embed': Embedder, save': SaveOutcome)
    requires LazyBuild(slot, true, inputs, texts, embed, save).returned.Some?
    ensures var r := LazyBuild(slot, true, inputs, texts, embed, save);
      LazyBuild(Slot(None, r.slot.file), false, inputs', texts', embed', save').returned == r.returned
  {
    var r := LazyBuild(slot, true, inputs, texts, embed, save);
    SaveLoadRoundTrip(r.returned.value, EmptyStore);
  }

  /** A forced build whose dump fails returns nothing and loses whatever the
      file held before: a fresh agent cannot load it and builds from the
      source again, with an empty store cached first. */
  lemma FailedDumpLosesSnapshot(slot: Slot, inputs: seq<string>, texts: seq<string>, embed: Embedder,
                                inputs': seq<string>, texts': seq<string>, embed': Embedder, save': SaveOutcome)
    requires Saving(inputs, texts, embed)
    ensures var r := LazyBuild(slot, true, inputs, texts, embed, DumpFailed);
      && r == Built(Slot(None, Unreadable), None)
      && LazyBuild(Slot(None, r.slot.file), false, inputs', texts', embed', save')
         == FromSource(Slot(Some(EmptyStore), Unreadable), inputs', texts', embed', save')
  {
  }

  /** An unreadable file with an empty source returns `None` but leaves an
      empty store cached, so the next unforced call returns that empty store. */
  lemma UnreadableThenEmptySource(file: Persisted, inputs: seq<string>, embed: Embedder, save: SaveOutcome)
    requires file == Unreadable
    ensures var r := LazyBuild(Slot(None, file), false, inputs, [], embed, save);
      && r.returned == None
      && LazyBuild(r.slot, false, inputs, [], embed, save).returned == Some(EmptyStore)
  {
  }

  /** A built store holds one embedding per text and no metadata. */
  lemma BuiltIsWellFormed(slot: Slot, inputs: seq<string>, texts: seq<string>, embed: Embedder, save: SaveOutcome)
    requires FromSource(slot, inputs, texts, embed, save).returned.Some?
    ensures WellFormed(FromSource(slot, inputs, texts, embed, save).returned.value)
  {
    var r := FromSource(slot, inputs, texts, embed, save);
    var es := embed(inputs).value;
    assert AddEmbeddings(EmptyStore, es, texts, []).raised == None;
  }

  /** One row of the question-answer base. */
  datatype QaPair = QaPair(question: string, answer: string)

  /** The rows each knowledge base is built from, already read. */
  datatype Sources = Sources(qa: seq<QaPair>, property: seq<Record>, clauses: seq<Record>)

  /** The agent's three stores. */
  datatype Agent = Agent(qa: Slot, property: Slot, clauses: Slot)

  function SlotOf(a: Agent, t: KbType): Slot {
    match t
    case Qa => a.qa
    case Property => a.property
    case MasterClauses => a.clauses
  }

  function WithSlot(a: Agent, t: KbType, s: Slot): (r: Agent)
    ensures SlotOf(r, t) == s
    ensures forall u :: u != t ==> SlotOf(r, u) == SlotOf(a, u)
  {
    match t
    case Qa => a.(qa := s)
    case Property => a.(property := s)
    case MasterClauses => a.(clauses := s)
  }

  function Question(p: QaPair): string { p.question }
  function Answer(p: QaPair): string { p.answer }

  /** What gets embedded for a knowledge base. */
  function EmbedInputs(src: Sources, t: KbType): seq<string> {
    match t
    case Qa => Map(Question, src.qa)
    case Property => PropertySearchTexts(src.property)
    case MasterClauses => MasterClauseSearchTexts(src.clauses)
  }

  /** What gets stored as the texts of a knowledge base. */
  function StoredTexts(src: Sources, t: KbType): (r: seq<string>)
    ensures |r| == |EmbedInputs(src, t)|
  {
    match t
    case Qa => Map(Answer, src.qa)
    case Property => PropertySearchTexts(src.property)
    case MasterClauses => MasterClauseSearchTexts(src.clauses)
  }

  datatype BuildError = UnknownKb(name: string)  // ValueError

  /** `build_vector_store(kb_type, force_rebuild)`: the three names dispatch
      to their slot; any other name raises ValueError and changes nothing. */
  function BuildVectorStore(a: Agent, kbName: string, force: bool, src: Sources, embed: Embedder, save: SaveOutcome)
    : (r: Result<(Agent, Option<Store>), BuildError>)
    ensures ParseKbType(kbName).None? <==> r == Err(UnknownKb(kbName))
    ensures r.Ok? ==>
      var t := ParseKbType(kbName).value;
      var b := LazyBuild(SlotOf(a, t), force, EmbedInputs(src, t), StoredTexts(src, t), embed, save);
      && r.value.1 == b.returned
      && SlotOf(r.value.0, t) == b.slot
      && forall u :: u != t ==> SlotOf(r.value.0, u) == SlotOf(a, u)
  {
    match ParseKbType(kbName)
    case None => Err(UnknownKb(kbName))
    case Some(t) =>
      var b := LazyBuild(SlotOf(a, t), force, EmbedInputs(src, t), StoredTexts(src, t), embed, save);
      Ok((WithSlot(a, t, b.slot), b.returned))
  }

  /** `rebuild_all_vector_stores`: a fresh agent force-builds the three bases
      in order; every build catches its own failures, so each reports True. */
  function RebuildAll(files: Agent, src: Sources, embed: Embedder, save: KbType -> SaveOutcome): (r: (Agent, map<string, bool>))
    ensures r.1 == map["qa" := true, "property" := true, "master_clauses" := true]
    // each base ends as a forced build from source leaves it
    ensures forall t :: SlotOf(r.0, t) == FromSource(Slot(None, SlotOf(files, t).file), EmbedInputs(src, t), StoredTexts(src, t), embed, save(t)).slot
    // a base ends up cached exactly when its build was saved
    ensures forall t :: SlotOf(r.0, t).cached.Some? <==> Saving(EmbedInputs(src, t), StoredTexts(src, t), embed) && save(t) == Saved
  {
    var a0 := Agent(Slot(None, files.qa.file), Slot(None, files.property.file), Slot(None, files.clauses.file));
    var r1 := BuildVectorStore(a0, "qa", true, src, embed, save(Qa));
    var r2 := BuildVectorStore(r1.value.0, "property", true, src, embed, save(Property));
    var r3 := BuildVectorStore(r2.value.0, "master_clauses", true, src, embed, save(MasterClauses));
    assert forall t :: SlotOf(a0, t) == Slot(None, SlotOf(files, t).file);
    (r3.value.0, map["qa" := true, "property" := true, "master_clauses" := true])
  }

  /** After a rebuild, each base's file holds the new store when its build
      was saved, is truncated by a failed dump, and is untouched otherwise. */
  lemma RebuildAllFiles(files: Agent, src: Sources, embed: Embedder, save: KbType -> SaveOutcome, t: KbType)
    ensures var slot := SlotOf(RebuildAll(files, src, embed, save).0, t);
      var saving := Saving(EmbedInputs(src, t), StoredTexts(src, t), embed);
      && (slot.cached.Some? ==> slot.file == Present(Save(slot.cached.value)))
      && (saving && save(t) == DumpFailed ==> slot.file == Unreadable)
      && (!saving || save(t) == OpenFailed ==> slot.file == SlotOf(files, t).file)
  {
  }
}
