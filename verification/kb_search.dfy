/** `search_kb` and the three `_search_*_kb` methods: pick a knowledge base
    (by name, or by `classify_question` when none is given), build or reuse
    its store, run the similarity search, and turn the raw results into
    tagged hits. The query embedding is a parameter (`None` when the
    embedding call raises, which the search methods catch and answer with no
    hits). */
module KbSearch {
  import opened Wrappers
  import opened Seqs
  import opened VectorStore
  import opened StoreSearch
  import opened KbRecords
  import opened KbRouter
  import opened KbBuild
  import opened Text

  /** Pair `i` is the first whose answer is `text`. */
  predicate FirstAnswerAt(qa: seq<QaPair>, text: string, i: int) {
    0 <= i < |qa| && qa[i].answer == text && forall j :: 0 <= j < i ==> qa[j].answer != text
  }

  /** `next((qa for qa in qa_data if qa["answer"] == text), None)`. */
  function FirstAnswering(qa: seq<QaPair>, text: string): (r: Option<QaPair>)
    ensures r.None? <==> forall i :: 0 <= i < |qa| ==> qa[i].answer != text
    ensures r.Some? ==> r.value.answer == text
  {
    if |qa| == 0 then None
    else if qa[0].answer == text then Some(qa[0])
    else
      var r := FirstAnswering(qa[1..], text);
      assert forall i :: 1 <= i < |qa| ==> qa[i] == qa[1..][i - 1];
      r
  }

  /** The pair found is the first whose answer is `text`. */
  lemma {:induction false} FirstAnsweringIsFirst(qa: seq<QaPair>, text: string)
    ensures var r := FirstAnswering(qa, text);
      r.Some? ==> exists i :: FirstAnswerAt(qa, text, i) && qa[i] == r.value
  {
    if |qa| > 0 {
      if qa[0].answer == text {
        assert FirstAnswerAt(qa, text, 0);
      } else {
        FirstAnsweringIsFirst(qa[1..], text);
        var r := FirstAnswering(qa[1..], text);
        if r.Some? {
          var i :| FirstAnswerAt(qa[1..], text, i) && qa[1..][i] == r.value;
          assert forall j :: 1 <= j < i + 1 ==> qa[j] == qa[1..][j - 1];
          assert FirstAnswerAt(qa, text, i + 1);
        }
      }
    }
  }

  function Answers(qa: seq<QaPair>): SearchResult -> bool {
    (x: SearchResult) => FirstAnswering(qa, x.text).Some?
  }

  function ToQaHit(qa: seq<QaPair>): SearchResult -> KbHit {
    (x: SearchResult) =>
      var p := FirstAnswering(qa, x.text);
      if p.Some? then QaHit(p.value.question, p.value.answer, x.score) else QaHit("", x.text, x.score)
  }

  /** The result loop of `_search_qa_kb`. */
  function ShapeQa(qa: seq<QaPair>, results: seq<SearchResult>): seq<KbHit> {
    if |results| == 0 then []
    else
      var p := FirstAnswering(qa, results[0].text);
      (if p.Some? then [QaHit(p.value.question, p.value.answer, results[0].score)] else [])
        + ShapeQa(qa, results[1..])
  }

  /** A result is kept exactly when its text is the answer of some pair,
      and becomes a hit with the first such pair's question and answer and
      the result's score; search order is kept. */
  lemma {:induction false} ShapeQaKeepsAnswered(qa: seq<QaPair>, results: seq<SearchResult>)
    ensures ShapeQa(qa, results) == Map(ToQaHit(qa), Filter(Answers(qa), results))
  {
    if |results| > 0 {
      var x := results[0];
      var p := FirstAnswering(qa, x.text);
      var head: seq<KbHit> := if p.Some? then [QaHit(p.value.question, p.value.answer, x.score)] else [];
      assert ShapeQa(qa, results) == head + ShapeQa(qa, results[1..]);
      ShapeQaKeepsAnswered(qa, results[1..]);
      assert results == [x] + results[1..];
      MapFilterCons(Answers(qa), ToQaHit(qa), x, results[1..]);
      assert head == if Answers(qa)(x) then [ToQaHit(qa)(x)] else [];
    }
  }

  /** Every QA hit repeats a stored answer verbatim. */
  lemma ShapeQaHitsAreAnswers(qa: seq<QaPair>, results: seq<SearchResult>)
    ensures var hits := ShapeQa(qa, results);
      |hits| <= |results| &&
      forall i :: 0 <= i < |hits| ==> hits[i].QaHit? && exists j :: 0 <= j < |qa| && qa[j].answer == hits[i].answer
  {
    ShapeQaKeepsAnswered(qa, results);
    var kept := Filter(Answers(qa), results);
    forall i | 0 <= i < |kept|
      ensures exists j :: 0 <= j < |qa| && qa[j].answer == ToQaHit(qa)(kept[i]).answer
    {
      assert Answers(qa)(kept[i]);
      FirstAnsweringIsFirst(qa, kept[i].text);
    }
  }

  /** The hit kind of the property and master-clause bases. */
  function RecordHit(t: KbType, data: Record, score: real): KbHit {
    if t == Property then PropertyHit(data, score) else ClauseHit(data, score)
  }

  /** The text a record of that base is stored under. */
  function SearchText(t: KbType, r: Record): string {
    if t == Property then PropertySearchText(r) else MasterClauseSearchText(r)
  }

  function SearchTexts(t: KbType, rows: seq<Record>): (r: seq<string>)
    ensures |r| == |rows|
    ensures forall i :: 0 <= i < |rows| ==> r[i] == SearchText(t, rows[i])
  {
    if t == Property then PropertySearchTexts(rows) else MasterClauseSearchTexts(rows)
  }

  /** The result loop of `_search_property_kb` and
      `_search_master_clauses_kb` as written: result `i` is paired with row
      `i` of the data, whatever record the result came from. */
  function ShapeRecordsAsWritten(t: KbType, results: seq<SearchResult>, data: seq<Record>): (hits: seq<KbHit>)
    ensures |hits| == if |results| < |data| then |results| else |data|
    ensures forall i :: 0 <= i < |hits| ==> hits[i] == RecordHit(t, data[i], results[i].score)
    ensures forall i :: 0 <= i < |hits| ==> !hits[i].QaHit? && hits[i].data == data[i]
    ensures t != Qa ==> forall i :: 0 <= i < |hits| ==> TagOf(hits[i]) == t
  {
    var n := if |results| < |data| then |results| else |data|;
    seq(n, i requires 0 <= i < n => RecordHit(t, data[i], results[i].score))
  }

  /** The same loop pairing each result with the row it was found at. */
  function ShapeRecordsByIndex(t: KbType, results: seq<SearchResult>, idx: seq<nat>, data: seq<Record>): (hits: seq<KbHit>)
    requires |idx| == |results|
    ensures |hits| <= |results|
    ensures t != Qa ==> forall i :: 0 <= i < |hits| ==> TagOf(hits[i]) == t
  {
    if |results| == 0 then []
    else
      var head := if idx[0] < |data| then [RecordHit(t, data[idx[0]], results[0].score)] else [];
      var rest := ShapeRecordsByIndex(t, results[1..], idx[1..], data);
      assert forall i :: 0 <= i < |head + rest| ==> (head + rest)[i] in head || (head + rest)[i] in rest;
      head + rest
  }

  /** When every position is a row, each result is paired with its own row. */
  lemma {:induction false} ByIndexPairsOwnRow(t: KbType, results: seq<SearchResult>, idx: seq<nat>, data: seq<Record>)
    requires |idx| == |results|
    requires forall i :: 0 <= i < |idx| ==> idx[i] < |data|
    ensures var hits := ShapeRecordsByIndex(t, results, idx, data);
      |hits| == |results| && forall i :: 0 <= i < |hits| ==> hits[i] == RecordHit(t, data[idx[i]], results[i].score)
  {
    if |results| > 0 {
      ByIndexPairsOwnRow(t, results[1..], idx[1..], data);
    }
  }

  /** `_search_property_kb` / `_search_master_clauses_kb` as written, given
      the store `build_vector_store` returned. */
  function SearchRecordsAsWritten(t: KbType, store: Option<Store>, sim: Similarity, query: Option<Embedding>, k: int,
                                  data: seq<Record>): (hits: seq<KbHit>)
    ensures store.None? || query.None? ==> hits == []
    ensures t != Qa ==> forall i :: 0 <= i < |hits| ==> TagOf(hits[i]) == t
    // hit `i` carries row `i` of the data, whichever record result `i` came from
    ensures |hits| <= |data| && forall i :: 0 <= i < |hits| ==> !hits[i].QaHit? && hits[i].data == data[i]
    // a search that raises (for instance on a query of the wrong width) finds nothing
    ensures store.Some? && query.Some? && Search(store.value, sim, query.value, k).Err? ==> hits == []
  {
    if store.None? || query.None? then []
    else
      var res := Search(store.value, sim, query.value, k);
      if res.Err? then []
      else
        ShapeRecordsAsWritten(t, res.value, data)
  }

  /** The corrected search: each hit carries the row its result was found at. */
  function SearchRecords(t: KbType, store: Option<Store>, sim: Similarity, query: Option<Embedding>, k: int,
                         data: seq<Record>): (hits: seq<KbHit>)
    ensures store.None? || query.None? ==> hits == []
    ensures t != Qa ==> forall i :: 0 <= i < |hits| ==> TagOf(hits[i]) == t
    ensures store.Some? && query.Some? && Search(store.value, sim, query.value, k).Err? ==> hits == []
  {
    if store.None? || query.None? then []
    else
      var st := store.value;
      var res := Search(st, sim, query.value, k);
      if res.Err? then []
      else if |st.embeddings| == 0 then []
      else ShapeRecordsByIndex(t, res.value, TopIndices(st, sim, query.value, k), data)
  }

  /** The store the builder makes from the rows and the embeddings of their
      search texts. */
  function BuiltFrom(t: KbType, data: seq<Record>, embeddings: seq<Embedding>): Store {
    Store(embeddings, SearchTexts(t, data), map[])
  }

  /** With the corrected pairing, on a store built from the rows, every hit
      is the row whose search text is the text of its result, with that
      result's score, in search order. */
  lemma SearchRecordsPairsMatchedRow(t: KbType, data: seq<Record>, embeddings: seq<Embedding>, sim: Similarity,
                                     query: Embedding, k: int)
    requires |embeddings| == |data|
    ensures var st := BuiltFrom(t, data, embeddings);
      var results := Search(st, sim, query, k);
      var hits := SearchRecords(t, Some(st), sim, Some(query), k, data);
      && (results.Ok? <==> |data| == 0 || Comparable(embeddings, query))
      && (results.Err? ==> hits == [])
      && (results.Ok? ==>
           && |hits| == |results.value|
           && forall i :: 0 <= i < |hits| ==>
                && (hits[i].PropertyHit? || hits[i].ClauseHit?)
                && SearchText(t, hits[i].data) == results.value[i].text
                && hits[i].score == results.value[i].score)
  {
    var st := BuiltFrom(t, data, embeddings);
    var results := Search(st, sim, query, k);
    if |embeddings| > 0 && results.Ok? {
      var idx := TopIndices(st, sim, query, k);
      ByIndexPairsOwnRow(t, results.value, idx, data);
    }
  }

  /** Two rows whose search texts differ, the second scoring higher against
      the query: the top result is the second row's text, but the as-written
      loop pairs it with the first row. */
  lemma AsWrittenPairsWrongRow(t: KbType, r0: Record, r1: Record, e0: Embedding, e1: Embedding, sim: Similarity, query: Embedding)
    requires SearchText(t, r0) != SearchText(t, r1)
    requires |e0| == |e1| == |query| > 0
    requires sim(query, e1) > sim(query, e0)
    ensures var st := BuiltFrom(t, [r0, r1], [e0, e1]);
      var results := Search(st, sim, query, 1);
      var hits := SearchRecordsAsWritten(t, Some(st), sim, Some(query), 1, [r0, r1]);
      && results.Ok? && |results.value| == 1 && |hits| == 1
      && hits[0].data == r0
      && results.value[0].text == SearchText(t, r1)
      && SearchText(t, hits[0].data) != results.value[0].text
  {
    var data := [r0, r1];
    var st := BuiltFrom(t, data, [e0, e1]);
    var sc := Scores(sim, query, st.embeddings);
    var results := Search(st, sim, query, 1);
    TopResultOfTwo(st, sim, query);
    assert st.texts[1] == SearchText(t, r1);
    var hits := SearchRecordsAsWritten(t, Some(st), sim, Some(query), 1, data);
    assert hits == ShapeRecordsAsWritten(t, results.value, data);
    assert hits[0] == RecordHit(t, r0, sc[1]);
  }

  /** With two records, the search for one result finds the higher-scoring
      record. */
  lemma TopResultOfTwo(st: Store, sim: Similarity, query: Embedding)
    requires |st.embeddings| == |st.texts| == 2 && sim(query, st.embeddings[1]) > sim(query, st.embeddings[0])
    requires Comparable(st.embeddings, query)
    ensures Search(st, sim, query, 1) == Ok([ResultAt(st, Scores(sim, query, st.embeddings), 1)])
  {
    TopOfTwo(st, sim, query);
    var r := Search(st, sim, query, 1);
    assert r.Ok? && |r.value| == 1;
    assert r.value == [r.value[0]];
  }

  /** With two vectors, the one scoring higher is the top one. */
  lemma TopOfTwo(st: Store, sim: Similarity, query: Embedding)
    requires |st.embeddings| == 2 && sim(query, st.embeddings[1]) > sim(query, st.embeddings[0])
    ensures TopIndices(st, sim, query, 1) == [1]
  {
    var sc := Scores(sim, query, st.embeddings);
    assert sc[0] < sc[1];
    assert Rank(sc, 1) == [0];
    assert Rank(sc, 2) == Insert(sc, 1, [0]) == [1, 0];
  }

  /** The discrepancy on concrete rows: an empty row and a row with an
      address, the second vector scoring 1.0 and the first 0.0. */
  lemma AsWrittenExample()
    ensures var data := [[], [Field("Property Address", "1 Main St")]];
      var sim := (q: Embedding, v: Embedding) => if |v| > 0 then v[0] else 0.0;
      var st := BuiltFrom(Property, data, [[0.0], [1.0]]);
      var results := Search(st, sim, [0.0], 1);
      var hits := SearchRecordsAsWritten(Property, Some(st), sim, Some([0.0]), 1, data);
      && results.Ok? && |results.value| == 1 && |hits| == 1
      && SearchText(Property, hits[0].data) != results.value[0].text
  {
    var r1 := [Field("Property Address", "1 Main St")];
    PropertySearchTextEmpty([]);
    AddressShows(r1);
    var sim := (q: Embedding, v: Embedding) => if |v| > 0 then v[0] else 0.0;
    AsWrittenPairsWrongRow(Property, [], r1, [0.0], [1.0], sim, [0.0]);
  }

  /** A row with an address has a non-empty property search text. */
  lemma AddressShows(r: Record)
    requires Get(r, "Property Address") != ""
    ensures PropertySearchText(r) != ""
  {
    var c := PropertyColumns[0];
    assert c.key == "Property Address";
    var parts := ColumnParts(r, PropertyColumns);
    assert parts == [c.prefix + Get(r, c.key) + c.suffix] + ColumnParts(r, PropertyColumns[1..]);
    if |parts| > 1 {
      assert PropertySearchText(r) == parts[0] + " | " + Join(" | ", parts[1..]);
    }
  }

  /** `_search_qa_kb`, given the store `build_vector_store` returned and the
      query embedding (`None` when `get_embedding` raises). */
  function SearchQa(store: Option<Store>, sim: Similarity, query: Option<Embedding>, k: int, qa: seq<QaPair>): (hits: seq<KbHit>)
    // no store, or no query embedding: nothing
    ensures store.None? || query.None? ==> hits == []
    // a search that raises is caught: nothing
    ensures store.Some? && query.Some? && Search(store.value, sim, query.value, k).Err? ==> hits == []
    // otherwise the results whose text is a stored answer, as QA hits, in search order
    ensures store.Some? && query.Some? && Search(store.value, sim, query.value, k).Ok? ==>
      hits == Map(ToQaHit(qa), Filter(Answers(qa), Search(store.value, sim, query.value, k).value))
    ensures forall i :: 0 <= i < |hits| ==> hits[i].QaHit? && exists j :: 0 <= j < |qa| && qa[j].answer == hits[i].answer
  {
    if store.None? || query.None? then []
    else
      var res := Search(store.value, sim, query.value, k);
      if res.Err? then []
      else
        ShapeQaKeepsAnswered(qa, res.value);
        ShapeQaHitsAreAnswers(qa, res.value);
        ShapeQa(qa, res.value)
  }

  function TagOf(h: KbHit): KbType {
    match h
    case QaHit(_, _, _) => Qa
    case PropertyHit(_, _) => Property
    case ClauseHit(_, _) => MasterClauses
  }

  /** The knowledge base `search_kb` consults: the named one, or the
      classifier's choice when no name is given; `None` for an unknown name. */
  function Route(query: string, kbName: Option<string>): (t: Option<KbType>)
    // a name picks a base exactly when it is one of the three names, and
    // then the base it names
    ensures kbName.Some? ==> (t.Some? <==> exists u :: Name(u) == kbName.value)
    ensures kbName.Some? && t.Some? ==> Name(t.value) == kbName.value
    // without a name the classifier always picks one
    ensures kbName.None? ==> t == Some(Classify(query))
  {
    if kbName.None? then Some(Classify(query)) else ParseKbType(kbName.value)
  }

  /** The hits of one knowledge base, once its store is known. */
  function SearchIn(t: KbType, store: Option<Store>, sim: Similarity, query: Option<Embedding>, k: int, src: Sources): (hits: seq<KbHit>)
    ensures forall i :: 0 <= i < |hits| ==> TagOf(hits[i]) == t
  {
    match t
    case Qa =>
      var hits := SearchQa(store, sim, query, k, src.qa);
      assert forall i :: 0 <= i < |hits| ==> hits[i].QaHit? by {
        if store.Some? && query.Some? {
          var res := Search(store.value, sim, query.value, k);
          if res.Ok? {
            ShapeQaHitsAreAnswers(src.qa, res.value);
          }
        }
      }
      hits
    case Property =>
      var hits := SearchRecords(Property, store, sim, query, k, src.property);
      hits
    case MasterClauses =>
      var hits := SearchRecords(MasterClauses, store, sim, query, k, src.clauses);
      hits
  }

  /** `search_kb(query, kb_type, top_k)`: route, build (unforced), search.
      The agent's slot for the chosen base is updated by the build. */
  function SearchKb(a: Agent, query: string, kbName: Option<string>, k: int, src: Sources, embed: Embedder, save: SaveOutcome,
                    sim: Similarity, queryEmbedding: Option<Embedding>): (r: (Agent, seq<KbHit>))
    // an unknown name finds nothing and builds nothing
    ensures Route(query, kbName).None? ==> r == (a, [])
    // every hit comes from the chosen base; the other bases are untouched
    ensures Route(query, kbName).Some? ==>
      var t := Route(query, kbName).value;
      && (forall i :: 0 <= i < |r.1| ==> TagOf(r.1[i]) == t)
      && (forall u :: u != t ==> SlotOf(r.0, u) == SlotOf(a, u))
  {
    match Route(query, kbName)
    case None => (a, [])
    case Some(t) =>
      var b := LazyBuild(SlotOf(a, t), false, EmbedInputs(src, t), StoredTexts(src, t), embed, save);
      (WithSlot(a, t, b.slot), SearchIn(t, b.returned, sim, queryEmbedding, k, src))
  }

  /** Without a name, `search_kb` behaves as if called with the classifier's
      choice. */
  lemma SearchKbDefaultsToClassifier(a: Agent, query: string, k: int, src: Sources, embed: Embedder, save: SaveOutcome,
                                     sim: Similarity, queryEmbedding: Option<Embedding>)
    ensures SearchKb(a, query, None, k, src, embed, save, sim, queryEmbedding)
         == SearchKb(a, query, Some(Name(Classify(query))), k, src, embed, save, sim, queryEmbedding)
  {
    ParseName(Classify(query));
  }

  /* ---------- answer_internal_question ---------- */

  const PleaseAsk := Cross + " Please provide a question."
  const NoHits := "\U{1F914} No relevant " + "information " + "found in internal " + "knowledge base."
  const ProcessingFailure := Cross + " Error processing question: "
  const ModelFailure := "\U{26A0}\U{FE0F} LLM failed: "

  /** `answer_internal_question(question, use_llm=useLlm)`. The agent's
      search is given as its hits, or as the text of the exception that
      building the agent or searching raised; the language model's call
      likewise, as its reply or the text of its exception. */
  function AnswerQuestion(question: string, search: Result<seq<KbHit>, string>, useLlm: bool,
                          model: Result<string, string>): (a: string)
    // a blank question is refused before any agent is built
    ensures Blank(question) ==> a == PleaseAsk
    ensures !Blank(question) && search.Err? ==> a == ProcessingFailure + search.error
    // no hit gives the agent's own notice, never `format_simple_response`'s
    ensures !Blank(question) && search == Ok([]) ==> a == NoHits
    ensures !useLlm ==> a != NoResults
    // hits without the model are shown as the best one is laid out
    ensures !Blank(question) && search.Ok? && |search.value| > 0 && !useLlm ==> a == FormatSimpleResponse(search.value)
    // the model's reply is passed on stripped
    ensures !Blank(question) && search.Ok? && |search.value| > 0 && useLlm && model.Ok? ==> a == Strip(model.value)
    // a failing model still shows the hits, behind its error
    ensures !Blank(question) && search.Ok? && |search.value| > 0 && useLlm && model.Err? ==>
      a == ModelFailure + model.error + "\n\n" + FormatSimpleResponse(search.value)
  {
    if Blank(question) then PleaseAsk
    else match search
      case Err(e) => ProcessingFailure + e
      case Ok(hits) =>
        if |hits| == 0 then NoHits
        else if !useLlm then FormatSimpleResponse(hits)
        else match model
          case Ok(reply) => Strip(reply)
          case Err(e) => ModelFailure + e + "\n\n" + FormatSimpleResponse(hits)
  }

  lemma StartsWithConcat(x: string, y: string)
    ensures StartsWith(x + y, x)
  {
    assert (x + y)[..|x|] == x;
  }

  /** Without the model, an answer opens with the cross mark exactly when
      the question was blank or the agent raised. */
  lemma CrossedExactlyOnFailure(question: string, search: Result<seq<KbHit>, string>, model: Result<string, string>)
    ensures StartsWith(AnswerQuestion(question, search, false, model), Cross)
        <==> Blank(question) || search.Err?
  {
    if Blank(question) {
      StartsWithConcat(Cross, " Please provide a question.");
    } else if search.Err? {
      ConcatAssoc(Cross, " Error processing question: ", search.error);
      StartsWithConcat(Cross, " Error processing question: " + search.error);
    } else if |search.value| == 0 {
      assert NoHits[0] != Cross[0];
    } else {
      assert FormatSimpleResponse(search.value)[0] == '*';
    }
  }
}
