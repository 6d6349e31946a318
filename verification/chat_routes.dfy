/** The decision logic of the chat routes (backend/api/routes/chat.py): which
    agent a request goes to, which knowledge base an answer came from, and
    the summaries of the health and rebuild routes. The agents are
    parameters: what the internal agent does for a knowledge-base choice,
    and what the lease agent does, each either an answer or the text of the
    exception it raised. Timestamps, logging, the metadata dictionaries and
    the lease agent's enrichment are left out. */
module ChatRoutes {
  import opened Wrappers
  import opened Text
  import opened KbRouter
  import opened KbRecords
  import KbSearch

  /* ---------- Which knowledge base answered ---------- */

  /** The value of `detected_kb`. */
  datatype Detected = DetectedProperty | DetectedClauses | DetectedQa | Unknown

  function DetectedName(d: Detected): string {
    match d
    case DetectedProperty => "property"
    case DetectedClauses => "master_clauses"
    case DetectedQa => "qa"
    case Unknown => "unknown"
  }

  /** The marker test of both internal routes: the property marker wins over
      the contract marker, which wins over the question/answer pair. */
  function DetectKb(answer: string): (d: Detected)
    ensures d == DetectedProperty <==> Contains(answer, PropertyMarker)
    ensures d == DetectedClauses <==> !Contains(answer, PropertyMarker) && Contains(answer, ContractMarker)
    ensures d == DetectedQa <==>
      !Contains(answer, PropertyMarker) && !Contains(answer, ContractMarker)
      && Contains(answer, QuestionMarker) && Contains(answer, AnswerMarker)
  {
    if Contains(answer, PropertyMarker) then DetectedProperty
    else if Contains(answer, ContractMarker) then DetectedClauses
    else if Contains(answer, QuestionMarker) && Contains(answer, AnswerMarker) then DetectedQa
    else Unknown
  }

  /** A string cannot hold a longer one. */
  lemma NotContainedWhenLonger(s: string, w: string)
    requires |w| > |s|
    ensures !Contains(s, w)
  {
    ContainsAt(s, w);
  }

  /** Whatever holds `w` holds its first character. */
  lemma ContainsFirstChar(s: string, w: string)
    requires |w| > 0 && Contains(s, w)
    ensures w[0] in s
  {
    ContainsAt(s, w);
    var i :| OccursAt(s, w, i);
    assert s[i..i + |w|][0] == s[i];
  }

  lemma StartsWithMore(x: string, y: string, w: string)
    requires StartsWith(x, w)
    ensures StartsWith(x + y, w)
  {
    assert (x + y)[..|w|] == x[..|w|];
  }

  /** `format_simple_response`'s text for no hits names no knowledge base. */
  lemma NoResultsUnknown()
    ensures DetectKb(NoResults) == Unknown
  {
    NotContainedWhenLonger(NoResults, PropertyMarker);
    NotContainedWhenLonger(NoResults, ContractMarker);
    assert '*' !in NoResults;
    if Contains(NoResults, QuestionMarker) {
      ContainsFirstChar(NoResults, QuestionMarker);
    }
  }

  lemma NoHitsLacks(c: char)
    requires c == 'P' || c == 'C' || c == '*'
    ensures c !in KbSearch.NoHits
  {
    assert c !in "\U{1F914} No relevant " && c !in "information ";
    assert c !in "found in internal " && c !in "knowledge base.";
  }

  /** The agent's own notice for no hits, which is what the routes see
      when the search finds nothing, names no knowledge base. */
  lemma NoHitsUnknown()
    ensures DetectKb(KbSearch.NoHits) == Unknown
  {
    var n := KbSearch.NoHits;
    NoHitsLacks('P');
    NoHitsLacks('C');
    NoHitsLacks('*');
    if Contains(n, PropertyMarker) {
      ContainsFirstChar(n, PropertyMarker);
    }
    if Contains(n, ContractMarker) {
      ContainsFirstChar(n, ContractMarker);
    }
    if Contains(n, QuestionMarker) {
      ContainsFirstChar(n, QuestionMarker);
    }
  }

  /** A property answer is always recognised as one. */
  lemma PropertyAnswerDetected(results: seq<KbHit>)
    requires |results| > 0 && results[0].PropertyHit?
    ensures DetectKb(FormatSimpleResponse(results)) == DetectedProperty
  {
    var lines := FieldLines(results[0].data);
    ConcatAssoc("**" + PropertyMarker, "**\n", lines);
    ContainsInfix("**", PropertyMarker, "**\n" + lines);
  }

  /** A contract answer is recognised as a contract answer, unless one of
      its cells itself carries the property marker. */
  lemma ClauseAnswerDetected(results: seq<KbHit>)
    requires |results| > 0 && results[0].ClauseHit?
    ensures DetectKb(FormatSimpleResponse(results)) in {DetectedProperty, DetectedClauses}
  {
    var lines := ImportantLines(results[0].data, ImportantFields);
    ConcatAssoc("**" + ContractMarker, "**\n", lines);
    ContainsInfix("**", ContractMarker, "**\n" + lines);
  }

  /** A question/answer answer always carries both of its markers, so it is
      never reported as unknown. */
  lemma QaAnswerDetected(results: seq<KbHit>)
    requires |results| > 0 && results[0].QaHit?
    ensures DetectKb(FormatSimpleResponse(results)) != Unknown
  {
    var q := results[0].question;
    var a := results[0].answer;
    var head := QuestionMarker + " " + q + "\n";
    assert StartsWith(QuestionMarker, QuestionMarker);
    StartsWithMore(QuestionMarker, " ", QuestionMarker);
    StartsWithMore(QuestionMarker + " ", q, QuestionMarker);
    StartsWithMore(QuestionMarker + " " + q, "\n", QuestionMarker);
    StartsWithMore(head, AnswerMarker, QuestionMarker);
    StartsWithMore(head + AnswerMarker, " ", QuestionMarker);
    StartsWithMore(head + AnswerMarker + " ", a, QuestionMarker);
    ConcatAssoc(head + AnswerMarker, " ", a);
    ContainsInfix(head, AnswerMarker, " " + a);
  }

  /* ---------- Where a request goes ---------- */

  /** The agent a `source` sends the question to. */
  datatype Route = Internal(kb: Option<KbType>) | Lease | Rejected

  /** `internal` and `auto` let the agent choose; the three names fix the
      base; `lease` goes to the lease agent; anything else is refused. */
  function MapSource(source: string): (r: Route)
    ensures r == Internal(None) <==> source == "internal" || source == "auto"
    ensures r.Internal? && r.kb.Some? ==> Name(r.kb.value) == source
    ensures r == Lease <==> source == "lease"
  {
    if source == "internal" || source == "auto" then Internal(None)
    else match ParseKbType(source)
      case Some(t) => Internal(Some(t))
      case None => if source == "lease" then Lease else Rejected
  }

  /** Exactly the six documented sources are accepted. */
  lemma AcceptedSources(source: string)
    ensures MapSource(source) != Rejected <==>
      source in ["internal", "auto", "qa", "property", "master_clauses", "lease"]
  {
  }

  /** A knowledge-base name as source asks for that base. */
  lemma SourceNamesBase(t: KbType)
    ensures MapSource(Name(t)) == Internal(Some(t))
  {
    ParseName(t);
  }

  /* ---------- Responses ---------- */

  /** The `ChatResponse` fields the routes set. */
  datatype ChatResponse = ChatResponse(
    answer: string, source: string, kbType: Option<string>, success: bool, error: Option<string>)

  /** The `HTTPException`s raised inside the routes' `try`. */
  datatype RouteError = EmptyQuestion | InvalidSource(source: string) | InvalidKbType(kbType: string)

  /** `str(e)` of the exception: status code, colon, detail. */
  function ErrorText(e: RouteError): string {
    match e
    case EmptyQuestion => "400: Question cannot be empty"
    case InvalidSource(s) =>
      "400: Invalid source: " + s + ". Must be 'auto', 'internal', 'qa', 'property', 'master_clauses', or 'lease'"
    case InvalidKbType(t) => "400: Invalid KB type: " + t + ". Must be 'qa', 'property', or 'master_clauses'"
  }

  const RouterFailure := "\U{274C} Error processing request: "
  const InternalFailure := "\U{274C} Error: "

  /** The outcome of one agent call: the answer, or the text `str(e)` of the
      exception it raised. */
  type Probe = Result<string, string>

  /** What the internal agent does for a requested base (`None`: let it
      choose). */
  type InternalAgent = Option<KbType> -> Probe

  /** `chat_router(request)`. */
  function ChatRouter(question: string, source: string, internal: InternalAgent, lease: Probe): (r: ChatResponse)
    // a request succeeds exactly when the question is not blank, the source
    // is known and the agent it goes to answers without raising
    ensures r.success <==>
      !Blank(question) && (match MapSource(source)
                           case Internal(kb) => internal(kb).Ok?
                           case Lease => lease.Ok?
                           case Rejected => false)
    // a failed request echoes its source and carries the error text
    ensures !r.success ==>
      r.source == source && r.error.Some? && r.answer == RouterFailure + r.error.value && r.kbType.None?
    // the exception an agent raises is the error reported
    ensures !Blank(question) && MapSource(source).Internal? && internal(MapSource(source).kb).Err? ==>
      r.error == Some(internal(MapSource(source).kb).error)
    ensures !Blank(question) && MapSource(source) == Lease && lease.Err? ==> r.error == Some(lease.error)
    // an internal answer reports the base its markers show
    ensures r.success && MapSource(source).Internal? ==>
      r == ChatResponse(internal(MapSource(source).kb).value, "internal", Some(DetectedName(DetectKb(r.answer))), true, None)
    ensures r.success && MapSource(source) == Lease ==>
      r == ChatResponse(lease.value, "lease", Some("lease_clauses"), true, None)
  {
    if Blank(question) then
      ChatResponse(RouterFailure + ErrorText(EmptyQuestion), source, None, false, Some(ErrorText(EmptyQuestion)))
    else match MapSource(source)
      case Internal(kb) =>
        (match internal(kb)
         case Ok(answer) => ChatResponse(answer, "internal", Some(DetectedName(DetectKb(answer))), true, None)
         case Err(e) => ChatResponse(RouterFailure + e, source, None, false, Some(e)))
      case Lease =>
        (match lease
         case Ok(answer) => ChatResponse(answer, "lease", Some("lease_clauses"), true, None)
         case Err(e) => ChatResponse(RouterFailure + e, source, None, false, Some(e)))
      case Rejected =>
        var e := InvalidSource(source);
        ChatResponse(RouterFailure + ErrorText(e), source, None, false, Some(ErrorText(e)))
  }

  /** The blank-question check comes first: a blank question fails with the
      empty-question error whatever the source. */
  lemma BlankQuestionFirst(question: string, source: string, internal: InternalAgent, lease: Probe)
    requires Blank(question)
    ensures ChatRouter(question, source, internal, lease).error == Some(ErrorText(EmptyQuestion))
  {
  }

  /** When the internal agent answers without a language model, a property
      source that finds a hit is reported as a property answer. */
  lemma RoutedPropertyAnswer(question: string, internal: InternalAgent, lease: Probe, results: seq<KbHit>)
    requires !Blank(question)
    requires internal(Some(Property)) == Ok(FormatSimpleResponse(results))
    requires |results| > 0 && results[0].PropertyHit?
    ensures ChatRouter(question, "property", internal, lease).kbType == Some("property")
  {
    SourceNamesBase(Property);
    PropertyAnswerDetected(results);
  }

  /** What the internal agent does for a raw `kb_type` request field. */
  type RawInternalAgent = Option<string> -> Probe

  /** `chat_internal_enhanced(request)`. */
  function ChatInternalEnhanced(question: string, kbType: Option<string>, internal: RawInternalAgent): (r: ChatResponse)
    ensures r.source == "internal"
    ensures r.success <==> !Blank(question) && internal(kbType).Ok?
    ensures Blank(question) ==> r.answer == InternalFailure + ErrorText(EmptyQuestion) && r.error == Some(ErrorText(EmptyQuestion))
    // an exception of the agent becomes the error, behind the cross mark
    ensures !Blank(question) && internal(kbType).Err? ==>
      r.answer == InternalFailure + internal(kbType).error && r.error == Some(internal(kbType).error) && r.kbType.None?
    ensures r.success ==> r.answer == internal(kbType).value && r.kbType == Some(DetectedName(DetectKb(r.answer)))
  {
    if Blank(question) then
      ChatResponse(InternalFailure + ErrorText(EmptyQuestion), "internal", None, false, Some(ErrorText(EmptyQuestion)))
    else match internal(kbType)
      case Ok(answer) => ChatResponse(answer, "internal", Some(DetectedName(DetectKb(answer))), true, None)
      case Err(e) => ChatResponse(InternalFailure + e, "internal", None, false, Some(e))
  }

  /** Both internal routes detect the base the same way: for the same
      question and the same agent answer they report the same base. */
  lemma RoutesAgree(question: string, source: string, internal: InternalAgent, raw: RawInternalAgent, lease: Probe)
    requires MapSource(source).Internal?
    requires raw(if MapSource(source).kb.Some? then Some(source) else None) == internal(MapSource(source).kb)
    ensures ChatRouter(question, source, internal, lease).kbType
         == ChatInternalEnhanced(question, if MapSource(source).kb.Some? then Some(source) else None, raw).kbType
  {
  }

  /* ---------- Health ---------- */

  /** `"ok" if not answer.startswith("❌") else "error"`, or `"error: " + e`. */
  function ProbeStatus(p: Probe): (s: string)
    ensures s == "ok" <==> p.Ok? && !StartsWith(p.value, Cross)
  {
    match p
    case Ok(a) => if StartsWith(a, Cross) then "error" else "ok"
    case Err(e) => "error: " + e
  }

  datatype Overall = Healthy | Degraded | Failing

  function OverallName(o: Overall): string {
    match o
    case Healthy => "healthy"
    case Degraded => "degraded"
    case Failing => "error"
  }

  /** Every internal probe passed. */
  predicate InternalOk(probes: seq<Probe>) {
    forall i :: 0 <= i < |probes| ==> ProbeStatus(probes[i]) == "ok"
  }

  /** The overall status of `health_check` from the probes of the three
      internal bases and the lease probe. */
  function HealthOverall(internal: seq<Probe>, lease: Probe): (o: Overall)
    requires |internal| == 3
    ensures o == Healthy <==> InternalOk(internal) && ProbeStatus(lease) == "ok"
    ensures o == Failing <==> !InternalOk(internal) && ProbeStatus(lease) != "ok"
    ensures o == Degraded <==> (InternalOk(internal) != (ProbeStatus(lease) == "ok"))
  {
    var internalOk := InternalOk(internal);
    var leaseOk := ProbeStatus(lease) == "ok";
    if internalOk && leaseOk then Healthy
    else if internalOk || leaseOk then Degraded
    else Failing
  }

  /** One failing internal base is enough to lose `healthy`, and an answer
      starting with the cross counts as a failure. */
  lemma CrossedAnswerDegrades(internal: seq<Probe>, lease: Probe, i: int)
    requires |internal| == 3 && 0 <= i < 3
    requires internal[i].Ok? && StartsWith(internal[i].value, Cross)
    ensures HealthOverall(internal, lease) != Healthy
  {
    assert ProbeStatus(internal[i]) != "ok";
  }

  /** When the agents answer without a language model and find hits, every
      probe passes: such an answer starts with `*` or is the no-results
      text. */
  lemma FormattedAnswersPass(hits: seq<KbHit>)
    ensures ProbeStatus(Ok(FormatSimpleResponse(hits))) == "ok"
  {
    var a := FormatSimpleResponse(hits);
    if a == NoResults {
      assert a[..1] == "N";
    } else {
      assert a[..1] == "*";
    }
  }

  /* ---------- Rebuild summary ---------- */

  datatype RebuildSummary = RebuildSummary(successful: nat, total: nat, success: bool)

  /** `success_count`, `total_count` and `success_count > 0` of the
      rebuild route. */
  function SummariseRebuild(results: map<string, bool>): (r: RebuildSummary)
    ensures r.successful <= r.total == |results|
    ensures r.success <==> exists k :: k in results && results[k]
    ensures r.successful == r.total <==> forall k :: k in results ==> results[k]
  {
    var succeeded := Succeeded(results);
    SucceededCount(results);
    RebuildSummary(|succeeded|, |results|, |succeeded| > 0)
  }

  /** The keys whose rebuild succeeded. */
  function Succeeded(results: map<string, bool>): set<string> {
    set k | k in results && results[k]
  }

  lemma SucceededCount(results: map<string, bool>)
    ensures |Succeeded(results)| <= |results|
    ensures |Succeeded(results)| > 0 <==> exists k :: k in results && results[k]
    ensures |Succeeded(results)| == |results| <==> forall k :: k in results ==> results[k]
  {
    var succeeded := Succeeded(results);
    SubsetCard(succeeded, results.Keys);
    if |succeeded| == |results.Keys| {
      SameCardSubset(succeeded, results.Keys);
    }
    if forall k :: k in results ==> results[k] {
      assert succeeded == results.Keys;
    }
    if exists k :: k in results && results[k] {
      var k :| k in results && results[k];
      assert k in succeeded;
    }
    if |succeeded| > 0 {
      assert succeeded != {};
      var k :| k in succeeded;
      assert k in results && results[k];
    }
  }

  lemma SubsetCard<T>(a: set<T>, b: set<T>)
    requires a <= b
    ensures |a| <= |b|
  {
    assert b == a + (b - a);
  }

  /** A subset as large as its superset is the whole of it. */
  lemma SameCardSubset<T>(a: set<T>, b: set<T>)
    requires a <= b && |a| == |b|
    ensures a == b
  {
    assert |b - a| == |b| - |a| == 0;
  }

  /** The rebuild reports all three bases rebuilt. */
  lemma RebuildAllSucceeds()
    ensures SummariseRebuild(map["qa" := true, "property" := true, "master_clauses" := true])
         == RebuildSummary(3, 3, true)
  {
    var m := map["qa" := true, "property" := true, "master_clauses" := true];
    assert m.Keys == {"qa", "property", "master_clauses"};
    var r := SummariseRebuild(m);
    assert r.successful == r.total;
  }

  /* ---------- Testing one base ---------- */

  /** The question `test_knowledge_base` asks each base. */
  function TestQuestion(t: KbType): string {
    match t
    case Qa => "How do I submit a request?"
    case Property => "What properties are available?"
    case MasterClauses => "What are the termination clauses?"
  }

  datatype TestReport = TestReport(
    kbType: string, question: Option<string>, answer: Option<string>, success: bool, error: Option<string>)

  /** `test_knowledge_base(kb_type)`, the agent answering without a language
      model. */
  function TestKnowledgeBase(kbType: string, agent: KbType -> Probe): (r: TestReport)
    ensures r.kbType == kbType
    // the report passes exactly when the base is known and the agent's
    // answer does not start with the cross mark
    ensures r.success <==> ParseKbType(kbType).Some? && ProbeStatus(agent(ParseKbType(kbType).value)) == "ok"
    ensures ParseKbType(kbType).None? ==> r == TestReport(kbType, None, None, false, Some(ErrorText(InvalidKbType(kbType))))
    ensures ParseKbType(kbType).Some? && agent(ParseKbType(kbType).value).Ok? ==>
      && r.question == Some(TestQuestion(ParseKbType(kbType).value))
      && r.answer == Some(agent(ParseKbType(kbType).value).value)
      && r.error.None?
    // an exception of the agent leaves only the error in the report
    ensures ParseKbType(kbType).Some? && agent(ParseKbType(kbType).value).Err? ==>
      r == TestReport(kbType, None, None, false, Some(agent(ParseKbType(kbType).value).error))
  {
    match ParseKbType(kbType)
    case None =>
      var e := InvalidKbType(kbType);
      TestReport(kbType, None, None, false, Some(ErrorText(e)))
    case Some(t) =>
      match agent(t)
      case Ok(answer) => TestReport(kbType, Some(TestQuestion(t)), Some(answer), !StartsWith(answer, Cross), None)
      case Err(e) => TestReport(kbType, None, None, false, Some(e))
  }

  /** Without the language model, a non-blank question whose search does
      not raise passes the probe, whether or not anything was found. */
  lemma ModelFreeAnswerPasses(question: string, hits: seq<KbHit>, model: Result<string, string>)
    requires !Blank(question)
    ensures ProbeStatus(Ok(KbSearch.AnswerQuestion(question, Ok(hits), false, model))) == "ok"
  {
    KbSearch.CrossedExactlyOnFailure(question, Ok(hits), model);
  }

  /** Testing a base succeeds when the agent answers its test question
      without the language model and its search does not raise, whether or
      not anything was found. */
  lemma TestOfFormattedAnswerSucceeds(t: KbType, agent: KbType -> Probe, hits: seq<KbHit>, model: Result<string, string>)
    requires agent(t) == Ok(KbSearch.AnswerQuestion(TestQuestion(t), Ok(hits), false, model))
    ensures TestKnowledgeBase(Name(t), agent).success
  {
    ParseName(t);
    assert !IsSpace(TestQuestion(t)[0]);
    ModelFreeAnswerPasses(TestQuestion(t), hits, model);
  }

  /* ---------- The agent call as written ---------- */

  /** `str(e)` of the `TypeError` Python raises when a call passes a keyword
      the function does not declare. */
  const KeywordRejected := "answer_internal_question() got an unexpected keyword argument 'kb_type'"

  /** The internal agent as the routes call it: every call passes
      `kb_type=`, which `answer_internal_question` does not declare, so every
      call raises before the agent runs. */
  function CallAsWritten<K>(kb: K): (p: Probe)
    ensures p == Err(KeywordRejected)
  {
    Err(KeywordRejected)
  }

  /** As written, every route that reaches the internal agent fails with the
      keyword error: the chat router for every internal source, the internal
      route for every question, the test of every known base, and the health
      check never reports "healthy". */
  lemma AsWrittenInternalCallsFail(question: string, source: string, kbType: Option<string>, lease: Probe, t: KbType)
    ensures !Blank(question) && MapSource(source).Internal? ==>
      ChatRouter(question, source, CallAsWritten<Option<KbType>>, lease)
        == ChatResponse(RouterFailure + KeywordRejected, source, None, false, Some(KeywordRejected))
    ensures !Blank(question) ==>
      ChatInternalEnhanced(question, kbType, CallAsWritten<Option<string>>)
        == ChatResponse(InternalFailure + KeywordRejected, "internal", None, false, Some(KeywordRejected))
    ensures TestKnowledgeBase(Name(t), (u: KbType) => CallAsWritten(Some(u)))
         == TestReport(Name(t), None, None, false, Some(KeywordRejected))
    ensures HealthOverall([CallAsWritten(Some(Qa)), CallAsWritten(Some(Property)), CallAsWritten(Some(MasterClauses))], lease)
         != Healthy
  {
    ParseName(t);
    var probes := [CallAsWritten(Some(Qa)), CallAsWritten(Some(Property)), CallAsWritten(Some(MasterClauses))];
    assert ProbeStatus(probes[0]) != "ok";
  }
}
