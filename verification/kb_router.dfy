/** Which internal knowledge base answers a question: `classify_question`
    counts the property and the legal keywords that occur in the lower-cased
    question and picks the side with more; a tie, including none at all,
    goes to the question-answer base. */
module KbRouter {
  import opened Wrappers
  import opened Seqs
  import opened Text

  datatype KbType = Qa | Property | MasterClauses

  /** The name the agent and the routes use for a knowledge base. */
  function Name(t: KbType): string {
    match t
    case Qa => "qa"
    case Property => "property"
    case MasterClauses => "master_clauses"
  }

  /** The knowledge base a name denotes, if any. */
  function ParseKbType(s: string): (r: Option<KbType>)
    ensures r.Some? ==> Name(r.value) == s
    ensures r.None? ==> forall t: KbType :: Name(t) != s
  {
    if s == "qa" then Some(Qa)
    else if s == "property" then Some(Property)
    else if s == "master_clauses" then Some(MasterClauses)
    else None
  }

  lemma ParseName(t: KbType)
    ensures ParseKbType(Name(t)) == Some(t)
  {
  }

  const PropertyKeywords: seq<string> := [
    "property", "address", "floor", "suite", "rent", "sf", "square feet",
    "broker", "associate", "lease", "monthly", "annual", "gci"
  ]

  const LegalKeywords: seq<string> := [
    "contract", "agreement", "clause", "term", "expiration", "renewal",
    "governing law", "non-compete", "exclusivity", "termination",
    "assignment", "license", "warranty", "insurance", "liability"
  ]

  /** `sum(1 for keyword in keywords if keyword in text)`. */
  function CountMatches(text: string, keywords: seq<string>): nat {
    if |keywords| == 0 then 0
    else (if Contains(text, keywords[0]) then 1 else 0) + CountMatches(text, keywords[1..])
  }

  function OccursIn(text: string): string -> bool {
    (w: string) => Contains(text, w)
  }

  /** The count is the number of keywords that occur in the text: each
      keyword counts at most once, however often it occurs. */
  lemma {:induction false} CountIsOccurringKeywords(text: string, keywords: seq<string>)
    ensures CountMatches(text, keywords) == |Filter(OccursIn(text), keywords)|
    ensures CountMatches(text, keywords) <= |keywords|
  {
    if |keywords| > 0 {
      CountIsOccurringKeywords(text, keywords[1..]);
    }
  }

  function PropertyMatches(question: string): nat {
    CountMatches(Lower(question), PropertyKeywords)
  }

  function LegalMatches(question: string): nat {
    CountMatches(Lower(question), LegalKeywords)
  }

  /** `classify_question`. */
  function Classify(question: string): (t: KbType)
    ensures t == Property <==> PropertyMatches(question) > LegalMatches(question)
    ensures t == MasterClauses <==> LegalMatches(question) > PropertyMatches(question)
    ensures t == Qa <==> PropertyMatches(question) == LegalMatches(question)
  {
    var p := PropertyMatches(question);
    var l := LegalMatches(question);
    if p > l then Property else if l > p then MasterClauses else Qa
  }

  /** Letter case never changes the classification. */
  lemma ClassifyIgnoresCase(question: string)
    ensures Classify(Lower(question)) == Classify(question)
  {
    LowerIdempotent(question);
  }

  /** Two different keywords that both occur count twice. */
  lemma CountTwo(text: string, keywords: seq<string>, i: int, j: int)
    requires 0 <= i < |keywords| && 0 <= j < |keywords| && keywords[i] != keywords[j]
    requires Contains(text, keywords[i]) && Contains(text, keywords[j])
    ensures CountMatches(text, keywords) >= 2
  {
    CountIsOccurringKeywords(text, keywords);
    var kept := Filter(OccursIn(text), keywords);
    assert keywords[i] in kept && keywords[j] in kept;
    var a :| 0 <= a < |kept| && kept[a] == keywords[i];
    var b :| 0 <= b < |kept| && kept[b] == keywords[j];
    assert a != b;
  }

  /** A keyword that occurs counts. */
  lemma CountOne(text: string, keywords: seq<string>, i: int)
    requires 0 <= i < |keywords| && Contains(text, keywords[i])
    ensures CountMatches(text, keywords) >= 1
  {
    CountIsOccurringKeywords(text, keywords);
    assert keywords[i] in Filter(OccursIn(text), keywords);
  }

  lemma TermInTermination()
    ensures Contains("termination", "term")
  {
    assert OccursAt("termination", "term", 0);
    ContainsAt("termination", "term");
  }

  lemma SfInTransfer()
    ensures Contains("transfer", "sf")
  {
    assert "transfer"[4..6] == "sf";
    assert OccursAt("transfer", "sf", 4);
    ContainsAt("transfer", "sf");
  }

  /** Matching is by substring: a question mentioning "termination" also
      matches "term", so it scores at least two legal keywords. */
  lemma TerminationCountsTwice(question: string)
    requires Contains(Lower(question), "termination")
    ensures LegalMatches(question) >= 2
  {
    var q := Lower(question);
    TermInTermination();
    ContainsTransitive(q, "termination", "term");
    CountTwo(q, LegalKeywords, 3, 9);
  }

  /** Matching is not by whole word: "transfer" contains the property
      keyword "sf". */
  lemma TransferMatchesSf(question: string)
    requires Contains(Lower(question), "transfer")
    ensures PropertyMatches(question) >= 1
  {
    var q := Lower(question);
    SfInTransfer();
    ContainsTransitive(q, "transfer", "sf");
    CountOne(q, PropertyKeywords, 5);
  }
}
