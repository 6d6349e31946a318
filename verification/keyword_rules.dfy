/** The keyword rules of the clause analysers: the keyword fallback of
    `detect_risk` (backend/models/risk_detector.py) and `suggest_redline`
    (backend/models/redline_suggestor.py). A keyword fires when it occurs in
    the clause as a whole word, whatever the case of its letters
    (`re.search(rf"\b{kw}\b", text, re.IGNORECASE)`). */
module KeywordRules {
  import opened Seqs
  import opened Text

  /** One dictionary entry: a keyword and the text it contributes. */
  datatype Rule = Rule(keyword: string, message: string)

  /** `RISKY_KEYWORDS`, in insertion order. The long texts of both tables
      are written as concatenations of short pieces, which lets the verifier
      read off their characters. */
  const RiskyKeywords: seq<Rule> := [
    Rule("indemnify", RiskIndemnify),
    Rule("termination", RiskTermination),
    Rule("penalty", RiskPenalty),
    Rule("renewal", RiskRenewal),
    Rule("arbitration", RiskArbitration),
    Rule("exclusive", RiskExclusive),
    Rule("escalation", RiskEscalation),
    Rule("liability", RiskLiability),
    Rule("insurance", RiskInsurance)
  ]

  const RiskIndemnify := "Indemnity: " + "Broad " + "indemnification " + "may expose " + "tenants to " + "unlimited " + "liability."
  const RiskTermination := "Termination: " + "Unilateral " + "termination " + "rights or " + "short notice " + "periods may be " + "high risk."
  const RiskPenalty := "Penalty: " + "Excessive " + "penalties can " + "be " + "unenforceable " + "and burdensome."
  const RiskRenewal := "Renewal: " + "Automatic " + "renewal " + "without clear " + "terms can trap " + "parties in " + "long contracts."
  const RiskArbitration := "Arbitration: " + "Mandatory " + "arbitration " + "clauses may " + "limit legal " + "remedies."
  const RiskExclusive := "Exclusivity: " + "Exclusive use " + "clauses may " + "prevent " + "competitive " + "use of " + "premises."
  const RiskEscalation := "Escalation: " + "Uncapped rent " + "escalation can " + "significantly " + "increase costs."
  const RiskLiability := "Liability: " + "Broad " + "liability " + "terms can " + "shift undue " + "burden to " + "tenant."
  const RiskInsurance := "Insurance: " + "Lack of clear " + "insurance " + "coverage may " + "create " + "coverage gaps."

  /** `REDLINE_SUGGESTIONS`, in insertion order. */
  const RedlineSuggestions: seq<Rule> := [
    Rule("indemnify", RedlineIndemnify),
    Rule("termination", RedlineTermination),
    Rule("penalty", RedlinePenalty),
    Rule("renewal", RedlineRenewal),
    Rule("arbitration", RedlineArbitration),
    Rule("exclusive", RedlineExclusive),
    Rule("escalation", RedlineEscalation),
    Rule("liability", RedlineLiability),
    Rule("insurance", RedlineInsurance)
  ]

  const RedlineIndemnify := "Limit " + "indemnity to " + "direct damages " + "and landlord's " + "negligence."
  const RedlineTermination := "Add mutual " + "termination " + "clauses with " + "at least 60 " + "days' notice."
  const RedlinePenalty := "Replace " + "penalties with " + "reasonable " + "liquidated " + "damages."
  const RedlineRenewal := "Include tenant " + "opt-out " + "options and " + "renewal caps."
  const RedlineArbitration := "Make " + "arbitration " + "optional or " + "allow court " + "choice."
  const RedlineExclusive := "Narrow " + "exclusivity " + "clauses to " + "critical " + "business needs."
  const RedlineEscalation := "Cap escalation " + "rates and tie " + "them to market " + "indices."
  const RedlineLiability := "Clearly define " + "liability " + "limits and " + "exclusions."
  const RedlineInsurance := "Specify both " + "parties\U{2019} " + "insurance " + "responsibilities " + "and coverage " + "types."

  const Separator := " | "
  const NoSuggestion := "No redline " + "suggestion found."
  const Warning := "\U{26A0}\U{FE0F} "
  const EmptyClause := "\U{2705} Clause appears low risk (empty clause)."
  const LowRisk := "\U{2705} Clause appears low risk."

  /** A keyword of the tables: a non-empty run of lower-case letters, so
      that `\b` before and after it means "no word character there". */
  predicate IsKeyword(kw: string) {
    |kw| > 0 && forall i :: 0 <= i < |kw| ==> 'a' <= kw[i] <= 'z'
  }

  /** `kw` occurs in `text` at position `i`, ignoring case. */
  predicate MatchesAt(text: string, kw: string, i: int) {
    && 0 <= i && i + |kw| <= |text|
    && forall m :: 0 <= m < |kw| ==> LowerChar(text[i + m]) == kw[m]
  }

  /** `\bkw\b` matches `text` at position `i`, ignoring case. */
  predicate WordAt(text: string, kw: string, i: int) {
    && MatchesAt(text, kw, i)
    && (i == 0 || !IsWordChar(text[i - 1]))
    && (i + |kw| == |text| || !IsWordChar(text[i + |kw|]))
  }

  /** `re.search(rf"\b{kw}\b", text, re.IGNORECASE)` finds a match. */
  predicate HasWord(text: string, kw: string) {
    exists i | 0 <= i <= |text| - |kw| :: WordAt(text, kw, i)
  }

  function Fires(text: string): Rule -> bool {
    (r: Rule) => HasWord(text, r.keyword)
  }

  function Message(r: Rule): string {
    r.message
  }

  /** `[msg for kw, msg in rules.items() if re.search(...)]`. */
  function Messages(text: string, rules: seq<Rule>): (r: seq<string>)
    ensures |r| == 0 <==> forall k :: 0 <= k < |rules| ==> !HasWord(text, rules[k].keyword)
  {
    var fired := Filter(Fires(text), rules);
    assert |fired| > 0 ==> Fires(text)(fired[0]) && fired[0] in rules;
    Map(Message, fired)
  }

  /** `suggest_redline(clause_text)`. */
  function SuggestRedline(text: string): (r: string)
    ensures |Messages(text, RedlineSuggestions)| == 0 ==> r == NoSuggestion
    ensures |Messages(text, RedlineSuggestions)| > 0 ==> r == Join(Separator, Messages(text, RedlineSuggestions))
  {
    var s := Messages(text, RedlineSuggestions);
    if |s| > 0 then Join(Separator, s) else NoSuggestion
  }

  /** What `detect_risk` returns: the flag and the message. */
  datatype Verdict = Verdict(risky: bool, message: string)

  /** `detect_risk(clause_text)` when no trained model is loaded: a blank
      clause is low risk before anything else is looked at; otherwise the
      stripped clause is flagged when some risky keyword fires. */
  function DetectRisk(text: string): (r: Verdict)
    ensures Blank(text) ==> r == Verdict(false, EmptyClause)
    ensures !Blank(text) ==>
      (r.risky <==> exists k :: 0 <= k < |RiskyKeywords| && HasWord(Strip(text), RiskyKeywords[k].keyword))
    ensures !Blank(text) && !r.risky ==> r.message == LowRisk
    ensures r.risky ==> r.message == Warning + Join(Separator, Messages(Strip(text), RiskyKeywords))
  {
    var clause := Strip(text);
    if clause == "" then Verdict(false, EmptyClause)
    else
      var found := Messages(clause, RiskyKeywords);
      if |found| > 0 then Verdict(true, Warning + Join(Separator, found))
      else Verdict(false, LowRisk)
  }

  /** Both tables list the same keywords in the same order. */
  lemma SameKeywords()
    ensures |RiskyKeywords| == |RedlineSuggestions| == 9
    ensures forall k :: 0 <= k < 9 ==> RiskyKeywords[k].keyword == RedlineSuggestions[k].keyword
  {
  }

  /** Each keyword is a lower-case word. */
  lemma KeywordsAreWords()
    ensures forall k :: 0 <= k < |RedlineSuggestions| ==> IsKeyword(RedlineSuggestions[k].keyword)
  {
  }

  /* The bar-freedom of the table texts, one text at a time. */

  lemma RedlineBarFreeIndemnify()
    ensures '|' !in RedlineIndemnify
  {
  }

  lemma RedlineBarFreeTermination()
    ensures '|' !in RedlineTermination
  {
  }

  lemma RedlineBarFreePenalty()
    ensures '|' !in RedlinePenalty
  {
  }

  lemma RedlineBarFreeRenewal()
    ensures '|' !in RedlineRenewal
  {
  }

  lemma RedlineBarFreeArbitration()
    ensures '|' !in RedlineArbitration
  {
  }

  lemma RedlineBarFreeExclusive()
    ensures '|' !in RedlineExclusive
  {
  }

  lemma RedlineBarFreeEscalation()
    ensures '|' !in RedlineEscalation
  {
  }

  lemma RedlineBarFreeLiability()
    ensures '|' !in RedlineLiability
  {
  }

  lemma RedlineBarFreeInsurance()
    ensures '|' !in RedlineInsurance
  {
  }

  lemma RiskBarFreeIndemnify()
    ensures '|' !in RiskIndemnify
  {
  }

  lemma RiskBarFreeTermination()
    ensures '|' !in RiskTermination
  {
  }

  lemma RiskBarFreePenalty()
    ensures '|' !in RiskPenalty
  {
  }

  lemma RiskBarFreeRenewal()
    ensures '|' !in RiskRenewal
  {
  }

  lemma RiskBarFreeArbitration()
    ensures '|' !in RiskArbitration
  {
  }

  lemma RiskBarFreeExclusive()
    ensures '|' !in RiskExclusive
  {
  }

  lemma RiskBarFreeEscalation()
    ensures '|' !in RiskEscalation
  {
  }

  lemma RiskBarFreeLiability()
    ensures '|' !in RiskLiability
  {
  }

  lemma RiskBarFreeInsurance()
    ensures '|' !in RiskInsurance
  {
  }

  /** No suggestion holds a bar. */
  lemma RedlineBarFree()
    ensures forall k :: 0 <= k < |RedlineSuggestions| ==> '|' !in RedlineSuggestions[k].message
  {
    RedlineBarFreeIndemnify();
    RedlineBarFreeTermination();
    RedlineBarFreePenalty();
    RedlineBarFreeRenewal();
    RedlineBarFreeArbitration();
    RedlineBarFreeExclusive();
    RedlineBarFreeEscalation();
    RedlineBarFreeLiability();
    RedlineBarFreeInsurance();
  }

  /** No risk message holds a bar. */
  lemma RiskyBarFree()
    ensures forall k :: 0 <= k < |RiskyKeywords| ==> '|' !in RiskyKeywords[k].message
  {
    RiskBarFreeIndemnify();
    RiskBarFreeTermination();
    RiskBarFreePenalty();
    RiskBarFreeRenewal();
    RiskBarFreeArbitration();
    RiskBarFreeExclusive();
    RiskBarFreeEscalation();
    RiskBarFreeLiability();
    RiskBarFreeInsurance();
  }

  /** Every suggestion is longer than the default answer. */
  lemma SuggestionsLonger()
    ensures forall k :: 0 <= k < |RedlineSuggestions| ==> |RedlineSuggestions[k].message| > |NoSuggestion|
  {
    assert |RedlineIndemnify| > |NoSuggestion|;
    assert |RedlineTermination| > |NoSuggestion|;
    assert |RedlinePenalty| > |NoSuggestion|;
    assert |RedlineRenewal| > |NoSuggestion|;
    assert |RedlineArbitration| > |NoSuggestion|;
    assert |RedlineExclusive| > |NoSuggestion|;
    assert |RedlineEscalation| > |NoSuggestion|;
    assert |RedlineLiability| > |NoSuggestion|;
    assert |RedlineInsurance| > |NoSuggestion|;
  }

  /** Every listed suggestion is the text of a rule of the table. */
  lemma MessagesFromTable(text: string, rules: seq<Rule>)
    ensures forall i :: 0 <= i < |Messages(text, rules)| ==>
      exists k :: 0 <= k < |rules| && Messages(text, rules)[i] == rules[k].message
  {
    var fired := Filter(Fires(text), rules);
    forall i | 0 <= i < |Messages(text, rules)|
      ensures exists k :: 0 <= k < |rules| && Messages(text, rules)[i] == rules[k].message
    {
      assert fired[i] in rules;
      var k :| 0 <= k < |rules| && rules[k] == fired[i];
      assert Messages(text, rules)[i] == rules[k].message;
    }
  }

  /** The listed texts are bar-free when the table's are. */
  lemma MessagesBarFree(text: string, rules: seq<Rule>)
    requires forall k :: 0 <= k < |rules| ==> '|' !in rules[k].message
    ensures forall i :: 0 <= i < |Messages(text, rules)| ==> '|' !in Messages(text, rules)[i]
  {
    MessagesFromTable(text, rules);
  }

  /** The suggestions can be read back from the answer: splitting it on
      `" | "` gives exactly the suggestions of the rules that fired, in table
      order. */
  lemma SuggestionsRecoverable(text: string)
    ensures SuggestRedline(text) != NoSuggestion ==>
      SplitOnBars(SuggestRedline(text)) == Messages(text, RedlineSuggestions)
  {
    var m := Messages(text, RedlineSuggestions);
    if |m| > 0 {
      RedlineBarFree();
      MessagesBarFree(text, RedlineSuggestions);
      SplitJoin(m);
    }
  }

  /** A joined string starts with its first part. */
  lemma {:induction false} JoinStartsWithFirst(sep: string, parts: seq<string>)
    requires |parts| > 0
    ensures StartsWith(Join(sep, parts), parts[0])
  {
    if |parts| > 1 {
      assert Join(sep, parts) == parts[0] + (sep + Join(sep, parts[1..]));
    }
  }

  /** The default answer comes back exactly when no keyword fires. */
  lemma SuggestIff(text: string)
    ensures SuggestRedline(text) == NoSuggestion <==>
      forall k :: 0 <= k < |RedlineSuggestions| ==> !HasWord(text, RedlineSuggestions[k].keyword)
  {
    var m := Messages(text, RedlineSuggestions);
    if |m| > 0 {
      MessagesFromTable(text, RedlineSuggestions);
      SuggestionsLonger();
      JoinStartsWithFirst(Separator, m);
      assert |Join(Separator, m)| > |NoSuggestion|;
    }
  }

  /** Every character of a keyword match is a word character. */
  lemma MatchIsWord(text: string, kw: string, j: int)
    requires IsKeyword(kw) && WordAt(text, kw, j)
    ensures forall m :: j <= m < j + |kw| ==> IsWordChar(text[m])
  {
    forall m | j <= m < j + |kw| ensures IsWordChar(text[m]) {
      assert LowerChar(text[j + (m - j)]) == kw[m - j];
    }
  }

  /** `t` is `text` with white space cut from both ends. */
  predicate TrimmedPiece(text: string, t: string, start: nat) {
    && start + |t| <= |text|
    && (forall m :: 0 <= m < |t| ==> t[m] == text[start + m])
    && (forall m :: 0 <= m < start ==> IsSpace(text[m]))
    && (forall m :: start + |t| <= m < |text| ==> IsSpace(text[m]))
  }

  lemma StripIsTrimmedPiece(text: string) returns (start: nat)
    ensures TrimmedPiece(text, Strip(text), start)
  {
    start := StripInfix(text);
    PieceBetweenBlanks(text, Strip(text), start);
  }

  /** A piece with a blank head before it and a blank tail after it. */
  lemma PieceBetweenBlanks(text: string, t: string, start: nat)
    requires start + |t| <= |text| && t == text[start..start + |t|]
    requires Blank(text[..start]) && Blank(text[start + |t|..])
    ensures TrimmedPiece(text, t, start)
  {
    var stop := start + |t|;
    forall m | 0 <= m < start ensures IsSpace(text[m]) {
      assert text[..start][m] == text[m];
    }
    forall m | stop <= m < |text| ensures IsSpace(text[m]) {
      assert text[stop..][m - stop] == text[m];
    }
  }

  /** A match in the trimmed piece is a match in the whole text. */
  lemma PieceMatchIsMatch(text: string, t: string, start: nat, kw: string, i: int)
    requires TrimmedPiece(text, t, start)
    requires WordAt(t, kw, i)
    ensures WordAt(text, kw, start + i)
  {
    forall m | 0 <= m < |kw| ensures LowerChar(text[start + i + m]) == kw[m] {
      assert text[start + i + m] == t[i + m];
    }
    if i > 0 {
      assert text[start + i - 1] == t[i - 1];
    }
    if i + |kw| < |t| {
      assert text[start + i + |kw|] == t[i + |kw|];
    }
  }

  /** A keyword match in the whole text lies inside the trimmed piece. */
  lemma MatchIsPieceMatch(text: string, t: string, start: nat, kw: string, j: int)
    requires IsKeyword(kw)
    requires TrimmedPiece(text, t, start)
    requires WordAt(text, kw, j)
    ensures WordAt(t, kw, j - start)
  {
    MatchIsWord(text, kw, j);
    assert !IsSpace(text[j]) && !IsSpace(text[j + |kw| - 1]);
    assert start <= j && j + |kw| <= start + |t|;
    var i := j - start;
    forall m | 0 <= m < |kw| ensures LowerChar(t[i + m]) == kw[m] {
      assert t[i + m] == text[j + m];
    }
    if i > 0 {
      assert t[i - 1] == text[j - 1];
    }
    if i + |kw| < |t| {
      assert t[i + |kw|] == text[j + |kw|];
    }
  }

  /** Stripping the clause first does not change which keywords fire. */
  lemma HasWordStrip(text: string, kw: string)
    requires IsKeyword(kw)
    ensures HasWord(Strip(text), kw) <==> HasWord(text, kw)
  {
    var t := Strip(text);
    var start := StripIsTrimmedPiece(text);
    if HasWord(t, kw) {
      var i :| 0 <= i <= |t| - |kw| && WordAt(t, kw, i);
      PieceMatchIsMatch(text, t, start, kw, i);
    }
    if HasWord(text, kw) {
      var j :| 0 <= j <= |text| - |kw| && WordAt(text, kw, j);
      MatchIsPieceMatch(text, t, start, kw, j);
    }
  }

  /** Both tables share their keywords, so for every clause the keyword
      fallback flags a risk exactly when a redline suggestion is offered. */
  lemma RiskAgreesWithRedline(text: string)
    ensures DetectRisk(text).risky <==> SuggestRedline(text) != NoSuggestion
  {
    SameKeywords();
    KeywordsAreWords();
    SuggestIff(text);
    forall k | 0 <= k < 9
      ensures HasWord(Strip(text), RiskyKeywords[k].keyword) <==> HasWord(text, RedlineSuggestions[k].keyword)
    {
      HasWordStrip(text, RedlineSuggestions[k].keyword);
    }
  }

  /** Matching ignores case: `exclusive` fires in "Exclusive use". */
  lemma CaseIgnored()
    ensures HasWord("Exclusive use", "exclusive")
  {
    var kw := "exclusive";
    var yes := "Exclusive use";
    assert MatchesAt(yes, kw, 0);
    assert WordAt(yes, kw, 0);
  }

  /** Matching is by whole word: `exclusive` does not fire in "exclusively",
      although it occurs there as a substring. */
  lemma WholeWordsOnly()
    ensures !HasWord("exclusively", "exclusive")
    ensures Contains("exclusively", "exclusive")
  {
    var kw := "exclusive";
    var no := "exclusively";
    assert LowerChar(no[1 + 0]) == 'x' && LowerChar(no[2 + 0]) == 'c';
    assert IsWordChar(no[9]);
    assert !WordAt(no, kw, 0) && !WordAt(no, kw, 1) && !WordAt(no, kw, 2);
    assert no[..9] == kw;
  }

  /** `indemnify` does not fire in "indemnification": the two part at
      their ninth letter. */
  lemma WholeKeywordNeeded()
    ensures !HasWord("Indemnification", "indemnify")
  {
    var text := "Indemnification";
    var kw := "indemnify";
    assert LowerChar(text[0 + 8]) != kw[8];
    assert LowerChar(text[1 + 0]) != kw[0];
    assert LowerChar(text[2 + 0]) != kw[0];
    assert LowerChar(text[3 + 0]) != kw[0];
    assert LowerChar(text[4 + 0]) != kw[0];
    assert LowerChar(text[5 + 0]) != kw[0];
    assert LowerChar(text[6 + 1]) != kw[1];
  }

  /** Behind the warning sign, a joined list of bar-free texts splits back
      into the list. */
  lemma WarningSplit(m: seq<string>)
    requires |m| > 0
    requires forall i :: 0 <= i < |m| ==> '|' !in m[i]
    ensures StartsWith(Warning + Join(Separator, m), Warning)
    ensures SplitOnBars((Warning + Join(Separator, m))[|Warning|..]) == m
  {
    var joined := Join(Separator, m);
    SplitJoin(m);
    assert (Warning + joined)[|Warning|..] == joined;
    assert (Warning + joined)[..|Warning|] == Warning;
  }

  /** A flagged clause's message is the warning sign followed by the risk
      messages that fired, which splitting on `" | "` gives back in table
      order. */
  lemma RiskMessagesRecoverable(text: string)
    ensures DetectRisk(text).risky ==>
      && StartsWith(DetectRisk(text).message, Warning)
      && SplitOnBars(DetectRisk(text).message[|Warning|..]) == Messages(Strip(text), RiskyKeywords)
  {
    var r := DetectRisk(text);
    if r.risky {
      var m := Messages(Strip(text), RiskyKeywords);
      RiskyBarFree();
      MessagesBarFree(Strip(text), RiskyKeywords);
      WarningSplit(m);
    }
  }
}
