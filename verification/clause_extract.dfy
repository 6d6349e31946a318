/** `extract_clauses_from_structured_data` (backend/scripts/populate_vector_store.py):
    every filled clause column of every master-clause row becomes one
    searchable clause text. Rows are the column lists of `KbRecords`; a
    missing column reads as the empty string. */
module ClauseExtract {
  import opened Seqs
  import opened Text
  import opened KbRecords

  /** The clause columns, in the order the extractor visits them. */
  const ClauseTypes: seq<string> := [
    "Most Favored Nation", "Competitive Restriction Exception", "Non-Compete",
    "Exclusivity", "No-Solicit Of Customers", "No-Solicit Of Employees",
    "Non-Disparagement", "Termination For Convenience", "Rofr/Rofo/Rofn",
    "Change Of Control", "Anti-Assignment", "Revenue/Profit Sharing",
    "Price Restrictions", "Minimum Commitment", "Volume Restriction",
    "Ip Ownership Assignment", "Joint Ip Ownership", "License Grant",
    "Non-Transferable License", "Affiliate License-Licensor",
    "Affiliate License-Licensee", "Unlimited/All-You-Can-Eat-License",
    "Irrevocable Or Perpetual License", "Source Code Escrow",
    "Post-Termination Services", "Audit Rights", "Uncapped Liability",
    "Cap On Liability", "Liquidated Damages", "Warranty Duration",
    "Insurance", "Covenant Not To Sue", "Third Party Beneficiary"
  ]

  /** The column holding the details of clause type `t`. */
  function AnswerColumn(t: string): string {
    t + "-Answer"
  }

  /** The clause text, grown piece by piece as the extractor grows it. */
  function ClauseText(clauseType: string, docName: string, parties: string, value: string, answer: string): string {
    var head := "Clause Type: " + clauseType + "\n";
    var withDoc := if docName != "" then head + "Document: " + docName + "\n" else head;
    var withParties := if parties != "" then withDoc + "Parties: " + parties + "\n" else withDoc;
    var body := withParties + "Clause Content: " + Strip(value);
    if Blank(answer) then body else body + "\n" + "Answer/Details: " + Strip(answer)
  }

  /** The lines of a clause text: the type, a document line when the document
      name is filled, a parties line when the parties are filled, the content,
      and a details line when the answer is not blank. */
  function ClauseLines(clauseType: string, docName: string, parties: string, value: string, answer: string): (r: seq<string>)
    ensures |r| >= 2 && r[0] == "Clause Type: " + clauseType
  {
    ["Clause Type: " + clauseType]
    + (if docName != "" then ["Document: " + docName] else [])
    + (if parties != "" then ["Parties: " + parties] else [])
    + ["Clause Content: " + Strip(value)]
    + (if Blank(answer) then [] else ["Answer/Details: " + Strip(answer)])
  }

  /** Appending `tag + value` and a newline to a text made of newline-ended
      lines adds one line `tag + value`. */
  lemma GrowLine(lines: seq<string>, text: string, tag: string, value: string)
    requires |lines| > 0 && text == Join("\n", lines) + "\n"
    ensures text + tag + value + "\n" == Join("\n", lines + [tag + value]) + "\n"
  {
    JoinSnoc("\n", lines, tag + value);
    assert text + tag + value + "\n" == Join("\n", lines) + "\n" + (tag + value) + "\n";
  }

  /** Appending `tag + value` to a text of newline-ended lines completes
      one last line. */
  lemma EndLine(lines: seq<string>, text: string, tag: string, value: string)
    requires |lines| > 0 && text == Join("\n", lines) + "\n"
    ensures text + tag + value == Join("\n", lines + [tag + value])
  {
    JoinSnoc("\n", lines, tag + value);
    ConcatAssoc(Join("\n", lines) + "\n", tag, value);
  }

  /** Growing the text piece by piece yields exactly its lines joined by
      newlines. */
  lemma ClauseTextIsLines(clauseType: string, docName: string, parties: string, value: string, answer: string)
    ensures ClauseText(clauseType, docName, parties, value, answer)
         == Join("\n", ClauseLines(clauseType, docName, parties, value, answer))
  {
    var l0 := ["Clause Type: " + clauseType];
    var l1 := l0 + (if docName != "" then ["Document: " + docName] else []);
    var l2 := l1 + (if parties != "" then ["Parties: " + parties] else []);
    var l3 := l2 + ["Clause Content: " + Strip(value)];
    var l4 := l3 + (if Blank(answer) then [] else ["Answer/Details: " + Strip(answer)]);
    assert l4 == ClauseLines(clauseType, docName, parties, value, answer);

    var head := "Clause Type: " + clauseType + "\n";
    assert head == Join("\n", l0) + "\n";
    var withDoc := if docName != "" then head + "Document: " + docName + "\n" else head;
    if docName != "" {
      GrowLine(l0, head, "Document: ", docName);
    } else {
      assert l1 == l0;
    }
    var withParties := if parties != "" then withDoc + "Parties: " + parties + "\n" else withDoc;
    if parties != "" {
      GrowLine(l1, withDoc, "Parties: ", parties);
    } else {
      assert l2 == l1;
    }
    var body := withParties + "Clause Content: " + Strip(value);
    EndLine(l2, withParties, "Clause Content: ", Strip(value));
    if !Blank(answer) {
      EndLine(l3, body + "\n", "Answer/Details: ", Strip(answer));
    } else {
      assert l4 == l3;
    }
  }

  /** `if clause_value and str(clause_value).strip()`. */
  predicate Filled(row: Record, t: string) {
    !Blank(Get(row, t))
  }

  function HasClause(row: Record): string -> bool {
    t => Filled(row, t)
  }

  /** The clause of column `t` of `row`. */
  function Clause(row: Record, t: string): string {
    ClauseText(t, Get(row, "Document Name"), Get(row, "Parties"), Get(row, t), Get(row, AnswerColumn(t)))
  }

  function ClauseOf(row: Record): string -> string {
    t => Clause(row, t)
  }

  /** The inner loop over the clause columns of one row. */
  function RowClauses(row: Record, types: seq<string>): (r: seq<string>)
    ensures |r| <= |types|
  {
    if |types| == 0 then []
    else (if Filled(row, types[0]) then [Clause(row, types[0])] else []) + RowClauses(row, types[1..])
  }

  /** One clause per filled column, in column order, and nothing else. */
  lemma {:induction false} RowClausesAreFilledColumns(row: Record, types: seq<string>)
    ensures RowClauses(row, types) == Map(ClauseOf(row), Filter(HasClause(row), types))
  {
    if |types| > 0 {
      var t := types[0];
      RowClausesAreFilledColumns(row, types[1..]);
      var rest := Filter(HasClause(row), types[1..]);
      var head := if Filled(row, t) then [t] else [];
      assert Filter(HasClause(row), types) == head + rest;
      MapAppend(ClauseOf(row), head, rest);
      if Filled(row, t) {
        MapOne(ClauseOf(row), t);
      }
    }
  }

  /** The outer loop over the rows, for any list of clause columns, stated as
      "the clauses of the earlier rows, then those of the last row". */
  function ClausesOf(rows: seq<Record>, types: seq<string>): seq<string> {
    if |rows| == 0 then []
    else ClausesOf(rows[..|rows| - 1], types) + RowClauses(rows[|rows| - 1], types)
  }

  /** Each row yields at most one clause per column. */
  lemma {:induction false} ClausesBound(rows: seq<Record>, types: seq<string>)
    ensures |ClausesOf(rows, types)| <= |types| * |rows|
  {
    if |rows| > 0 {
      ClausesBound(rows[..|rows| - 1], types);
      assert |types| * (|rows| - 1) + |types| == |types| * |rows|;
    }
  }

  /** `extract_clauses_from_structured_data(lease_data)`. */
  function ExtractClauses(rows: seq<Record>): (r: seq<string>)
    ensures |r| <= |ClauseTypes| * |rows|
  {
    ClausesBound(rows, ClauseTypes);
    ClausesOf(rows, ClauseTypes)
  }

  /** There are 33 clause columns, so a row yields at most 33 clauses. */
  lemma ExtractBound(rows: seq<Record>)
    ensures |ExtractClauses(rows)| <= 33 * |rows|
  {
    assert |ClauseTypes| == 33;
  }

  /** Row-major order: the clauses of a batch of rows are those of its first
      part followed by those of its second part. */
  lemma {:induction false} ClausesAppend(a: seq<Record>, b: seq<Record>, types: seq<string>)
    ensures ClausesOf(a + b, types) == ClausesOf(a, types) + ClausesOf(b, types)
  {
    if |b| == 0 {
      assert a + b == a;
    } else {
      var b' := b[..|b| - 1];
      var last := RowClauses(b[|b| - 1], types);
      assert (a + b)[..|a + b| - 1] == a + b';
      assert (a + b)[|a + b| - 1] == b[|b| - 1];
      assert ClausesOf(a + b, types) == ClausesOf(a + b', types) + last;
      assert ClausesOf(b, types) == ClausesOf(b', types) + last;
      ClausesAppend(a, b', types);
    }
  }

  lemma ExtractAppend(a: seq<Record>, b: seq<Record>)
    ensures ExtractClauses(a + b) == ExtractClauses(a) + ExtractClauses(b)
  {
    ClausesAppend(a, b, ClauseTypes);
  }

  /** A single row contributes exactly the clauses of its filled columns, in
      column order. */
  lemma ExtractOneRow(row: Record)
    ensures ExtractClauses([row]) == Map(ClauseOf(row), Filter(HasClause(row), ClauseTypes))
  {
    ClausesOfOne(row, ClauseTypes);
    RowClausesAreFilledColumns(row, ClauseTypes);
  }

  lemma ClausesOfOne(row: Record, types: seq<string>)
    ensures ClausesOf([row], types) == RowClauses(row, types)
  {
    assert [row][..0] == [];
  }

  /** Some line of `ls` starts with `prefix`. */
  predicate HasLine(ls: seq<string>, prefix: string) {
    exists i :: 0 <= i < |ls| && StartsWith(ls[i], prefix)
  }

  lemma HasLineAppend(a: seq<string>, b: seq<string>, prefix: string)
    ensures HasLine(a + b, prefix) <==> HasLine(a, prefix) || HasLine(b, prefix)
  {
    if HasLine(a + b, prefix) {
      var i :| 0 <= i < |a + b| && StartsWith((a + b)[i], prefix);
      if i >= |a| {
        assert (a + b)[i] == b[i - |a|];
      }
    }
    if HasLine(b, prefix) {
      var i :| 0 <= i < |b| && StartsWith(b[i], prefix);
      assert (a + b)[|a| + i] == b[i];
    }
    if HasLine(a, prefix) {
      var i :| 0 <= i < |a| && StartsWith(a[i], prefix);
      assert (a + b)[i] == a[i];
    }
  }

  /** A line that starts with one character cannot start with a prefix that
      starts with another. */
  lemma NotLine(line: string, prefix: string)
    requires |line| > 0 && |prefix| > 0 && line[0] != prefix[0]
    ensures !HasLine([line], prefix)
  {
    assert |prefix| <= |line| ==> line[..|prefix|][0] == line[0];
    assert !StartsWith(line, prefix);
    assert [line][0] == line;
  }

  lemma OneLine(line: string, prefix: string)
    requires StartsWith(line, prefix)
    ensures HasLine([line], prefix)
  {
    assert [line][0] == line;
  }

  /** Neither the type line nor the content line starts like an optional line. */
  lemma Decompose(typeLine: seq<string>, doc: seq<string>, par: seq<string>, content: seq<string>, details: seq<string>, prefix: string)
    requires |typeLine| == 1 && |typeLine[0]| > 0 && typeLine[0][0] == 'C'
    requires |content| == 1 && |content[0]| > 0 && content[0][0] == 'C'
    requires |prefix| > 0 && prefix[0] != 'C'
    ensures HasLine(typeLine + doc + par + content + details, prefix)
        <==> HasLine(doc, prefix) || HasLine(par, prefix) || HasLine(details, prefix)
  {
    HasLineAppend(typeLine + doc + par + content, details, prefix);
    HasLineAppend(typeLine + doc + par, content, prefix);
    HasLineAppend(typeLine + doc, par, prefix);
    HasLineAppend(typeLine, doc, prefix);
    NotLine(typeLine[0], prefix);
    assert [typeLine[0]] == typeLine;
    NotLine(content[0], prefix);
    assert [content[0]] == content;
  }

  /** The five groups of lines of a clause. */
  lemma ClauseLinesParts(clauseType: string, docName: string, parties: string, value: string, answer: string)
    ensures ClauseLines(clauseType, docName, parties, value, answer)
      == ["Clause Type: " + clauseType]
         + (if docName != "" then ["Document: " + docName] else [])
         + (if parties != "" then ["Parties: " + parties] else [])
         + ["Clause Content: " + Strip(value)]
         + (if Blank(answer) then [] else ["Answer/Details: " + Strip(answer)])
  {
  }

  /** The document line is there exactly when the document name is filled. */
  lemma DocumentLinePresence(clauseType: string, docName: string, parties: string, value: string, answer: string)
    ensures HasLine(ClauseLines(clauseType, docName, parties, value, answer), "Document: ") <==> docName != ""
  {
    var doc := if docName != "" then ["Document: " + docName] else [];
    var par := if parties != "" then ["Parties: " + parties] else [];
    var details := if Blank(answer) then [] else ["Answer/Details: " + Strip(answer)];
    ClauseLinesParts(clauseType, docName, parties, value, answer);
    Decompose(["Clause Type: " + clauseType], doc, par, ["Clause Content: " + Strip(value)], details, "Document: ");
    if docName != "" {
      OneLine(doc[0], "Document: ");
      assert [doc[0]] == doc;
    }
    if parties != "" {
      NotLine(par[0], "Document: ");
      assert [par[0]] == par;
    }
    if !Blank(answer) {
      NotLine(details[0], "Document: ");
      assert [details[0]] == details;
    }
  }

  /** The parties line is there exactly when the parties are filled. */
  lemma PartiesLinePresence(clauseType: string, docName: string, parties: string, value: string, answer: string)
    ensures HasLine(ClauseLines(clauseType, docName, parties, value, answer), "Parties: ") <==> parties != ""
  {
    var doc := if docName != "" then ["Document: " + docName] else [];
    var par := if parties != "" then ["Parties: " + parties] else [];
    var details := if Blank(answer) then [] else ["Answer/Details: " + Strip(answer)];
    ClauseLinesParts(clauseType, docName, parties, value, answer);
    Decompose(["Clause Type: " + clauseType], doc, par, ["Clause Content: " + Strip(value)], details, "Parties: ");
    if docName != "" {
      NotLine(doc[0], "Parties: ");
      assert [doc[0]] == doc;
    }
    if parties != "" {
      OneLine(par[0], "Parties: ");
      assert [par[0]] == par;
    }
    if !Blank(answer) {
      NotLine(details[0], "Parties: ");
      assert [details[0]] == details;
    }
  }

  /** The details line is there exactly when the answer is not blank. */
  lemma DetailsLinePresence(clauseType: string, docName: string, parties: string, value: string, answer: string)
    ensures HasLine(ClauseLines(clauseType, docName, parties, value, answer), "Answer/Details: ") <==> !Blank(answer)
  {
    var doc := if docName != "" then ["Document: " + docName] else [];
    var par := if parties != "" then ["Parties: " + parties] else [];
    var details := if Blank(answer) then [] else ["Answer/Details: " + Strip(answer)];
    ClauseLinesParts(clauseType, docName, parties, value, answer);
    Decompose(["Clause Type: " + clauseType], doc, par, ["Clause Content: " + Strip(value)], details, "Answer/Details: ");
    if docName != "" {
      NotLine(doc[0], "Answer/Details: ");
      assert [doc[0]] == doc;
    }
    if parties != "" {
      NotLine(par[0], "Answer/Details: ");
      assert [par[0]] == par;
    }
    if !Blank(answer) {
      OneLine(details[0], "Answer/Details: ");
      assert [details[0]] == details;
    }
  }

  /** A clause has a document line exactly when the document name is filled,
      a parties line exactly when the parties are filled, and a details line
      exactly when the answer is not blank; it always ends with the details
      line if there is one and with the content line otherwise. */
  lemma ClauseLinesPresence(clauseType: string, docName: string, parties: string, value: string, answer: string)
    ensures var ls := ClauseLines(clauseType, docName, parties, value, answer);
      && (HasLine(ls, "Document: ") <==> docName != "")
      && (HasLine(ls, "Parties: ") <==> parties != "")
      && (HasLine(ls, "Answer/Details: ") <==> !Blank(answer))
      && ls[|ls| - 1] == (if Blank(answer) then "Clause Content: " + Strip(value) else "Answer/Details: " + Strip(answer))
  {
    DocumentLinePresence(clauseType, docName, parties, value, answer);
    PartiesLinePresence(clauseType, docName, parties, value, answer);
    DetailsLinePresence(clauseType, docName, parties, value, answer);
    ClauseLinesParts(clauseType, docName, parties, value, answer);
  }
}
