/** The CSV-shaped records of the internal knowledge bases and the strings
    built from them: the searchable text of a property row or a master-clause
    row, and the plain-text answer shown when no language model is used.
    A record is the ordered list of its columns (a row dictionary from
    `to_dict('records')`); every value is a string and a missing column reads
    as the empty string, so "truthy" means "non-empty". */
module KbRecords {
  import opened Seqs
  import opened Text

  datatype Field = Field(name: string, value: string)

  type Record = seq<Field>

  /** `record.get(key, "")`: the value of the first column named `key`. */
  function Get(r: Record, key: string): (v: string)
    ensures (forall i :: 0 <= i < |r| ==> r[i].name != key) ==> v == ""
    ensures v != "" ==> exists i :: 0 <= i < |r| && r[i].name == key && r[i].value == v
  {
    if |r| == 0 then ""
    else if r[0].name == key then r[0].value
    else
      var v := Get(r[1..], key);
      assert v != "" ==> exists i :: 1 <= i < |r| && r[i].name == key && r[i].value == v by {
        if v != "" {
          var i :| 0 <= i < |r[1..]| && r[1..][i].name == key && r[1..][i].value == v;
          assert r[i + 1] == r[1..][i];
        }
      }
      v
  }

  /** `Get` reads the first column with the key, whatever follows. */
  lemma {:induction false} GetFirst(r: Record, key: string, i: int)
    requires 0 <= i < |r| && r[i].name == key
    requires forall j :: 0 <= j < i ==> r[j].name != key
    ensures Get(r, key) == r[i].value
  {
    if i > 0 {
      GetFirst(r[1..], key, i - 1);
    }
  }

  /** One `if prop.get(key): text_parts.append(prefix + value + suffix)`. */
  datatype Column = Column(key: string, prefix: string, suffix: string)

  /** The columns of a property row, in the order the builder tests them. */
  const PropertyColumns: seq<Column> := [
    Column("Property Address", "Property: ", ""),
    Column("Floor", "Floor: ", ""),
    Column("Suite", "Suite: ", ""),
    Column("Size (SF)", "Size: ", " SF"),
    Column("Rent/SF/Year", "Rent per SF: $", ""),
    Column("Annual Rent", "Annual Rent: $", ""),
    Column("Monthly Rent", "Monthly Rent: $", ""),
    Column("Associate 1", "Associate: ", ""),
    Column("BROKER Email ID", "Broker: ", "")
  ]

  /** The two document columns at the head of a master-clause row. */
  const DocumentColumns: seq<Column> := [
    Column("Document Name", "Document: ", ""),
    Column("Parties", "Parties: ", "")
  ]

  /** The clause categories summarised in a master-clause search text. */
  const KeyTerms: seq<string> := [
    "Agreement Date", "Effective Date", "Expiration Date", "Renewal Term",
    "Governing Law", "Non-Compete", "Exclusivity", "Termination For Convenience",
    "Anti-Assignment", "License Grant", "Warranty Duration", "Insurance"
  ]

  function Render(r: Record): Column -> string {
    (c: Column) => c.prefix + Get(r, c.key) + c.suffix
  }

  function Present(r: Record): Column -> bool {
    (c: Column) => Get(r, c.key) != ""
  }

  /** The chain of `if prop.get(key): append(...)` over `cs`. */
  function ColumnParts(r: Record, cs: seq<Column>): seq<string> {
    if |cs| == 0 then []
    else
      var c := cs[0];
      (if Get(r, c.key) != "" then [c.prefix + Get(r, c.key) + c.suffix] else []) + ColumnParts(r, cs[1..])
  }

  /** The parts are exactly the rendered present columns, in table order. */
  lemma {:induction false} ColumnPartsArePresentColumns(r: Record, cs: seq<Column>)
    ensures ColumnParts(r, cs) == Map(Render(r), Filter(Present(r), cs))
  {
    if |cs| > 0 {
      var c := cs[0];
      var head := if Present(r)(c) then [Render(r)(c)] else [];
      assert ColumnParts(r, cs) == head + ColumnParts(r, cs[1..]);
      ColumnPartsArePresentColumns(r, cs[1..]);
      assert cs == [c] + cs[1..];
      MapFilterCons(Present(r), Render(r), c, cs[1..]);
    }
  }

  /** One string of `create_property_search_texts`. */
  function PropertySearchText(r: Record): string {
    Join(" | ", ColumnParts(r, PropertyColumns))
  }

  /** The property text lists the non-empty property columns, each with its
      label, in the fixed column order, separated by " | ". */
  lemma PropertySearchTextShape(r: Record)
    ensures PropertySearchText(r) == Join(" | ", Map(Render(r), Filter(Present(r), PropertyColumns)))
  {
    ColumnPartsArePresentColumns(r, PropertyColumns);
  }

  /** A row with none of the property columns gives the empty string. */
  lemma PropertySearchTextEmpty(r: Record)
    requires forall i :: 0 <= i < |PropertyColumns| ==> Get(r, PropertyColumns[i].key) == ""
    ensures PropertySearchText(r) == ""
  {
    ColumnPartsArePresentColumns(r, PropertyColumns);
    NothingPresent(r, PropertyColumns);
  }

  lemma {:induction false} NothingPresent(r: Record, cs: seq<Column>)
    requires forall i :: 0 <= i < |cs| ==> Get(r, cs[i].key) == ""
    ensures Filter(Present(r), cs) == []
  {
    if |cs| > 0 {
      NothingPresent(r, cs[1..]);
    }
  }

  /** `create_property_search_texts`: one string per row, in row order. */
  function PropertySearchTexts(rows: seq<Record>): (r: seq<string>)
    ensures |r| == |rows|
    ensures forall i :: 0 <= i < |rows| ==> r[i] == PropertySearchText(rows[i])
  {
    Map(PropertySearchText, rows)
  }

  /** `term` and its answer column are both non-empty. */
  predicate IsAnswered(r: Record, t: string) {
    Get(r, t) != "" && Get(r, t + "-Answer") != ""
  }

  function TermPart(r: Record, t: string): string {
    t + ": " + Get(r, t + "-Answer")
  }

  function Answered(r: Record): string -> bool {
    (t: string) => IsAnswered(r, t)
  }

  function RenderTerm(r: Record): string -> string {
    (t: string) => TermPart(r, t)
  }

  /** The `for term in key_terms` loop of the master-clause builder. */
  function TermParts(r: Record, terms: seq<string>): seq<string> {
    if |terms| == 0 then []
    else (if IsAnswered(r, terms[0]) then [TermPart(r, terms[0])] else []) + TermParts(r, terms[1..])
  }

  /** A key term contributes `"term: answer"` exactly when both its column
      and its answer column are non-empty; the others are skipped. */
  lemma {:induction false} TermPartsAreAnsweredTerms(r: Record, terms: seq<string>)
    ensures TermParts(r, terms) == Map(RenderTerm(r), Filter(Answered(r), terms))
  {
    if |terms| > 0 {
      var t := terms[0];
      var head := if Answered(r)(t) then [RenderTerm(r)(t)] else [];
      assert TermParts(r, terms) == head + TermParts(r, terms[1..]);
      TermPartsAreAnsweredTerms(r, terms[1..]);
      assert terms == [t] + terms[1..];
      MapFilterCons(Answered(r), RenderTerm(r), t, terms[1..]);
    }
  }

  /** One string of `create_master_clauses_search_texts`. */
  function MasterClauseSearchText(r: Record): string {
    Join(" | ", ColumnParts(r, DocumentColumns) + TermParts(r, KeyTerms))
  }

  /** The master-clause text lists the present document columns, then the
      answered key terms in table order. */
  lemma MasterClauseSearchTextShape(r: Record)
    ensures MasterClauseSearchText(r) == Join(" | ",
      Map(Render(r), Filter(Present(r), DocumentColumns)) + Map(RenderTerm(r), Filter(Answered(r), KeyTerms)))
  {
    ColumnPartsArePresentColumns(r, DocumentColumns);
    TermPartsAreAnsweredTerms(r, KeyTerms);
  }

  /** `create_master_clauses_search_texts`: one string per row, in row order. */
  function MasterClauseSearchTexts(rows: seq<Record>): (r: seq<string>)
    ensures |r| == |rows|
    ensures forall i :: 0 <= i < |rows| ==> r[i] == MasterClauseSearchText(rows[i])
  {
    Map(MasterClauseSearchText, rows)
  }

  /** One hit of the knowledge-base search, tagged by the base it came from. */
  datatype KbHit =
    | QaHit(question: string, answer: string, score: real)
    | PropertyHit(data: Record, score: real)
    | ClauseHit(data: Record, score: real)

  /** The columns shown for a contract hit. */
  const ImportantFields: seq<string> := [
    "Document Name", "Parties", "Agreement Date", "Effective Date",
    "Expiration Date", "Governing Law", "Non-Compete", "Exclusivity"
  ]

  /** `"- key: value\n"`. */
  function Line(key: string, value: string): string {
    "- " + key + ": " + value + "\n"
  }

  function FieldLine(f: Field): string {
    Line(f.name, f.value)
  }

  predicate Shown(f: Field) {
    !Blank(f.value)
  }

  /** `for key, value in data.items(): if value and str(value).strip(): ...`. */
  function FieldLines(data: Record): string {
    if |data| == 0 then ""
    else (if !Blank(data[0].value) then Line(data[0].name, data[0].value) else "") + FieldLines(data[1..])
  }

  /** Exactly the columns whose value is not blank are listed, in column order. */
  lemma {:induction false} FieldLinesAreShownFields(data: Record)
    ensures FieldLines(data) == Join("", Map(FieldLine, Filter(Shown, data)))
  {
    if |data| > 0 {
      var f := data[0];
      var rest := Map(FieldLine, Filter(Shown, data[1..]));
      var head := if Shown(f) then FieldLine(f) else "";
      assert FieldLines(data) == head + FieldLines(data[1..]);
      FieldLinesAreShownFields(data[1..]);
      assert data == [f] + data[1..];
      MapFilterCons(Shown, FieldLine, f, data[1..]);
      if Shown(f) {
        assert Map(FieldLine, Filter(Shown, data)) == [FieldLine(f)] + rest;
        JoinEmptyCons(FieldLine(f), rest);
      } else {
        assert Map(FieldLine, Filter(Shown, data)) == rest;
      }
    }
  }

  /** With the empty separator, joining is concatenation. */
  lemma JoinEmptyCons(x: string, xs: seq<string>)
    ensures Join("", [x] + xs) == x + Join("", xs)
  {
    if |xs| == 0 {
      assert [x] + xs == [x];
    } else {
      assert ([x] + xs)[1..] == xs;
    }
  }

  /** `for field in important_fields: if data.get(field): ...`. */
  function ImportantLines(data: Record, fields: seq<string>): string {
    if |fields| == 0 then ""
    else (if Get(data, fields[0]) != "" then Line(fields[0], Get(data, fields[0])) else "") + ImportantLines(data, fields[1..])
  }

  function Found(data: Record): string -> bool {
    (f: string) => Get(data, f) != ""
  }

  function FoundLine(data: Record): string -> string {
    (f: string) => Line(f, Get(data, f))
  }

  /** Exactly the listed fields the record fills are shown, in list order,
      each with the value of its first column. */
  lemma {:induction false} ImportantLinesAreFoundFields(data: Record, fields: seq<string>)
    ensures ImportantLines(data, fields) == Join("", Map(FoundLine(data), Filter(Found(data), fields)))
  {
    if |fields| > 0 {
      var f := fields[0];
      ImportantLinesCons(data, f, fields[1..]);
      assert fields == [f] + fields[1..];
      ImportantLinesAreFoundFields(data, fields[1..]);
      JoinMapFilterCons(Found(data), FoundLine(data), f, fields[1..]);
    }
  }

  /** One turn of the loop over the listed fields. */
  lemma ImportantLinesCons(data: Record, f: string, fs: seq<string>)
    ensures ImportantLines(data, [f] + fs) == (if Found(data)(f) then FoundLine(data)(f) else "") + ImportantLines(data, fs)
  {
    assert ([f] + fs)[0] == f && ([f] + fs)[1..] == fs;
  }

  /** Concatenating the images of the kept elements of `[x] + xs`. */
  lemma JoinMapFilterCons<T>(p: T -> bool, g: T -> string, x: T, xs: seq<T>)
    ensures Join("", Map(g, Filter(p, [x] + xs))) == (if p(x) then g(x) else "") + Join("", Map(g, Filter(p, xs)))
  {
    var rest := Map(g, Filter(p, xs));
    MapFilterCons(p, g, x, xs);
    if p(x) {
      JoinEmptyCons(g(x), rest);
    } else {
      assert Map(g, Filter(p, [x] + xs)) == rest;
    }
  }

  const NoResults := "No results " + "found."
  /** The cross mark that opens an error answer. */
  const Cross := "\U{274C}"
  /** The markers the answer headers carry. */
  const PropertyMarker := "Property Information:"
  const ContractMarker := "Contract Information:"
  const QuestionMarker := "**Q:**"
  const AnswerMarker := "**A:**"
  const PropertyHeader := "**" + PropertyMarker + "**\n"
  const ContractHeader := "**" + ContractMarker + "**\n"

  /** The answer shown for a question/answer hit. */
  function QaText(q: string, a: string): string {
    QuestionMarker + " " + q + "\n" + AnswerMarker + " " + a
  }

  /** `format_simple_response`: only the best hit is shown. */
  function FormatSimpleResponse(results: seq<KbHit>): (r: string)
    ensures |results| == 0 <==> r == NoResults
    // only the best hit is shown, laid out by its kind
    ensures |results| > 0 && results[0].QaHit? ==> r == QaText(results[0].question, results[0].answer)
    ensures |results| > 0 && results[0].PropertyHit? ==> r == PropertyHeader + FieldLines(results[0].data)
    ensures |results| > 0 && results[0].ClauseHit? ==> r == ContractHeader + ImportantLines(results[0].data, ImportantFields)
    ensures r == NoResults || (|r| > 0 && r[0] == '*')
  {
    if |results| == 0 then NoResults
    else
      var r := match results[0]
        case QaHit(q, a, _) => QaText(q, a)
        case PropertyHit(data, _) => PropertyHeader + FieldLines(data)
        case ClauseHit(data, _) => ContractHeader + ImportantLines(data, ImportantFields);
      assert r[0] == '*' && NoResults[0] == 'N';
      r
  }

  /** Only the best hit is shown: the hits after it change nothing. */
  lemma OnlyBestHitShown(best: KbHit, rest: seq<KbHit>)
    ensures FormatSimpleResponse([best] + rest) == FormatSimpleResponse([best])
  {
    assert ([best] + rest)[0] == best;
  }
}
