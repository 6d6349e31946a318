/** The CSV loaders of backend/utils/file_utils.py: reading the internal
    question/answer knowledge base and checking a file's header for required
    columns. The file system is a parameter: a path names a file that is
    missing, present but failing to parse, or a table of a header and rows. */
module FileUtils {
  import opened Wrappers
  import opened Seqs
  import opened Text
  import opened KbRecords
  import opened KbBuild
  import QaGenerate

  /** What opening and parsing a CSV path gives. */
  datatype CsvFile = Missing | Unreadable | Table(header: seq<string>, rows: seq<Record>)

  /** Why a `RuntimeError` was raised: the parser failed, no row held a
      usable pair (the `ValueError` raised inside the `try`), or columns were
      missing (likewise). */
  datatype Cause = ReadFailure | NoPairs | MissingColumns(columns: seq<string>)

  datatype FileError = FileNotFound | RuntimeError(cause: Cause)

  /** The stripped question and answer cells of one row. */
  function RowPair(row: Record): QaPair {
    QaPair(Strip(Get(row, "question")), Strip(Get(row, "answer")))
  }

  /** `if question and answer`. */
  predicate Usable(p: QaPair) {
    p.question != "" && p.answer != ""
  }

  /** A pair read from a row is stripped: each cell is empty or tidy. */
  predicate Stripped(p: QaPair) {
    (p.question == "" || Tidy(p.question)) && (p.answer == "" || Tidy(p.answer))
  }

  /** A usable pair read from a row is tidy. */
  predicate TidyUsable(p: QaPair) {
    Tidy(p.question) && Tidy(p.answer)
  }

  /** The row loop: the pairs of the earlier rows, then the last row's pair
      if both its cells are non-empty after stripping. */
  function PairRows(rows: seq<Record>): (r: seq<QaPair>)
    ensures |r| <= |rows|
  {
    if |rows| == 0 then []
    else
      var p := RowPair(rows[|rows| - 1]);
      PairRows(rows[..|rows| - 1]) + (if Usable(p) then [p] else [])
  }

  /** One pair per usable row, in file order, and nothing else. */
  lemma {:induction false} PairRowsIsFilter(rows: seq<Record>)
    ensures PairRows(rows) == Filter(Usable, Map(RowPair, rows))
  {
    if |rows| > 0 {
      PairRowsIsFilter(rows[..|rows| - 1]);
      FilterMapStep(RowPair, Usable, rows, PairRows(rows[..|rows| - 1]), PairRows(rows));
    }
  }

  predicate UsableRow(row: Record) {
    Usable(RowPair(row))
  }

  /** Some pair is read exactly when some row has both cells non-empty after
      stripping. */
  lemma PairRowsNonEmpty(rows: seq<Record>)
    ensures |PairRows(rows)| > 0 <==> Any(UsableRow, rows)
  {
    PairRowsIsFilter(rows);
    var pairs := Map(RowPair, rows);
    FilterNonEmpty(Usable, pairs);
    if Any(Usable, pairs) {
      var i :| 0 <= i < |pairs| && Usable(pairs[i]);
      assert UsableRow(rows[i]);
    }
    if Any(UsableRow, rows) {
      var i :| 0 <= i < |rows| && UsableRow(rows[i]);
      assert Usable(pairs[i]);
    }
  }

  /** Every pair read is non-empty and stripped. */
  lemma PairRowsTidy(rows: seq<Record>)
    ensures All(TidyUsable, PairRows(rows))
  {
    PairRowsIsFilter(rows);
    var pairs := Map(RowPair, rows);
    forall row: Record ensures Stripped(RowPair(row)) {
    }
    AllMap(RowPair, Stripped, rows);
    var r := Filter(Usable, pairs);
    forall i | 0 <= i < |r| ensures TidyUsable(r[i]) {
      assert Usable(r[i]) && r[i] in pairs;
    }
  }

  /** `load_internal_knowledge_base(csv_path)`. */
  function LoadInternalKnowledgeBase(file: CsvFile): (r: Result<seq<QaPair>, FileError>)
    // a missing file is reported as such; every other failure is wrapped
    ensures r == Err(FileNotFound) <==> file.Missing?
    ensures file.Unreadable? ==> r == Err(RuntimeError(ReadFailure))
    // a readable file loads exactly when one of its rows holds a usable pair
    ensures file.Table? ==> (r.Ok? <==> Any(UsableRow, file.rows))
    ensures file.Table? && r.Err? ==> r == Err(RuntimeError(NoPairs))
    // and every pair loaded is stripped and non-empty
    ensures r.Ok? ==> |r.value| > 0 && All(TidyUsable, r.value)
  {
    match file
    case Missing => Err(FileNotFound)
    case Unreadable => Err(RuntimeError(ReadFailure))
    case Table(_, rows) =>
      var pairs := PairRows(rows);
      PairRowsNonEmpty(rows);
      PairRowsTidy(rows);
      if |pairs| == 0 then Err(RuntimeError(NoPairs)) else Ok(pairs)
  }

  /** The pairs come out in the order of their rows. */
  lemma LoadKeepsRowOrder(file: CsvFile)
    requires file.Table?
    ensures LoadInternalKnowledgeBase(file).Ok? ==>
      IsSubsequence(LoadInternalKnowledgeBase(file).value, Map(RowPair, file.rows))
  {
    PairRowsIsFilter(file.rows);
    FilterIsSubsequence(Usable, Map(RowPair, file.rows));
  }

  /** The row `csv.DictWriter` writes for one pair. */
  function WrittenRow(p: QaPair): Record {
    [Field("question", p.question), Field("answer", p.answer)]
  }

  /** The file `generate_qa` writes: a `question,answer` header and one row
      per pair. */
  function Written(pairs: seq<QaPair>): CsvFile {
    Table(["question", "answer"], Map(WrittenRow, pairs))
  }

  /** The cells of a written row read back as the pair, when it is tidy. */
  lemma ReadWrittenPair(p: QaPair)
    requires QaGenerate.TidyPair(p)
    ensures RowPair(WrittenRow(p)) == p
  {
    var row := WrittenRow(p);
    assert Get(row, "question") == p.question;
    assert row[1..] == [Field("answer", p.answer)];
    assert Get(row, "answer") == p.answer;
    StripNoop(p.question);
    StripNoop(p.answer);
  }

  /** Reading back written pairs that are stripped and non-empty gives the
      pairs themselves. */
  lemma PairRowsSnoc(rows: seq<Record>, row: Record)
    ensures PairRows(rows + [row]) == PairRows(rows) + (if UsableRow(row) then [RowPair(row)] else [])
  {
    assert (rows + [row])[..|rows|] == rows;
  }

  lemma {:induction false} ReadWrittenRows(pairs: seq<QaPair>)
    requires All(QaGenerate.TidyPair, pairs)
    ensures PairRows(Map(WrittenRow, pairs)) == pairs
  {
    if |pairs| > 0 {
      var init := pairs[..|pairs| - 1];
      var last := pairs[|pairs| - 1];
      assert pairs == init + [last];
      assert QaGenerate.TidyPair(last);
      assert All(QaGenerate.TidyPair, init);
      var rows := Map(WrittenRow, init);
      var row := WrittenRow(last);
      MapAppend(WrittenRow, init, [last]);
      MapOne(WrittenRow, last);
      assert Map(WrittenRow, pairs) == rows + [row];
      ReadWrittenPair(last);
      assert UsableRow(row);
      PairRowsSnoc(rows, row);
      ReadWrittenRows(init);
      assert PairRows(rows + [row]) == init + [last];
    }
  }

  /** The generator's output file loads back as exactly the generated pairs,
      or fails with "no usable pair" when no listing row was complete. */
  lemma GeneratedKbLoads(rows: seq<Record>)
    ensures var pairs := QaGenerate.GenerateQa(rows);
      LoadInternalKnowledgeBase(Written(pairs)) == if |pairs| > 0 then Ok(pairs) else Err(RuntimeError(NoPairs))
  {
    var pairs := QaGenerate.GenerateQa(rows);
    QaGenerate.GeneratedPairsTidy(rows);
    ReadWrittenRows(pairs);
  }

  function Absent(header: seq<string>): string -> bool {
    (c: string) => c !in header
  }

  /** `validate_csv_columns(csv_path, required_columns)`. Only the header is
      parsed; a file without any column makes the parser fail. */
  function ValidateCsvColumns(file: CsvFile, required: seq<string>): (r: Result<bool, FileError>)
    // the answer is never `False`: it is `True` or an error
    ensures r.Ok? ==> r.value
    ensures r == Err(FileNotFound) <==> file.Missing?
    ensures r == Ok(true) <==>
      file.Table? && file.header != [] && forall i :: 0 <= i < |required| ==> required[i] in file.header
    // the columns reported missing are the required columns absent from the header
    ensures r.Err? && r.error.RuntimeError? && r.error.cause.MissingColumns? ==>
      && file.Table?
      && |r.error.cause.columns| > 0
      && (forall i :: 0 <= i < |r.error.cause.columns| ==>
            r.error.cause.columns[i] in required && r.error.cause.columns[i] !in file.header)
      && (forall i :: 0 <= i < |required| && required[i] !in file.header ==> required[i] in r.error.cause.columns)
  {
    match file
    case Missing => Err(FileNotFound)
    case Unreadable => Err(RuntimeError(ReadFailure))
    case Table(header, _) =>
      if header == [] then Err(RuntimeError(ReadFailure))
      else
        var missing := Filter(Absent(header), required);
        assert |missing| > 0 ==> missing[0] in required && missing[0] !in header;
        if |missing| > 0 then Err(RuntimeError(MissingColumns(missing))) else Ok(true)
  }

  /** The missing columns are listed in the order they were required. */
  lemma MissingInRequiredOrder(file: CsvFile, required: seq<string>)
    ensures var r := ValidateCsvColumns(file, required);
      r.Err? && r.error.RuntimeError? && r.error.cause.MissingColumns? ==>
        IsSubsequence(r.error.cause.columns, required)
  {
    if file.Table? {
      FilterIsSubsequence(Absent(file.header), required);
    }
  }
}
