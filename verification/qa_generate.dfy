/** `clean_money` and the row loop of `generate_qa` (backend/scripts/generate_qa_csv.py):
    the property listing rows become question/answer pairs about their rent.
    Reading the input file and writing the output file are left out; the
    rows arrive as a list and the pairs are returned. */
module QaGenerate {
  import opened Seqs
  import opened Text
  import opened KbRecords
  import opened KbBuild

  /** A character `clean_money` keeps: neither a comma nor a dollar sign. */
  predicate Unmarked(c: char) {
    c != ',' && c != '$'
  }

  /** Removing commas and then dollar signs keeps the other characters, in
      their order. */
  lemma {:induction false} RemoveMarksIsFilter(s: string)
    ensures RemoveChar(RemoveChar(s, ','), '$') == Filter(Unmarked, s)
  {
    if |s| > 0 {
      RemoveMarksIsFilter(s[1..]);
      var rest := RemoveChar(s[1..], ',');
      var kept := Filter(Unmarked, s[1..]);
      if s[0] == ',' {
        assert RemoveChar(s, ',') == rest;
        assert Filter(Unmarked, s) == kept;
      } else {
        var once := [s[0]] + rest;
        assert RemoveChar(s, ',') == once;
        assert once[0] == s[0] && once[1..] == rest;
        assert RemoveChar(once, '$') == (if s[0] == '$' then "" else [s[0]]) + RemoveChar(rest, '$');
      }
    }
  }

  /** `value.replace(",", "").replace("$", "").strip()`. */
  function CleanMoney(value: string): (r: string)
    ensures ',' !in r && '$' !in r
    ensures |r| > 0 ==> !IsSpace(r[0]) && !IsSpace(r[|r| - 1])
    ensures forall c :: c in r ==> c in value
    // the characters other than commas and dollar signs, in order, stripped
    ensures r == Strip(Filter(Unmarked, value))
  {
    var bare := RemoveChar(RemoveChar(value, ','), '$');
    StripChars(bare);
    RemoveMarksIsFilter(value);
    Strip(bare)
  }

  /** Cleaning an amount twice is cleaning it once. */
  lemma CleanMoneyIdempotent(value: string)
    ensures CleanMoney(CleanMoney(value)) == CleanMoney(value)
  {
    var once := CleanMoney(value);
    RemoveCharAbsent(once, ',');
    RemoveCharAbsent(once, '$');
    StripNoop(once);
  }

  /** The cleaned cells of one listing row. */
  datatype Listing = Listing(
    address: string, suite: string, rentPerSf: string, monthlyRent: string,
    brokerName: string, brokerEmail: string)

  function ListingOf(row: Record): Listing {
    Listing(
      Strip(Get(row, "Property Address")), Strip(Get(row, "Suite")),
      CleanMoney(Get(row, "Rent/SF/Year")), CleanMoney(Get(row, "Monthly Rent")),
      Strip(Get(row, "Associate 1")), Strip(Get(row, "BROKER Email ID")))
  }

  /** A listing is turned into a pair unless its address, suite, rent per
      square foot or monthly rent is empty; the broker cells play no part. */
  predicate Complete(l: Listing) {
    l.address != "" && l.suite != "" && l.rentPerSf != "" && l.monthlyRent != ""
  }

  predicate KeptRow(row: Record) {
    Complete(ListingOf(row))
  }

  function QuestionFor(l: Listing): string {
    "What's the rent at " + l.address + ", Suite " + l.suite + "?"
  }

  function AnswerFor(l: Listing): string {
    "$" + l.rentPerSf + "/SF/year. Monthly Rent is $" + l.monthlyRent + ". "
    + "Broker: " + l.brokerName + " (" + l.brokerEmail + ")"
  }

  function PairOf(row: Record): QaPair {
    QaPair(QuestionFor(ListingOf(row)), AnswerFor(ListingOf(row)))
  }

  /** The row loop: the pairs of the earlier rows, then the last row's pair
      if it is kept. */
  function GenerateQa(rows: seq<Record>): (r: seq<QaPair>)
    ensures |r| <= |rows|
  {
    if |rows| == 0 then []
    else
      var last := rows[|rows| - 1];
      GenerateQa(rows[..|rows| - 1]) + (if KeptRow(last) then [PairOf(last)] else [])
  }

  /** One pair per kept row, in input order, and nothing else. */
  lemma {:induction false} GenerateQaIsKeptRows(rows: seq<Record>)
    ensures GenerateQa(rows) == Map(PairOf, Filter(KeptRow, rows))
  {
    if |rows| > 0 {
      GenerateQaIsKeptRows(rows[..|rows| - 1]);
      MapFilterStep(KeptRow, PairOf, rows, GenerateQa(rows[..|rows| - 1]), GenerateQa(rows));
    }
  }

  /** A row is skipped exactly when one of its four required cells is empty
      after cleaning; the broker cells never cause a skip. */
  lemma SkippedIff(row: Record)
    ensures GenerateQa([row]) == [] <==>
      (Strip(Get(row, "Property Address")) == "" || Strip(Get(row, "Suite")) == ""
       || CleanMoney(Get(row, "Rent/SF/Year")) == "" || CleanMoney(Get(row, "Monthly Rent")) == "")
  {
    assert [row][..0] == [];
  }

  /** The pair's question and answer carry no white space at either end, so
      stripping them on reading leaves them unchanged. */
  lemma PairIsStripped(l: Listing)
    ensures Tidy(QuestionFor(l)) && Strip(QuestionFor(l)) == QuestionFor(l)
    ensures Tidy(AnswerFor(l)) && Strip(AnswerFor(l)) == AnswerFor(l)
  {
    var q := QuestionFor(l);
    var a := AnswerFor(l);
    assert q[0] == 'W' && q[|q| - 1] == '?';
    assert a[0] == '$' && a[|a| - 1] == ')';
    StripNoop(q);
    StripNoop(a);
  }

  /** The amounts quoted in an answer hold no thousands separators and no
      dollar signs of their own, so the only `$` signs in the answer text are
      the two the format writes, unless a broker cell carries one. */
  lemma AmountsAreBare(row: Record)
    ensures var l := ListingOf(row);
      ',' !in l.rentPerSf && '$' !in l.rentPerSf && ',' !in l.monthlyRent && '$' !in l.monthlyRent
  {
  }

  predicate TidyPair(p: QaPair) {
    Tidy(p.question) && Tidy(p.answer)
  }

  lemma PairOfTidy(row: Record)
    ensures TidyPair(PairOf(row))
  {
    PairIsStripped(ListingOf(row));
  }

  /** Every pair the generator produces is non-empty and stripped. */
  lemma GeneratedPairsTidy(rows: seq<Record>)
    ensures All(TidyPair, GenerateQa(rows))
  {
    GenerateQaIsKeptRows(rows);
    forall row: Record ensures TidyPair(PairOf(row)) {
      PairOfTidy(row);
    }
    AllMap(PairOf, TidyPair, Filter(KeptRow, rows));
  }
}
