/**
 Line numbers and printing. A record's reported line is the line a reader of the file would count (CRLF, LF and
 CR each ending a line) exactly as long as no quoted field before it holds a CR without its LF; and every list
 of records printed with quotes where they are needed comes back from the scanner.
 */
module CsvLines {
  import opened Csv
  import opened CsvGrammar
  import opened Sequences
  import opened CsvRoundTrip

  // ----- counting the lines of a text

  predicate EndsWith(text: string, c: char) {
    |text| > 0 && text[|text| - 1] == c
  }

  /** Line breaks in a text, a CRLF pair counting once. */
  function Breaks(text: string): nat {
    if text == "" then 0
    else
      var init, c := text[..|text| - 1], text[|text| - 1];
      Breaks(init) + if c == CR || (c == LF && !EndsWith(init, CR)) then 1 else 0
  }

  lemma {:induction false} BreaksSnoc(text: string, c: char)
    ensures Breaks(text + [c]) == Breaks(text) + if c == CR || (c == LF && !EndsWith(text, CR)) then 1 else 0
  {
    Snoc(text, c);
  }

  predicate Splits(a: string, b: string) {
    EndsWith(a, CR) && StartsWith(b, LF)
  }

  lemma {:induction false} BreaksConcat(a: string, b: string)
    requires !Splits(a, b)
    ensures Breaks(a + b) == Breaks(a) + Breaks(b)
    decreases |b|
  {
    if b == "" {
      assert a + b == a;
    } else {
      var init, c := b[..|b| - 1], b[|b| - 1];
      assert a + b == (a + init) + [c] && b == init + [c];
      assert init != "" ==> init[0] == b[0];
      BreaksConcat(a, init);
      BreaksSnoc(a + init, c);
      BreaksSnoc(init, c);
      assert EndsWith(a + init, CR) == if init == "" then EndsWith(a, CR) else EndsWith(init, CR);
    }
  }

  lemma {:induction false} BreaksDoubled(text: string)
    ensures Breaks(Doubled(text)) == Breaks(text)
    ensures EndsWith(Doubled(text), CR) == EndsWith(text, CR)
  {
    if text != "" {
      var init, c := text[..|text| - 1], text[|text| - 1];
      BreaksDoubled(init);
      BreaksSnoc(Doubled(init), c);
      if c == QUOTE {
        assert Doubled(text) == (Doubled(init) + [QUOTE]) + [QUOTE];
        BreaksSnoc(Doubled(init) + [QUOTE], QUOTE);
      }
    }
  }

  lemma {:induction false} BreaksPlain(text: string)
    requires forall k | 0 <= k < |text| :: PlainChar(text[k])
    ensures Breaks(text) == 0
  {
    if text != "" {
      BreaksPlain(text[..|text| - 1]);
    }
  }

  function FieldBreaks(f: Field): nat {
    if f.Bare? then 0 else Breaks(f.text)
  }

  function FieldsBreaks(fields: seq<Field>): nat {
    if fields == [] then 0 else FieldsBreaks(fields[..|fields| - 1]) + FieldBreaks(fields[|fields| - 1])
  }

  function RowsBreaks(rows: seq<Row>): nat {
    if rows == [] then 0 else RowsBreaks(rows[..|rows| - 1]) + FieldsBreaks(rows[|rows| - 1].fields) + 1
  }

  lemma {:induction false} FieldTextBreaks(f: Field)
    requires GoodField(f)
    ensures Breaks(FieldText(f)) == FieldBreaks(f) && !EndsWith(FieldText(f), CR)
  {
    if f.Bare? {
      BreaksPlain(f.text);
    } else {
      BreaksDoubled(f.text);
      BreaksConcat([QUOTE], Doubled(f.text));
      BreaksSnoc("", QUOTE);
      BreaksSnoc([QUOTE] + Doubled(f.text), QUOTE);
      BreaksPlain(f.tail);
      BreaksConcat([QUOTE] + Doubled(f.text) + [QUOTE], f.tail);
    }
  }

  lemma {:induction false} DelimitedBreaks(fields: seq<Field>)
    requires GoodFields(fields)
    ensures Breaks(Delimited(fields)) == FieldsBreaks(fields) && !EndsWith(Delimited(fields), CR)
  {
    if fields != [] {
      var init, f := fields[..|fields| - 1], fields[|fields| - 1];
      DelimitedBreaks(init);
      FieldTextBreaks(f);
      BreaksConcat(Delimited(init), FieldText(f));
      BreaksSnoc(Delimited(init) + FieldText(f), COMMA);
    }
  }

  lemma {:induction false} FieldsTextBreaks(fields: seq<Field>)
    requires GoodFields(fields) && fields != []
    ensures Breaks(FieldsText(fields)) == FieldsBreaks(fields) && !EndsWith(FieldsText(fields), CR)
  {
    var init, f := fields[..|fields| - 1], fields[|fields| - 1];
    DelimitedBreaks(init);
    FieldTextBreaks(f);
    BreaksConcat(Delimited(init), FieldText(f));
  }

  lemma {:induction false} OneBreak(c: char)
    requires c == CR || c == LF
    ensures Breaks([c]) == 1
  {
    BreaksSnoc("", c);
    assert "" + [c] == [c];
  }

  lemma {:induction false} EndBreaks(end: End)
    requires GoodEnd(end)
    ensures Breaks(EndText(end)) == 1 && (EndsWith(EndText(end), CR) <==> end == Lone(CR))
  {
    if end.Crlf? {
      OneBreak(CR);
      BreaksSnoc([CR], LF);
      assert [CR] + [LF] == EndText(end);
    } else {
      OneBreak(end.c);
    }
  }

  lemma {:induction false} RowTextBreaks(row: Row)
    requires GoodRow(row)
    ensures Breaks(RowText(row)) == FieldsBreaks(row.fields) + 1
    ensures EndsWith(RowText(row), CR) <==> row.end == Lone(CR)
  {
    FieldsTextBreaks(row.fields);
    EndBreaks(row.end);
    BreaksConcat(FieldsText(row.fields), EndText(row.end));
  }

  /** The text of the rows spans exactly as many lines as their terminators and quoted line breaks. */
  lemma {:induction false} RowsTextBreaks(rows: seq<Row>)
    requires GoodRows(rows)
    ensures Breaks(RowsText(rows)) == RowsBreaks(rows)
    ensures EndsWith(RowsText(rows), CR) <==> rows != [] && rows[|rows| - 1].end == Lone(CR)
  {
    if rows != [] {
      var init, row := rows[..|rows| - 1], rows[|rows| - 1];
      assert rows == init + [row];
      RowAfterCr(init, row, "");
      assert RowText(row) + "" == RowText(row);
      RowsTextBreaks(init);
      RowTextBreaks(row);
      BreaksConcat(RowsText(init), RowText(row));
    }
  }

  // ----- the reported line

  predicate NoLoneCr(text: string) {
    forall k | 0 <= k < |text| && text[k] == CR :: k + 1 < |text| && text[k + 1] == LF
  }

  /** Every CR but perhaps the last character has its LF. */
  predicate OnlyLastCr(text: string) {
    forall k | 0 <= k < |text| - 1 && text[k] == CR :: text[k + 1] == LF
  }

  lemma {:induction false} FeedsVersusBreaks(text: string)
    ensures Breaks(text) >= LineFeeds(text) + if EndsWith(text, CR) then 1 else 0
    ensures Breaks(text) == LineFeeds(text) + (if EndsWith(text, CR) then 1 else 0) <==> OnlyLastCr(text)
  {
    if text != "" {
      var init, c := text[..|text| - 1], text[|text| - 1];
      FeedsVersusBreaks(init);
      assert OnlyLastCr(text) <==> OnlyLastCr(init) && (EndsWith(init, CR) ==> c == LF) by {
        if OnlyLastCr(text) {
          assert forall k | 0 <= k < |init| :: init[k] == text[k];
        }
        if OnlyLastCr(init) && (EndsWith(init, CR) ==> c == LF) {
          forall k | 0 <= k < |text| - 1 && text[k] == CR ensures text[k + 1] == LF {
            assert init[k] == CR;
          }
        }
      }
    }
  }

  lemma {:induction false} FieldFeedsExact(f: Field)
    ensures FieldBreaks(f) >= FieldFeeds(f)
    ensures FieldBreaks(f) == FieldFeeds(f) <==> (!f.Bare? ==> NoLoneCr(f.text))
  {
    FeedsVersusBreaks(f.text);
    assert NoLoneCr(f.text) <==> OnlyLastCr(f.text) && !EndsWith(f.text, CR);
  }

  predicate CleanFields(fields: seq<Field>) {
    forall k | 0 <= k < |fields| :: !fields[k].Bare? ==> NoLoneCr(fields[k].text)
  }

  predicate CleanRows(rows: seq<Row>) {
    forall k | 0 <= k < |rows| :: CleanFields(rows[k].fields)
  }

  lemma {:induction false} FieldsFeedsExact(fields: seq<Field>)
    ensures FieldsBreaks(fields) >= FieldsFeeds(fields)
    ensures FieldsBreaks(fields) == FieldsFeeds(fields) <==> CleanFields(fields)
  {
    if fields != [] {
      FieldsFeedsExact(fields[..|fields| - 1]);
      FieldFeedsExact(fields[|fields| - 1]);
      var init := fields[..|fields| - 1];
      assert CleanFields(fields) ==> CleanFields(init) by {
        assert forall k | 0 <= k < |init| :: init[k] == fields[k];
      }
    }
  }

  lemma {:induction false} LinesExact(rows: seq<Row>)
    ensures RowsBreaks(rows) >= LinesOf(rows)
    ensures RowsBreaks(rows) == LinesOf(rows) <==> CleanRows(rows)
  {
    if rows != [] {
      LinesExact(rows[..|rows| - 1]);
      FieldsFeedsExact(rows[|rows| - 1].fields);
      var init := rows[..|rows| - 1];
      assert CleanRows(rows) ==> CleanRows(init) by {
        assert forall k | 0 <= k < |init| :: init[k] == rows[k];
      }
    }
  }

  function RowRecord(rows: seq<Row>, k: nat): Record
    requires k < |rows|
  {
    RecordOf(1 + LinesOf(rows[..k]), rows[k].fields)
  }

  lemma {:induction false} RowRecordAt(rows: seq<Row>, k: nat)
    requires k < |rows|
    ensures |RowRecords(rows)| == |rows|
    ensures RowRecords(rows)[k] == RowRecord(rows, k)
    decreases |rows|
  {
    var init := rows[..|rows| - 1];
    if k < |init| {
      RowRecordAt(init, k);
      assert init[..k] == rows[..k];
    } else if init != [] {
      RowRecordAt(init, 0);
    }
  }

  lemma {:induction false} GoodPrefix(rows: seq<Row>, k: nat)
    requires GoodRows(rows) && k <= |rows|
    ensures GoodRows(rows[..k])
  {
    var before := rows[..k];
    forall j | 0 <= j < |before| - 1
      ensures before[j].end == Lone(CR) ==> !BareLf(before[j + 1])
    {
      assert rows[j].end == Lone(CR) ==> !BareLf(rows[j + 1]);
    }
  }

  lemma {:induction false} LinesTrueIff(before: seq<Row>)
    requires GoodRows(before)
    ensures LinesOf(before) <= Breaks(RowsText(before))
    ensures LinesOf(before) == Breaks(RowsText(before)) <==> CleanRows(before)
  {
    RowsTextBreaks(before);
    LinesExact(before);
  }

  /** The line of each record a document means, the last one included. */
  lemma {:induction false} DocRecordLine(doc: Doc, k: nat)
    requires k < |DocRecords(doc)|
    ensures k <= |doc.rows| && DocRecords(doc)[k].line == 1 + LinesOf(doc.rows[..k])
  {
    RowRecordsSize(doc.rows);
    if k < |doc.rows| {
      RowRecordAt(doc.rows, k);
      assert DocRecords(doc)[k] == RowRecords(doc.rows)[k];
    } else {
      assert doc.rows[..k] == doc.rows;
      assert DocRecords(doc)[k] == RecordOf(1 + LinesOf(doc.rows), doc.last);
    }
  }

  lemma {:induction false} ScanRecordLine(doc: Doc, k: nat)
    requires GoodDoc(doc) && k < |Scanned(DocText(doc)).records|
    ensures k <= |doc.rows| && Scanned(DocText(doc)).records[k].line == 1 + LinesOf(doc.rows[..k])
  {
    ScanInvertsText(doc);
    DocRecordLine(doc, k);
  }

  lemma {:induction false} RowRecordsSize(rows: seq<Row>)
    ensures |RowRecords(rows)| == |rows|
  {
    if rows != [] {
      RowRecordAt(rows, 0);
    }
  }

  /** The line reported for a record, the last one included, is the line of the file it starts on if and only if no
      quoted field of an earlier row holds a carriage return without its line feed; otherwise it is too small. */
  lemma {:induction false} ReportedLineTrueIff(doc: Doc, k: nat)
    requires GoodDoc(doc) && k < |Scanned(DocText(doc)).records|
    ensures k <= |doc.rows| && RowsText(doc.rows[..k]) <= DocText(doc)
    ensures var line, before := Scanned(DocText(doc)).records[k].line, doc.rows[..k];
            line <= 1 + Breaks(RowsText(before)) && (line == 1 + Breaks(RowsText(before)) <==> CleanRows(before))
  {
    ScanRecordLine(doc, k);
    RowsPrefix(doc.rows, k);
    GoodPrefix(doc.rows, k);
    LinesTrueIff(doc.rows[..k]);
  }

  /** One such file: the second record starts on the third line and is reported on the second. */
  lemma {:induction false} LoneCrMisnumbers()
    ensures var first := Row([Quoted("a\rb", "")], Lone(LF));
            var doc := Doc([first, Row([Bare("c")], Lone(LF))], []);
            && GoodDoc(doc) && |Scanned(DocText(doc)).records| == 2
            && Scanned(DocText(doc)).records[1].line < 1 + Breaks(RowsText([first]))
  {
    var first, second := Row([Quoted("a\rb", "")], Lone(LF)), Row([Bare("c")], Lone(LF));
    var doc := Doc([first, second], []);
    assert GoodField(first.fields[0]) && GoodField(second.fields[0]);
    ScanInvertsText(doc);
    RowRecordsSize(doc.rows);
    assert DocRecords(doc) == RowRecords(doc.rows);
    ReportedLineTrueIff(doc, 1);
    assert doc.rows[..1] == [first];
    assert first.fields[0].Quoted? && first.fields[0].text[1] == CR;
    assert !NoLoneCr(first.fields[0].text);
    assert !CleanFields(first.fields);
    assert [first][0] == first;
  }

  lemma {:induction false} RowsPrefix(rows: seq<Row>, k: nat)
    requires k <= |rows|
    ensures RowsText(rows[..k]) <= RowsText(rows)
    decreases |rows|
  {
    if k == |rows| {
      assert rows[..k] == rows;
    } else {
      var init := rows[..|rows| - 1];
      RowsPrefix(init, k);
      assert init[..k] == rows[..k];
    }
  }

  // ----- printing

  predicate NeedsQuotes(value: string) {
    !GoodBare(value)
  }

  /** How one value is written: quoted where it must be, and freely wherever the printer likes. */
  function Printed(value: string, quote: bool): Field {
    if quote || NeedsQuotes(value) then Quoted(value, "") else Bare(value)
  }

  function PrintedFields(values: seq<string>, quotes: seq<bool>): seq<Field>
    requires |values| == |quotes|
  {
    if values == [] then []
    else
      var n := |values| - 1;
      PrintedFields(values[..n], quotes[..n]) + [Printed(values[n], quotes[n])]
  }

  /** One record per row, all rows ended the same way. */
  function PrintedRows(records: seq<seq<string>>, quotes: seq<seq<bool>>, end: End): seq<Row>
    requires |records| == |quotes| && forall k | 0 <= k < |records| :: |records[k]| == |quotes[k]|
  {
    if records == [] then []
    else
      var n := |records| - 1;
      PrintedRows(records[..n], quotes[..n], end) + [Row(PrintedFields(records[n], quotes[n]), end)]
  }

  lemma {:induction false} PrintedGood(value: string, quote: bool)
    ensures var f := Printed(value, quote); GoodField(f) && ValueOf(f) == value && !Spoilt(f)
  {
    assert value + "" == value;
  }

  lemma {:induction false} PrintedFieldsGood(values: seq<string>, quotes: seq<bool>)
    requires |values| == |quotes|
    ensures var fields := PrintedFields(values, quotes);
            |fields| == |values| && GoodFields(fields) && Values(fields) == values && !AnySpoilt(fields)
  {
    if values != [] {
      var n := |values| - 1;
      PrintedFieldsGood(values[..n], quotes[..n]);
      PrintedGood(values[n], quotes[n]);
      SpoiltSnoc(PrintedFields(values[..n], quotes[..n]), Printed(values[n], quotes[n]));
      GoodSnoc(PrintedFields(values[..n], quotes[..n]), Printed(values[n], quotes[n]));
      InitLast(values);
    }
  }

  lemma {:induction false} GoodSnoc(fields: seq<Field>, f: Field)
    requires GoodFields(fields) && GoodField(f)
    ensures GoodFields(fields + [f]) && Values(fields + [f]) == Values(fields) + [ValueOf(f)]
  {
    Snoc(fields, f);
    forall k | 0 <= k < |fields + [f]|
      ensures GoodField((fields + [f])[k])
    {
      if k < |fields| {
        assert GoodField(fields[k]);
      }
    }
  }

  lemma {:induction false} PrintedRowsGood(records: seq<seq<string>>, quotes: seq<seq<bool>>, end: End)
    requires |records| == |quotes| && forall k | 0 <= k < |records| :: |records[k]| == |quotes[k]|
    requires GoodEnd(end) && forall k | 0 <= k < |records| :: records[k] != []
    ensures var rows := PrintedRows(records, quotes, end);
            && |rows| == |records|
            && (forall k | 0 <= k < |rows| ::
                rows[k] == Row(PrintedFields(records[k], quotes[k]), end) && GoodRow(rows[k])
                && !AnySpoilt(rows[k].fields))
  {
    if records != [] {
      var n := |records| - 1;
      PrintedRowsGood(records[..n], quotes[..n], end);
      PrintedFieldsGood(records[n], quotes[n]);
    }
  }

  /** `scanned` gives back `records`, and marks as blank only what was printed as an empty line. */
  ghost predicate GivesBack(scanned: seq<Record>, records: seq<seq<string>>, quotes: seq<seq<bool>>)
    requires |records| == |quotes|
  {
    && |scanned| == |records|
    && forall k | 0 <= k < |records| ::
         scanned[k].fields == records[k] && (scanned[k].blank <==> records[k] == [""] && quotes[k] == [false])
  }

  lemma {:induction false} PrintedRowMeans(rows: seq<Row>, k: nat, values: seq<string>, quotes: seq<bool>)
    requires k < |rows| && |values| == |quotes| > 0 && rows[k].fields == PrintedFields(values, quotes)
    ensures RowRecord(rows, k).fields == values
    ensures RowRecord(rows, k).blank <==> values == [""] && quotes == [false]
  {
    PrintedFieldsGood(values, quotes);
    OneEmptyField(values, quotes);
  }

  lemma {:induction false} PrintedRowsMean(records: seq<seq<string>>, quotes: seq<seq<bool>>, rows: seq<Row>)
    requires |records| == |quotes| == |rows|
    requires forall k | 0 <= k < |records| ::
             |records[k]| == |quotes[k]| > 0 && rows[k].fields == PrintedFields(records[k], quotes[k])
    ensures GivesBack(RowRecords(rows), records, quotes)
  {
    if rows == [] {
      assert RowRecords(rows) == [];
    } else {
      RowRecordAt(rows, 0);
      forall k | 0 <= k < |records|
        ensures RowRecords(rows)[k].fields == records[k]
        ensures RowRecords(rows)[k].blank <==> records[k] == [""] && quotes[k] == [false]
      {
        RowRecordAt(rows, k);
        PrintedRowMeans(rows, k, records[k], quotes[k]);
      }
    }
  }

  /** Print any records, quoting where required and freely otherwise, with any terminator: the scan reports no
      error and returns the same fields, record by record. */
  lemma {:induction false} PrintThenScan(records: seq<seq<string>>, quotes: seq<seq<bool>>, end: End)
    requires |records| == |quotes| && forall k | 0 <= k < |records| :: |records[k]| == |quotes[k]|
    requires GoodEnd(end) && forall k | 0 <= k < |records| :: records[k] != []
    ensures var scanned := Scanned(DocText(Doc(PrintedRows(records, quotes, end), [])));
            scanned.errors == [] && GivesBack(scanned.records, records, quotes)
  {
    var doc := Doc(PrintedRows(records, quotes, end), []);
    PrintedRowsGood(records, quotes, end);
    PrintedRowsMean(records, quotes, doc.rows);
    NothingLast(doc);
  }

  /** A document of terminated rows without damage is read back without error. */
  lemma {:induction false} NothingLast(doc: Doc)
    requires GoodDoc(doc) && doc.last == [] && forall k | 0 <= k < |doc.rows| :: !AnySpoilt(doc.rows[k].fields)
    ensures Scanned(DocText(doc)).errors == [] && Scanned(DocText(doc)).records == RowRecords(doc.rows)
  {
    ScanInvertsText(doc);
    NoErrorsIff(doc);
    assert RowRecords(doc.rows) + [] == RowRecords(doc.rows);
  }

  lemma {:induction false} OneEmptyField(values: seq<string>, quotes: seq<bool>)
    requires |values| == |quotes| > 0
    ensures PrintedFields(values, quotes) == [Bare("")] <==> values == [""] && quotes == [false]
  {
    PrintedFieldsGood(values, quotes);
    var n := |values| - 1;
    if n == 0 {
      assert PrintedFields(values, quotes) == [Printed(values[0], quotes[0])];
    }
  }
}
