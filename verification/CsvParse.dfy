/**
 The reader for files without a header line (packages/vault/src/import/csv.ts): one leading byte order mark dropped, the
 text scanned, blank lines left out. Exactly when that gives back what was printed.
 */
module CsvParse {
  import opened Csv
  import opened CsvGrammar
  import opened Sequences
  import opened CsvRoundTrip
  import opened CsvLines

  const BOM: char := '\U{FEFF}'

  function WithoutBom(text: string): string {
    if StartsWith(text, BOM) then text[1..] else text
  }

  function Kept(records: seq<Record>): seq<Record> {
    if records == [] then []
    else Kept(records[..|records| - 1]) + if records[|records| - 1].blank then [] else [records[|records| - 1]]
  }

  /** The reader for files without a header line: byte order mark dropped, blank lines skipped. */
  method ParseCsvRecords(text: string) returns (rows: seq<Record>, errors: seq<Error>)
    ensures rows == Kept(Scanned(WithoutBom(text)).records) && errors == Scanned(WithoutBom(text)).errors
  {
    var records;
    records, errors := Scan(WithoutBom(text));
    rows := [];
    for k := 0 to |records|
      invariant rows == Kept(records[..k])
    {
      assert records[..k + 1][..k] == records[..k];
      if !records[k].blank {
        rows := rows + [records[k]];
      }
    }
    assert records[..|records|] == records;
  }

  /** The rows kept are the records that are not blank lines, each as scanned, in their order. */
  lemma {:induction false} KeptAt(records: seq<Record>) returns (at: seq<nat>)
    ensures |at| == |Kept(records)| && forall j, k | 0 <= j < k < |at| :: at[j] < at[k]
    ensures forall j | 0 <= j < |at| :: at[j] < |records| && Kept(records)[j] == records[at[j]]
    ensures forall k | 0 <= k < |records| :: k in at <==> !records[k].blank
  {
    at := [];
    if records != [] {
      var n := |records| - 1;
      var before := KeptAt(records[..n]);
      at := before + if records[n].blank then [] else [n];
      forall k | 0 <= k <= n ensures k in at <==> !records[k].blank {
        assert k < n ==> records[..n][k] == records[k];
        assert k in at <==> k in before || (k == n && !records[n].blank);
      }
    }
  }

  lemma {:induction false} KeptAll(records: seq<Record>)
    requires forall k | 0 <= k < |records| :: !records[k].blank
    ensures Kept(records) == records
  {
    if records != [] {
      var init, last := records[..|records| - 1], records[|records| - 1];
      KeptAll(init);
      assert Kept(records) == init + [last];
      assert records == init + [last];
    }
  }

  // ----- the first field of a text

  /** What ends an unquoted field. */
  predicate Terminator(c: char) {
    !PlainChar(c)
  }

  lemma {:induction false} DelimitedLast(init: seq<Field>, f: Field)
    ensures Delimited(init + [f]) == Delimited(init) + (FieldText(f) + [COMMA])
  {
    Snoc(init, f);
    Associate(Delimited(init), FieldText(f), [COMMA]);
  }

  lemma {:induction false} DelimitedSplit(fields: seq<Field>)
    requires fields != []
    ensures FieldText(fields[0]) + [COMMA] <= Delimited(fields)
  {
    var init, f := fields[..|fields| - 1], fields[|fields| - 1];
    assert fields == init + [f];
    DelimitedLast(init, f);
    if init == [] {
      assert Delimited(init) == "" && fields[0] == f;
      NothingBefore(FieldText(f) + [COMMA]);
    } else {
      DelimitedSplit(init);
      PrefixMore(FieldText(fields[0]) + [COMMA], Delimited(init), FieldText(f) + [COMMA]);
    }
  }

  lemma {:induction false} NothingBefore(text: string)
    ensures "" + text == text
  {
  }

  lemma {:induction false} PrefixMore(a: string, b: string, c: string)
    requires a <= b
    ensures a <= b + c
  {
  }

  lemma {:induction false} PrefixThen(a: string, c: char, text: string, after: string)
    requires a + [c] <= text
    ensures a <= text + after && |a| < |text + after| && (text + after)[|a|] == c
  {
  }

  lemma {:induction false} OneFieldSplit(row: Row)
    requires GoodRow(row) && |row.fields| == 1
    ensures var f := FieldText(row.fields[0]);
            && f <= RowText(row) && |f| < |RowText(row)| && Terminator(RowText(row)[|f|]) && RowText(row)[|f|] != COMMA
  {
    OneFieldText(row, row.fields[0]);
    PrefixThen(FieldText(row.fields[0]), EndText(row.end)[0], RowText(row), "");
    NothingAfter(RowText(row));
  }

  lemma {:induction false} NothingAfter(text: string)
    ensures text + "" == text
  {
  }

  lemma {:induction false} MoreFieldsSplit(row: Row)
    requires GoodRow(row) && |row.fields| > 1
    ensures var f := FieldText(row.fields[0]);
            f <= RowText(row) && |f| < |RowText(row)| && RowText(row)[|f|] == COMMA
  {
    var n := |row.fields| - 1;
    DelimitedSplit(row.fields[..n]);
    assert row.fields[..n][0] == row.fields[0];
    PrefixThen(FieldText(row.fields[0]), COMMA, Delimited(row.fields[..n]),
        FieldText(row.fields[n]) + EndText(row.end));
    Associate(Delimited(row.fields[..n]), FieldText(row.fields[n]), EndText(row.end));
  }

  /** A row's text is its first field's, then a terminator. */
  lemma {:induction false} RowSplit(row: Row)
    requires GoodRow(row)
    ensures var f := FieldText(row.fields[0]);
            && f <= RowText(row) && |f| < |RowText(row)| && Terminator(RowText(row)[|f|])
            && (|row.fields| == 1 <==> RowText(row)[|f|] != COMMA)
  {
    if |row.fields| == 1 {
      OneFieldSplit(row);
    } else {
      MoreFieldsSplit(row);
    }
  }

  lemma {:induction false} FieldsSplit(fields: seq<Field>)
    requires fields != []
    ensures var f := FieldText(fields[0]);
            f <= FieldsText(fields) && (|f| < |FieldsText(fields)| ==> FieldsText(fields)[|f|] == COMMA)
  {
    var n := |fields| - 1;
    if n == 0 {
      assert fields[..0] == [];
      assert FieldsText(fields) == FieldText(fields[0]);
    } else {
      DelimitedSplit(fields[..n]);
      assert fields[..n][0] == fields[0];
      PrefixThen(FieldText(fields[0]), COMMA, Delimited(fields[..n]), FieldText(fields[n]));
    }
  }

  function FirstFields(doc: Doc): seq<Field> {
    if doc.rows != [] then doc.rows[0].fields else doc.last
  }

  /** A text begins with its first field, and a terminator follows unless the file ends there. */
  lemma {:induction false} DocSplit(doc: Doc)
    requires GoodDoc(doc) && FirstFields(doc) != []
    ensures var f, text := FieldText(FirstFields(doc)[0]), DocText(doc);
            f <= text && (|f| < |text| ==> Terminator(text[|f|])) && (doc.rows != [] ==> |f| < |text|)
    ensures doc.rows != [] ==> (|doc.rows[0].fields| == 1 <==> DocText(doc)[|FieldText(FirstFields(doc)[0])|] != COMMA)
  {
    if doc.rows != [] {
      RowSplit(doc.rows[0]);
      FirstRowText(doc);
      PrefixAt(FieldText(doc.rows[0].fields[0]), RowText(doc.rows[0]), DocText(doc));
    } else {
      FieldsSplit(doc.last);
      NothingBefore(FieldsText(doc.last));
    }
  }

  lemma {:induction false} FirstRowText(doc: Doc)
    requires doc.rows != []
    ensures RowText(doc.rows[0]) <= DocText(doc)
  {
    RowsPrefix(doc.rows, 1);
    assert doc.rows[..1] == [doc.rows[0]];
    OneRowText(doc.rows[0]);
    PrefixMore(RowText(doc.rows[0]), RowsText(doc.rows), FieldsText(doc.last));
  }

  lemma {:induction false} PrefixAt(a: string, b: string, c: string)
    requires a <= b <= c && |a| < |b|
    ensures a <= c && c[|a|] == b[|a|]
  {
  }

  // ----- which records come back

  ghost predicate Printable(records: seq<seq<string>>, quotes: seq<seq<bool>>) {
    && |records| == |quotes|
    && forall k | 0 <= k < |records| :: |records[k]| == |quotes[k]| > 0
  }

  function Printing(records: seq<seq<string>>, quotes: seq<seq<bool>>, end: End): string
    requires Printable(records, quotes)
  {
    DocText(Doc(PrintedRows(records, quotes, end), []))
  }

  /** Parsing the text reports no error and gives the records. */
  ghost predicate ParsesTo(text: string, records: seq<seq<string>>) {
    var scanned := Scanned(WithoutBom(text));
    var rows := Kept(scanned.records);
    scanned.errors == [] && |rows| == |records| && forall k | 0 <= k < |records| :: rows[k].fields == records[k]
  }

  /** The first value is written unquoted and begins with the mark. */
  predicate MarkWritten(records: seq<seq<string>>, quotes: seq<seq<bool>>)
    requires Printable(records, quotes)
  {
    records != [] && Printed(records[0][0], quotes[0][0]).Bare? && StartsWith(records[0][0], BOM)
  }

  /** A record of one empty value is written as an empty line. */
  predicate EmptyLine(records: seq<seq<string>>, quotes: seq<seq<bool>>)
    requires Printable(records, quotes)
  {
    exists k :: 0 <= k < |records| && records[k] == [""] && quotes[k] == [false]
  }

  lemma {:induction false} KeptSize(records: seq<Record>)
    ensures |Kept(records)| <= |records|
    ensures |Kept(records)| == |records| ==> forall k | 0 <= k < |records| :: !records[k].blank
  {
    if records != [] {
      var init := records[..|records| - 1];
      KeptSize(init);
      assert forall k | 0 <= k < |init| :: init[k] == records[k];
    }
  }

  lemma {:induction false} KeptFirst(records: seq<Record>)
    requires records != [] && !records[0].blank
    ensures Kept(records) != [] && Kept(records)[0] == records[0]
  {
    if |records| == 1 {
      assert Kept(records[..0]) == [];
    } else {
      KeptFirst(records[..|records| - 1]);
    }
  }

  /** What a scan that gives the records back becomes once blank lines are left out. */
  lemma {:induction false} KeptGivesBackIff(scanned: seq<Record>, records: seq<seq<string>>, quotes: seq<seq<bool>>)
    requires Printable(records, quotes) && GivesBack(scanned, records, quotes)
    ensures |Kept(scanned)| == |records| <==> !EmptyLine(records, quotes)
    ensures !EmptyLine(records, quotes) ==> Kept(scanned) == scanned
  {
    KeptSize(scanned);
    if !EmptyLine(records, quotes) {
      KeptAll(scanned);
    } else {
      var k :| 0 <= k < |records| && records[k] == [""] && quotes[k] == [false];
      assert scanned[k].blank;
    }
  }

  /** Printed records that do not begin with the mark: nothing is dropped in front, only empty lines are left out. */
  lemma {:induction false} UnmarkedParsesIff(
    records: seq<seq<string>>, quotes: seq<seq<bool>>, end: End, text: string)
    requires Printable(records, quotes) && GoodEnd(end)
    requires WithoutBom(text) == Printing(records, quotes, end)
    ensures ParsesTo(text, records) <==> !EmptyLine(records, quotes)
  {
    PrintThenScan(records, quotes, end);
    KeptGivesBackIff(Scanned(WithoutBom(text)).records, records, quotes);
  }

  lemma {:induction false} FirstPrinted(records: seq<seq<string>>, quotes: seq<seq<bool>>, end: End)
    requires Printable(records, quotes) && GoodEnd(end) && records != []
    ensures var doc := Doc(PrintedRows(records, quotes, end), []);
            && GoodDoc(doc) && doc.rows != [] && |doc.rows[0].fields| == |records[0]|
            && doc.rows[0].fields[0] == Printed(records[0][0], quotes[0][0])
  {
    PrintedRowsGood(records, quotes, end);
    PrintedFirst(records[0], quotes[0]);
    PrintedApart(records, quotes, end);
  }

  lemma {:induction false} PrintedApart(records: seq<seq<string>>, quotes: seq<seq<bool>>, end: End)
    requires Printable(records, quotes) && GoodEnd(end)
    ensures GoodDoc(Doc(PrintedRows(records, quotes, end), []))
  {
    PrintedRowsGood(records, quotes, end);
  }

  lemma {:induction false} PrintedFirst(values: seq<string>, quotes: seq<bool>)
    requires |values| == |quotes| > 0
    ensures |PrintedFields(values, quotes)| == |values|
    ensures PrintedFields(values, quotes)[0] == Printed(values[0], quotes[0])
  {
    PrintedFieldsGood(values, quotes);
    if |values| > 1 {
      PrintedFieldsGood(values[..|values| - 1], quotes[..|values| - 1]);
      PrintedFirst(values[..|values| - 1], quotes[..|values| - 1]);
    }
  }

  /** A printed text begins with the mark exactly when its first value is written unquoted and does. */
  lemma {:induction false} MarkInFrontIff(records: seq<seq<string>>, quotes: seq<seq<bool>>, end: End)
    requires Printable(records, quotes) && GoodEnd(end)
    ensures StartsWith(Printing(records, quotes, end), BOM) <==> MarkWritten(records, quotes)
  {
    if records == [] {
      assert Printing(records, quotes, end) == "";
    } else {
      FirstPrinted(records, quotes, end);
      DocSplit(Doc(PrintedRows(records, quotes, end), []));
    }
  }

  // ----- a first value that begins with the mark does not come back

  lemma {:induction false} DoubledPlain(text: string)
    requires forall k | 0 <= k < |text| :: PlainChar(text[k])
    ensures |Doubled(text)| >= |text| && forall k | 0 <= k < |Doubled(text)| :: PlainChar(Doubled(text)[k])
  {
    if text != "" {
      DoubledPlain(text[..|text| - 1]);
    }
  }

  predicate AllPlain(text: string) {
    forall k | 0 <= k < |text| :: PlainChar(text[k])
  }

  lemma {:induction false} PlainConcat(a: string, b: string)
    ensures AllPlain(a + b) <==> AllPlain(a) && AllPlain(b)
  {
    if AllPlain(a + b) {
      assert forall k | 0 <= k < |a| :: a[k] == (a + b)[k];
      assert forall k | 0 <= k < |b| :: b[k] == (a + b)[|a| + k];
    }
  }

  lemma {:induction false} FieldPlain(f: Field)
    requires AllPlain(ValueOf(f))
    ensures |FieldText(f)| >= |ValueOf(f)| && AllPlain(FieldText(f))
  {
    if f.Quoted? {
      PlainConcat(f.text, f.tail);
    }
    DoubledPlain(f.text);
    PlainConcat([QUOTE], Doubled(f.text));
    if f.Quoted? {
      PlainConcat([QUOTE] + Doubled(f.text), [QUOTE]);
      PlainConcat([QUOTE] + Doubled(f.text) + [QUOTE], f.tail);
    }
  }

  /** A text whose first terminator comes after `tail` has no longer plain first value. */
  lemma {:induction false} FirstValueDiffers(text: string, tail: nat, f: Field, value: string)
    requires tail < |text| && Terminator(text[tail]) && FieldText(f) <= text
    requires |value| > tail && forall k | 0 <= k < |value| :: PlainChar(value[k])
    ensures ValueOf(f) != value
  {
    if ValueOf(f) == value {
      FieldPlain(f);
    }
  }

  lemma {:induction false} FirstRecord(doc: Doc)
    requires GoodDoc(doc) && FirstFields(doc) != []
    ensures DocRecords(doc) != [] && DocRecords(doc)[0].fields == Values(FirstFields(doc))
    ensures DocRecords(doc)[0].blank <==> FirstFields(doc) == [Bare("")]
  {
    if doc.rows != [] {
      RowRecordAt(doc.rows, 0);
    } else {
      assert RowRecords(doc.rows) == [];
    }
  }

  lemma {:induction false} ValuesFirst(fields: seq<Field>)
    requires fields != []
    ensures |Values(fields)| == |fields| && Values(fields)[0] == ValueOf(fields[0])
  {
    ValuesLength(fields);
    if |fields| > 1 {
      ValuesLength(fields[..|fields| - 1]);
      ValuesFirst(fields[..|fields| - 1]);
    } else {
      assert Values(fields[..0]) == [];
    }
  }

  lemma {:induction false} SomethingFirst(doc: Doc)
    requires GoodDoc(doc) && DocText(doc) != ""
    ensures FirstFields(doc) != []
  {
  }

  /** Only a line break makes the first record blank. */
  lemma {:induction false} BlankFirst(doc: Doc)
    requires GoodDoc(doc) && FirstFields(doc) == [Bare("")]
    ensures DocText(doc) != "" && Terminator(DocText(doc)[0]) && DocText(doc)[0] != COMMA
  {
    DocSplit(doc);
  }

  /** The first record of the rest of the text is not the one that was printed. */
  lemma {:induction false} ShortenedDiffers(rest: string, tail: nat, value: string, record: seq<string>)
    requires tail < |rest| && Terminator(rest[tail])
    requires forall k | 0 <= k < tail :: PlainChar(rest[k])
    requires |value| > tail && (forall k | 0 <= k < |value| :: PlainChar(value[k]))
    requires record != [] && record[0] == value && (tail == 0 ==> rest[0] == COMMA)
    ensures Kept(Scanned(rest).records) != [] && Kept(Scanned(rest).records)[0].fields != record
  {
    EveryTextSpelled(rest);
    var doc :| GoodDoc(doc) && DocText(doc) == rest;
    ScanInvertsText(doc);
    SomethingFirst(doc);
    DocSplit(doc);
    FirstRecord(doc);
    ValuesFirst(FirstFields(doc));
    FirstValueDiffers(rest, tail, FirstFields(doc)[0], value);
    if FirstFields(doc) == [Bare("")] {
      BlankFirst(doc);
    }
    KeptFirst(DocRecords(doc));
  }

  lemma {:induction false} RowsTextConcat(a: seq<Row>, b: seq<Row>)
    ensures RowsText(a + b) == RowsText(a) + RowsText(b)
  {
    if b == [] {
      assert a + b == a;
    } else {
      var init, row := b[..|b| - 1], b[|b| - 1];
      assert a + b == (a + init) + [row] && b == init + [row];
      RowsTextConcat(a, init);
      RowsTextSnoc(a + init, row);
      RowsTextSnoc(init, row);
      Associate(RowsText(a), RowsText(init), RowText(row));
    }
  }

  /** Without its mark, a first line of nothing else is an empty line. */
  lemma {:induction false} OnlyMarkText(end: End, rest: seq<Row>)
    ensures RowsText([Row([Bare([BOM])], end)] + rest) == [BOM] + RowsText([Row([Bare("")], end)] + rest)
  {
    var marked, blank := Row([Bare([BOM])], end), Row([Bare("")], end);
    RowsTextConcat([marked], rest);
    RowsTextConcat([blank], rest);
    OneRowText(marked);
    OneRowText(blank);
    OneFieldText(marked, Bare([BOM]));
    OneFieldText(blank, Bare(""));
    NothingBefore(EndText(end));
    Associate([BOM], EndText(end), RowsText(rest));
  }

  lemma {:induction false} OneRowText(row: Row)
    ensures RowsText([row]) == RowText(row)
  {
    assert [row][..0] == [];
  }

  lemma {:induction false} BlankedRows(records: seq<seq<string>>, quotes: seq<seq<bool>>, end: End)
    requires Printable(records, quotes) && GoodEnd(end) && records != [] && |records[0]| == 1 && quotes[0] == [false]
    requires records[0][0] == [BOM] || records[0][0] == ""
    ensures |PrintedRows(records, quotes, end)| == |records|
    ensures PrintedRows(records, quotes, end)[0] == Row([Bare(records[0][0])], end)
    ensures forall k | 0 <= k < |records| ::
      PrintedRows(records, quotes, end)[k] == Row(PrintedFields(records[k], quotes[k]), end)
  {
    PrintedRowsGood(records, quotes, end);
    PrintedFirst(records[0], quotes[0]);
  }

  /** A file whose first line is only the mark parses as if that line were empty. */
  lemma {:induction false} OnlyMarkLost(records: seq<seq<string>>, quotes: seq<seq<bool>>, end: End)
    requires Printable(records, quotes) && GoodEnd(end)
    requires records != [] && records[0] == [[BOM]] && quotes[0] == [false]
    ensures !ParsesTo(Printing(records, quotes, end), records)
  {
    var blanked := [[""]] + records[1..];
    assert Printable(blanked, quotes);
    BlankedPrinting(records, blanked, quotes, end);
    PrintThenScan(blanked, quotes, end);
    assert blanked[0] == [""];
    KeptGivesBackIff(Scanned(Printing(blanked, quotes, end)).records, blanked, quotes);
  }

  lemma {:induction false} BlankedPrinting(
    records: seq<seq<string>>, blanked: seq<seq<string>>, quotes: seq<seq<bool>>, end: End)
    requires Printable(records, quotes) && Printable(blanked, quotes) && GoodEnd(end)
    requires records != [] && records[0] == [[BOM]] && quotes[0] == [false] && blanked == [[""]] + records[1..]
    ensures WithoutBom(Printing(records, quotes, end)) == Printing(blanked, quotes, end)
  {
    BlankedRows(records, quotes, end);
    BlankedRows(blanked, quotes, end);
    BlankedText(PrintedRows(records, quotes, end), PrintedRows(blanked, quotes, end), end);
  }

  lemma {:induction false} BlankedText(rows: seq<Row>, fewer: seq<Row>, end: End)
    requires |rows| == |fewer| > 0 && forall k | 1 <= k < |rows| :: rows[k] == fewer[k]
    requires rows[0] == Row([Bare([BOM])], end) && fewer[0] == Row([Bare("")], end)
    ensures WithoutBom(DocText(Doc(rows, []))) == DocText(Doc(fewer, []))
  {
    SameTail(rows, fewer);
    OnlyMarkText(end, rows[1..]);
    NoLast(rows);
    NoLast(fewer);
    MarkDropped(RowsText(fewer));
  }

  lemma {:induction false} MarkDropped(text: string)
    ensures WithoutBom([BOM] + text) == text
  {
  }

  lemma {:induction false} SameTail(a: seq<Row>, b: seq<Row>)
    requires |a| == |b| > 0 && forall k | 1 <= k < |a| :: a[k] == b[k]
    ensures a == [a[0]] + a[1..] && b == [b[0]] + a[1..]
  {
  }

  lemma {:induction false} NoLast(rows: seq<Row>)
    ensures DocText(Doc(rows, [])) == RowsText(rows)
  {
  }

  lemma {:induction false} OneFieldText(row: Row, f: Field)
    requires row.fields == [f]
    ensures RowText(row) == FieldText(f) + EndText(row.end)
  {
    assert row.fields[..0] == [];
  }

  /** A text that begins with the mark and a longer value, or a value of its own record, does not parse to it. */
  lemma {:induction false} MarkedTextDiffers(
    text: string, value: string, record: seq<string>, records: seq<seq<string>>)
    requires value <= text && StartsWith(value, BOM) && GoodBare(value)
    requires |value| < |text| && Terminator(text[|value|])
    requires records != [] && records[0] == record != [] && record[0] == value
    requires |value| == 1 ==> text[1] == COMMA
    ensures !ParsesTo(text, records)
  {
    var rest, tail := text[1..], |value| - 1;
    RestOf(text, value);
    ShortenedDiffers(rest, tail, value, record);
  }

  lemma {:induction false} RestOf(text: string, value: string)
    requires value <= text && StartsWith(value, BOM) && GoodBare(value) && |value| < |text|
    ensures WithoutBom(text) == text[1..] && text[1..][|value| - 1] == text[|value|]
    ensures forall k | 0 <= k < |value| - 1 :: PlainChar(text[1..][k])
  {
    forall k | 0 <= k < |value| - 1
      ensures PlainChar(text[1..][k])
    {
      assert text[1..][k] == value[k + 1];
    }
  }

  lemma {:induction false} MarkLost(records: seq<seq<string>>, quotes: seq<seq<bool>>, end: End)
    requires Printable(records, quotes) && GoodEnd(end) && MarkWritten(records, quotes)
    ensures !ParsesTo(Printing(records, quotes, end), records)
  {
    if records[0] == [[BOM]] {
      assert quotes[0] == [quotes[0][0]];
      OnlyMarkLost(records, quotes, end);
    } else {
      FirstPrinted(records, quotes, end);
      DocSplit(Doc(PrintedRows(records, quotes, end), []));
      assert |records[0]| == 1 ==> records[0] == [records[0][0]];
      assert |records[0][0]| == 1 ==> records[0][0] == [BOM];
      MarkedTextDiffers(Printing(records, quotes, end), records[0][0], records[0], records);
    }
  }

  /**
   Printed without a mark and parsed, the records come back if and only if the first value is not written unquoted with
   the mark in front, which the parse drops, and no record of one empty value is written as an empty line.
   */
  lemma {:induction false} PrintThenParseIff(records: seq<seq<string>>, quotes: seq<seq<bool>>, end: End)
    requires Printable(records, quotes) && GoodEnd(end)
    ensures ParsesTo(Printing(records, quotes, end), records)
       <==> !MarkWritten(records, quotes) && !EmptyLine(records, quotes)
  {
    MarkInFrontIff(records, quotes, end);
    if MarkWritten(records, quotes) {
      MarkLost(records, quotes, end);
    } else {
      UnmarkedParsesIff(records, quotes, end, Printing(records, quotes, end));
    }
  }

  /** Behind a mark nothing depends on the first value. */
  lemma {:induction false} MarkedParseIff(records: seq<seq<string>>, quotes: seq<seq<bool>>, end: End)
    requires Printable(records, quotes) && GoodEnd(end)
    ensures ParsesTo([BOM] + Printing(records, quotes, end), records) <==> !EmptyLine(records, quotes)
  {
    MarkDropped(Printing(records, quotes, end));
    UnmarkedParsesIff(records, quotes, end, [BOM] + Printing(records, quotes, end));
  }
}
