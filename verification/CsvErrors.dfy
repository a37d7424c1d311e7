/**
 What the scanner's errors say (packages/vault/src/import/csv.ts), of every text: which records they name, how often,
 and that a record nobody names was read as it was written (packages/vault/src/import/parsers/shared.ts refuses the
 others).
 */
module CsvErrors {
  import opened Csv
  import opened CsvGrammar
  import opened Sequences
  import opened CsvRoundTrip
  import opened CsvLines

  /** The fields of record `k`. */
  function FieldsAt(doc: Doc, k: nat): seq<Field>
    requires k <= |doc.rows|
  {
    if k < |doc.rows| then doc.rows[k].fields else doc.last
  }

  function Count(doc: Doc): nat {
    |doc.rows| + if doc.last == [] then 0 else 1
  }

  function LineAt(doc: Doc, k: nat): nat
    requires k <= |doc.rows|
  {
    1 + LinesOf(doc.rows[..k])
  }

  /** A closing quote not followed by the end of its field, or a quote never closed. */
  predicate DamagedAt(doc: Doc, k: nat)
    requires k <= |doc.rows|
  {
    AnySpoilt(FieldsAt(doc, k)) || LeftOpen(FieldsAt(doc, k))
  }

  // ----- lines

  lemma {:induction false} LinesGrow(rows: seq<Row>, i: nat, j: nat)
    requires i < j <= |rows|
    ensures LinesOf(rows[..i]) < LinesOf(rows[..j])
    decreases j
  {
    assert rows[..j][..j - 1] == rows[..j - 1];
    if i < j - 1 {
      LinesGrow(rows, i, j - 1);
    }
  }

  /** No two records begin on one line. */
  lemma {:induction false} LinesDiffer(doc: Doc, i: nat, j: nat)
    requires i <= |doc.rows| && j <= |doc.rows| && LineAt(doc, i) == LineAt(doc, j)
    ensures i == j
  {
    if i < j {
      LinesGrow(doc.rows, i, j);
    } else if j < i {
      LinesGrow(doc.rows, j, i);
    }
  }

  lemma {:induction false} RecordsAt(doc: Doc, k: nat)
    requires k < Count(doc)
    ensures |DocRecords(doc)| == Count(doc)
    ensures DocRecords(doc)[k] == RecordOf(LineAt(doc, k), FieldsAt(doc, k))
  {
    RowRecordsSize(doc.rows);
    if k < |doc.rows| {
      RowRecordAt(doc.rows, k);
      assert DocRecords(doc)[k] == RowRecords(doc.rows)[k];
    } else {
      assert doc.rows[..k] == doc.rows;
    }
  }

  // ----- which errors there are

  /** The errors of record `k`. */
  function ErrorsAt(doc: Doc, k: nat): seq<Error>
    requires k <= |doc.rows|
  {
    RecordErrors(LineAt(doc, k), FieldsAt(doc, k))
  }

  /** The errors, record by record. */
  function ErrorLists(doc: Doc): (lists: seq<seq<Error>>)
    ensures |lists| == |doc.rows| + 1
    ensures forall k | 0 <= k <= |doc.rows| :: lists[k] == ErrorsAt(doc, k)
  {
    seq(|doc.rows| + 1, k requires 0 <= k <= |doc.rows| => ErrorsAt(doc, k))
  }

  lemma {:induction false} RowErrorsStep(doc: Doc, k: nat)
    requires k < |doc.rows|
    ensures RowErrors(doc.rows[..k + 1]) == RowErrors(doc.rows[..k]) + ErrorsAt(doc, k)
  {
    RowErrorsSnoc(doc.rows[..k], doc.rows[k]);
    assert doc.rows[..k + 1] == doc.rows[..k] + [doc.rows[k]];
  }

  lemma {:induction false} LastErrors(doc: Doc)
    ensures DocErrors(doc) == RowErrors(doc.rows[..|doc.rows|]) + ErrorsAt(doc, |doc.rows|)
  {
    assert doc.rows[..|doc.rows|] == doc.rows;
  }

  /** The errors up to each record, and then all. */
  function Wholes(doc: Doc): (wholes: seq<seq<Error>>)
    ensures |wholes| == |doc.rows| + 2 && wholes[|doc.rows| + 1] == DocErrors(doc)
    ensures forall k | 0 <= k <= |doc.rows| :: wholes[k] == RowErrors(doc.rows[..k])
  {
    seq(|doc.rows| + 1, k requires 0 <= k <= |doc.rows| => RowErrors(doc.rows[..k])) + [DocErrors(doc)]
  }

  /** A file's errors are those of its records, one record after the other. */
  lemma {:induction false} DocErrorsJoined(doc: Doc)
    ensures DocErrors(doc) == Joined(ErrorLists(doc))
  {
    forall k | 0 <= k < |ErrorLists(doc)|
      ensures Wholes(doc)[k + 1] == Wholes(doc)[k] + ErrorLists(doc)[k]
    {
      WholesStep(doc, k);
    }
    LastWhole(Wholes(doc), ErrorLists(doc));
  }

  lemma {:induction false} WholesStep(doc: Doc, k: nat)
    requires k <= |doc.rows|
    ensures Wholes(doc)[k + 1] == Wholes(doc)[k] + ErrorLists(doc)[k]
  {
    if k < |doc.rows| {
      RowErrorsStep(doc, k);
    } else {
      LastErrors(doc);
    }
  }

  lemma {:induction false} LastWhole(wholes: seq<seq<Error>>, lists: seq<seq<Error>>)
    requires |wholes| == |lists| + 1 && wholes[0] == []
    requires forall k | 0 <= k < |lists| :: wholes[k + 1] == wholes[k] + lists[k]
    ensures wholes[|lists|] == Joined(lists)
  {
    Accumulates(wholes, lists, |lists|);
    assert lists[..|lists|] == lists;
  }

  lemma {:induction false} NoneWithoutFields(line: nat)
    ensures RecordErrors(line, []) == []
  {
  }

  lemma {:induction false} ErrorFrom(doc: Doc, e: Error) returns (k: nat)
    requires e in DocErrors(doc)
    ensures k < Count(doc) && e in ErrorsAt(doc, k)
  {
    DocErrorsJoined(doc);
    k := JoinedMember(ErrorLists(doc), e);
    NoneWithoutFields(LineAt(doc, |doc.rows|));
  }

  lemma {:induction false} ErrorTo(doc: Doc, k: nat, e: Error)
    requires k < Count(doc) && e in ErrorsAt(doc, k)
    ensures e in DocErrors(doc)
  {
    DocErrorsJoined(doc);
    MemberJoined(ErrorLists(doc), k, e);
  }

  lemma {:induction false} OwnRow(line: nat, fields: seq<Field>, e: Error)
    requires e in RecordErrors(line, fields)
    ensures e.row == line
    ensures e.UndoubledQuote? ==> AnySpoilt(fields)
    ensures e.NeverClosed? ==> LeftOpen(fields) && e.swallowed == LineFeeds(fields[|fields| - 1].text)
  {
  }

  lemma {:induction false} DamageHasError(line: nat, fields: seq<Field>) returns (e: Error)
    requires AnySpoilt(fields) || LeftOpen(fields)
    ensures e in RecordErrors(line, fields)
  {
    e := RecordErrors(line, fields)[0];
  }

  /** Some error names the line. */
  ghost predicate Named(errors: seq<Error>, line: nat) {
    exists e :: e in errors && e.row == line
  }

  /**
   A line is named by an error if and only if a damaged record begins on it: a closing quote of it is not followed by
   the end of its field, or a quote of it is never closed.
   */
  lemma {:induction false} NamedIff(doc: Doc, k: nat)
    requires GoodDoc(doc) && k < Count(doc)
    ensures |Scanned(DocText(doc)).records| == Count(doc)
    ensures Named(Scanned(DocText(doc)).errors, Scanned(DocText(doc)).records[k].line) <==> DamagedAt(doc, k)
  {
    ScanInvertsText(doc);
    RecordsAt(doc, k);
    DocNamedIff(doc, k);
  }

  lemma {:induction false} DocNamedIff(doc: Doc, k: nat)
    requires k < Count(doc)
    ensures Named(DocErrors(doc), LineAt(doc, k)) <==> DamagedAt(doc, k)
  {
    if DamagedAt(doc, k) {
      var e := DamageHasError(LineAt(doc, k), FieldsAt(doc, k));
      OwnRow(LineAt(doc, k), FieldsAt(doc, k), e);
      ErrorTo(doc, k, e);
    }
    if Named(DocErrors(doc), LineAt(doc, k)) {
      var e :| e in DocErrors(doc) && e.row == LineAt(doc, k);
      var j := ErrorFrom(doc, e);
      OwnRow(LineAt(doc, j), FieldsAt(doc, j), e);
      LinesDiffer(doc, j, k);
    }
  }

  /** Every error names the line of a record that was returned, and says what is wrong with that record. */
  lemma {:induction false} ErrorsNameRecords(doc: Doc, e: Error) returns (k: nat)
    requires GoodDoc(doc) && e in Scanned(DocText(doc)).errors
    ensures k < |Scanned(DocText(doc)).records| == Count(doc) && e.row == Scanned(DocText(doc)).records[k].line
    ensures e.UndoubledQuote? ==> AnySpoilt(FieldsAt(doc, k))
    ensures e.NeverClosed? ==>
      var fields := FieldsAt(doc, k);
      k == |doc.rows| && LeftOpen(fields) && e.swallowed == LineFeeds(fields[|fields| - 1].text)
  {
    ScanInvertsText(doc);
    k := ErrorFrom(doc, e);
    OwnRow(LineAt(doc, k), FieldsAt(doc, k), e);
    RecordsAt(doc, k);
    if k < |doc.rows| {
      RowEnds(doc.rows, k);
    }
  }

  lemma {:induction false} RowEnds(rows: seq<Row>, k: nat)
    requires GoodRows(rows) && k < |rows|
    ensures !LeftOpen(rows[k].fields)
  {
    assert GoodRow(rows[k]);
    var fields := rows[k].fields;
    assert GoodField(fields[|fields| - 1]);
  }

  // ----- how often

  /** No error is said twice. */
  ghost predicate Once(errors: seq<Error>) {
    forall i, j | 0 <= i < j < |errors| :: errors[i] != errors[j]
  }

  lemma {:induction false} OnceConcat(a: seq<Error>, b: seq<Error>, line: nat)
    requires Once(a) && Once(b)
    requires (forall e | e in a :: e.row < line) && forall e | e in b :: e.row == line
    ensures Once(a + b) && forall e | e in a + b :: e.row < line + 1
  {
    forall i, j | 0 <= i < j < |a + b|
      ensures (a + b)[i] != (a + b)[j]
    {
      if i < |a| <= j {
        assert b[j - |a|] in b && a[i] in a;
      }
    }
  }

  lemma {:induction false} RecordOnce(line: nat, fields: seq<Field>)
    ensures Once(RecordErrors(line, fields)) && forall e | e in RecordErrors(line, fields) :: e.row == line
  {
  }

  /** Lists that each name one line, the lines growing, have nothing in common. */
  lemma {:induction false} ListsOnce(lists: seq<seq<Error>>, lines: seq<nat>, n: nat)
    requires n <= |lists| == |lines|
    requires forall k | 0 <= k < |lists| :: Once(lists[k]) && forall e | e in lists[k] :: e.row == lines[k]
    requires forall j, k | 0 <= j < k < |lines| :: lines[j] < lines[k]
    ensures Once(Joined(lists[..n]))
    ensures forall e | e in Joined(lists[..n]) :: n > 0 && e.row < lines[n - 1] + 1
  {
    if n > 0 {
      var k := n - 1;
      ListsOnce(lists, lines, k);
      JoinedOne(lists, k);
      assert k > 0 ==> lines[k - 1] < lines[k];
      OnceConcat(Joined(lists[..k]), lists[k], lines[k]);
    }
  }

  /** One record, one report of a quote not doubled, however many there are in it. */
  lemma {:induction false} ReportedOnce(doc: Doc)
    requires GoodDoc(doc)
    ensures Once(Scanned(DocText(doc)).errors)
  {
    ScanInvertsText(doc);
    DocErrorsOnce(doc);
  }

  function Lines(doc: Doc): (lines: seq<nat>)
    ensures |lines| == |doc.rows| + 1
    ensures forall k | 0 <= k <= |doc.rows| :: lines[k] == LineAt(doc, k)
  {
    seq(|doc.rows| + 1, k requires 0 <= k <= |doc.rows| => LineAt(doc, k))
  }

  lemma {:induction false} DocErrorsOnce(doc: Doc)
    ensures Once(DocErrors(doc))
  {
    var lists, lines := ErrorLists(doc), Lines(doc);
    forall k | 0 <= k < |lists|
      ensures Once(lists[k]) && forall e: Error | e in lists[k] :: e.row == lines[k]
    {
      RecordOnce(LineAt(doc, k), FieldsAt(doc, k));
    }
    forall j, k | 0 <= j < k < |lines|
      ensures lines[j] < lines[k]
    {
      LinesGrow(doc.rows, j, k);
    }
    ListsOnce(lists, lines, |lists|);
    assert lists[..|lists|] == lists;
    DocErrorsJoined(doc);
  }

  // ----- what may be imported

  /** Every field stands as it was meant: bare, or between its quotes with nothing behind them. */
  predicate AsWritten(fields: seq<Field>) {
    forall j | 0 <= j < |fields| :: fields[j].Bare? || (fields[j].Quoted? && fields[j].tail == "")
  }

  lemma {:induction false} ValuesAt(fields: seq<Field>, j: nat)
    requires j < |fields|
    ensures |Values(fields)| == |fields| && Values(fields)[j] == ValueOf(fields[j])
  {
    var n := |fields| - 1;
    ValuesLength(fields);
    ValuesLength(fields[..n]);
    if j < n {
      ValuesAt(fields[..n], j);
    }
  }

  /** A record that no error names is undamaged, and its values are the texts of its fields: it may be imported. */
  lemma {:induction false} UnnamedIsAsWritten(doc: Doc, k: nat)
    requires GoodDoc(doc) && k < Count(doc) && |Scanned(DocText(doc)).records| == Count(doc)
    requires !Named(Scanned(DocText(doc)).errors, Scanned(DocText(doc)).records[k].line)
    ensures AsWritten(FieldsAt(doc, k))
    ensures |Scanned(DocText(doc)).records[k].fields| == |FieldsAt(doc, k)|
    ensures forall j | 0 <= j < |FieldsAt(doc, k)| ::
      Scanned(DocText(doc)).records[k].fields[j] == FieldsAt(doc, k)[j].text
  {
    var fields := FieldsAt(doc, k);
    NamedIff(doc, k);
    ScanInvertsText(doc);
    RecordsAt(doc, k);
    forall j | 0 <= j < |fields|
      ensures fields[j].Bare? || (fields[j].Quoted? && fields[j].tail == "")
    {
      assert !Spoilt(fields[j]);
      FieldEnds(doc, k, j);
    }
    ValuesLength(fields);
    forall j | 0 <= j < |fields|
      ensures Values(fields)[j] == fields[j].text
    {
      ValuesAt(fields, j);
      assert fields[j].Quoted? ==> fields[j].text + "" == fields[j].text;
    }
  }

  lemma {:induction false} FieldEnds(doc: Doc, k: nat, j: nat)
    requires GoodDoc(doc) && k < Count(doc) && j < |FieldsAt(doc, k)| && !LeftOpen(FieldsAt(doc, k))
    ensures GoodField(FieldsAt(doc, k)[j])
  {
    if k < |doc.rows| {
      assert GoodRow(doc.rows[k]);
    } else if j < |doc.last| - 1 {
      assert doc.last[..|doc.last| - 1][j] == doc.last[j];
    }
  }
}
