/**
 Every text is spelled by one document and no other, and the scanner reads it back: its records, and its errors.
 */
module CsvRoundTrip {
  import opened Csv
  import opened CsvGrammar
  import opened Sequences

  /** The scanner's walk over the documents read so far. */
  function Read(rest: string, p: Partial): Partial
    decreases |rest|
  {
    if rest == "" then p else Read(rest[Advance(rest, p).0..], Advance(rest, p).1)
  }

  lemma {:induction false} TakeOne(c: char, rest: string)
    ensures ([c] + rest)[0] == c && ([c] + rest)[1..] == rest
  {
  }

  lemma {:induction false} ReadBare(text: string, rest: string, p: Partial)
    requires p.cursor.InBare? && GoodBare(p.cursor.text + text)
    ensures Read(text + rest, p) == Read(rest, p.(cursor := InBare(p.cursor.text + text)))
    decreases |text|
  {
    if text == "" {
      assert text + rest == rest && p.cursor.text + text == p.cursor.text;
    } else {
      var c, tail := text[0], text[1..];
      assert text + rest == [c] + (tail + rest);
      TakeOne(c, tail + rest);
      assert (p.cursor.text + text)[|p.cursor.text|] == c;
      var p' := p.(cursor := InBare(p.cursor.text + [c]));
      assert p'.cursor.text + tail == p.cursor.text + text;
      assert Advance(text + rest, p) == (1, p');
      ReadBare(tail, rest, p');
    }
  }

  function Twice(c: char): string {
    if c == QUOTE then [QUOTE, QUOTE] else [c]
  }

  lemma {:induction false} DoubledCons(c: char, text: string)
    ensures Doubled([c] + text) == Twice(c) + Doubled(text)
  {
    if text == "" {
      assert [c] + text == "" + [c];
      DoubledSnoc("", c);
    } else {
      var init, last := text[..|text| - 1], text[|text| - 1];
      assert [c] + text == ([c] + init) + [last] && text == init + [last];
      DoubledCons(c, init);
      DoubledSnoc([c] + init, last);
    }
  }

  lemma {:induction false} ReadClosingQuote(rest: string, p: Partial)
    requires p.cursor.Opened? && !StartsWith(rest, QUOTE)
    ensures Read([QUOTE] + rest, p) == Read(rest, p.(cursor := Closed(p.cursor.text, "")))
  {
    TakeOne(QUOTE, rest);
    assert Advance([QUOTE] + rest, p) == (1, p.(cursor := Closed(p.cursor.text, "")));
  }

  /** Text inside quotes, up to where it stops. */
  lemma {:induction false} ReadQuotedText(text: string, rest: string, p: Partial)
    requires p.cursor.Opened?
    ensures Read(Doubled(text) + rest, p) == Read(rest, p.(cursor := Opened(p.cursor.text + text)))
    decreases |text|
  {
    if text == "" {
      assert Doubled(text) + rest == rest && p.cursor.text + text == p.cursor.text;
    } else {
      var c, tail := text[0], text[1..];
      var p' := p.(cursor := Opened(p.cursor.text + [c]));
      QuotedTextStep(text, c, tail, rest);
      assert p'.cursor.text + tail == p.cursor.text + text;
      ReadQuotedChar(c, Doubled(tail) + rest, p);
      ReadQuotedText(tail, rest, p');
    }
  }

  lemma {:induction false} QuotedTextStep(text: string, c: char, tail: string, rest: string)
    requires text == [c] + tail
    ensures Doubled(text) + rest == Twice(c) + (Doubled(tail) + rest)
  {
    DoubledCons(c, tail);
    Associate(Twice(c), Doubled(tail), rest);
  }

  /** What follows a closing quote up to the end of the field. */
  lemma {:induction false} ReadTail(tail: string, rest: string, p: Partial)
    requires p.cursor.Closed? && GoodTail(p.cursor.tail + tail)
    ensures Read(tail + rest, p) == Read(rest, p.(cursor := Closed(p.cursor.text, p.cursor.tail + tail)))
    decreases |tail|
  {
    if tail == "" {
      assert tail + rest == rest && p.cursor.tail + tail == p.cursor.tail;
    } else {
      var c, more := tail[0], tail[1..];
      assert tail + rest == [c] + (more + rest);
      TakeOne(c, more + rest);
      assert (p.cursor.tail + tail)[|p.cursor.tail|] == c;
      var p' := p.(cursor := Closed(p.cursor.text, p.cursor.tail + [c]));
      assert p'.cursor.tail + more == p.cursor.tail + tail;
      assert Advance(tail + rest, p) == (1, p');
      ReadTail(more, rest, p');
    }
  }

  lemma {:induction false} ReadQuotedChar(c: char, after: string, p: Partial)
    requires p.cursor.Opened?
    ensures Read(Twice(c) + after, p) == Read(after, p.(cursor := Opened(p.cursor.text + [c])))
  {
    var whole := Twice(c) + after;
    assert whole[|Twice(c)|..] == after;
    if c == QUOTE {
      assert whole[1..][0] == QUOTE;
    }
    assert Advance(whole, p) == (|Twice(c)|, p.(cursor := Opened(p.cursor.text + [c])));
  }

  function CursorOf(f: Field): Cursor {
    match f
    case Bare(text) => InBare(text)
    case Quoted(text, tail) => Closed(text, tail)
    case Unclosed(text) => Opened(text)
  }

  lemma {:induction false} ReadOpening(rest: string, p: Partial)
    requires p.cursor == InBare("")
    ensures Read([QUOTE] + rest, p) == Read(rest, p.(cursor := Opened("")))
  {
    TakeOne(QUOTE, rest);
    assert Advance([QUOTE] + rest, p) == (1, p.(cursor := Opened("")));
  }

  lemma {:induction false} ReadOpened(text: string, rest: string, p: Partial)
    requires p.cursor == InBare("")
    ensures Read([QUOTE] + Doubled(text) + rest, p) == Read(rest, p.(cursor := Opened(text)))
  {
    Associate([QUOTE], Doubled(text), rest);
    ReadOpening(Doubled(text) + rest, p);
    assert "" + text == text;
    ReadQuotedText(text, rest, p.(cursor := Opened("")));
  }

  lemma {:induction false} ReadQuoted(text: string, tail: string, rest: string, p: Partial)
    requires p.cursor == InBare("") && GoodTail(tail) && EndsField(rest)
    ensures Read([QUOTE] + Doubled(text) + [QUOTE] + tail + rest, p) == Read(rest, p.(cursor := Closed(text, tail)))
  {
    var body := tail + rest;
    assert !StartsWith(body, QUOTE) by {
      assert tail == "" ==> body == rest;
    }
    assert [QUOTE] + Doubled(text) + [QUOTE] + tail + rest == [QUOTE] + Doubled(text) + ([QUOTE] + body);
    ReadOpened(text, [QUOTE] + body, p);
    ReadClosingQuote(body, p.(cursor := Opened(text)));
    assert "" + tail == tail;
    ReadTail(tail, rest, p.(cursor := Closed(text, "")));
  }

  lemma {:induction false} ReadField(f: Field, rest: string, p: Partial)
    requires p.cursor == InBare("") && (GoodField(f) || (f.Unclosed? && rest == "")) && EndsField(rest)
    ensures Read(FieldText(f) + rest, p) == Read(rest, p.(cursor := CursorOf(f)))
  {
    match f
    case Bare(text) =>
      assert "" + text == text;
      ReadBare(text, rest, p);
    case Quoted(text, tail) => ReadQuoted(text, tail, rest, p);
    case Unclosed(text) => ReadOpened(text, rest, p);
  }

  lemma {:induction false} ReadDelimitedField(init: seq<Field>, f: Field, rest: string, rows: seq<Row>)
    requires GoodField(f)
    ensures Read(FieldText(f) + ([COMMA] + rest), Partial(rows, init, InBare("")))
         == Read(rest, Partial(rows, init + [f], InBare("")))
  {
    ReadField(f, [COMMA] + rest, Partial(rows, init, InBare("")));
    ReadComma(f, init, rest, rows);
  }

  lemma {:induction false} ReadDelimited(fields: seq<Field>, rest: string, rows: seq<Row>)
    requires GoodFields(fields)
    ensures Read(Delimited(fields) + rest, Partial(rows, [], InBare("")))
            == Read(rest, Partial(rows, fields, InBare("")))
    decreases |fields|
  {
    if fields == [] {
      assert Delimited(fields) + rest == rest;
    } else {
      var init, f := fields[..|fields| - 1], fields[|fields| - 1];
      assert fields == init + [f];
      calc {
        Read(Delimited(fields) + rest, Partial(rows, [], InBare("")));
        { DelimitedThen(init, f, rest); }
        Read(Delimited(init) + (FieldText(f) + ([COMMA] + rest)), Partial(rows, [], InBare("")));
        { ReadDelimited(init, FieldText(f) + ([COMMA] + rest), rows); }
        Read(FieldText(f) + ([COMMA] + rest), Partial(rows, init, InBare("")));
        { ReadDelimitedField(init, f, rest, rows); }
        Read(rest, Partial(rows, init + [f], InBare("")));
      }
    }
  }

  lemma {:induction false} DelimitedThen(init: seq<Field>, f: Field, rest: string)
    ensures Delimited(init + [f]) + rest == Delimited(init) + (FieldText(f) + ([COMMA] + rest))
  {
    Snoc(init, f);
    RowTextSplit(Delimited(init), FieldText(f), [COMMA], rest);
  }

  lemma {:induction false} ReadComma(f: Field, init: seq<Field>, rest: string, rows: seq<Row>)
    requires GoodField(f)
    ensures Read([COMMA] + rest, Partial(rows, init, CursorOf(f))) == Read(rest, Partial(rows, init + [f], InBare("")))
  {
    TakeOne(COMMA, rest);
    assert CursorField(CursorOf(f)) == f;
    assert Advance([COMMA] + rest, Partial(rows, init, CursorOf(f))) == (1, Partial(rows, init + [f], InBare("")));
  }

  lemma {:induction false} ReadFields(fields: seq<Field>, rest: string, rows: seq<Row>)
    requires fields != [] && GoodFields(fields[..|fields| - 1]) && EndsField(rest)
    requires GoodField(fields[|fields| - 1]) || (fields[|fields| - 1].Unclosed? && rest == "")
    ensures Read(FieldsText(fields) + rest, Partial(rows, [], InBare("")))
            == Read(rest, Partial(rows, fields[..|fields| - 1], CursorOf(fields[|fields| - 1])))
  {
    var init, f := fields[..|fields| - 1], fields[|fields| - 1];
    assert FieldsText(fields) == Delimited(init) + FieldText(f);
    Associate(Delimited(init), FieldText(f), rest);
    ReadDelimited(init, FieldText(f) + rest, rows);
    ReadField(f, rest, Partial(rows, init, InBare("")));
  }

  /** A terminator is read as itself unless a lone CR meets an LF. */
  lemma {:induction false} ReadRow(row: Row, rest: string, rows: seq<Row>)
    requires GoodRow(row) && (row.end == Lone(CR) ==> !StartsWith(rest, LF))
    ensures Read(RowText(row) + rest, Partial(rows, [], InBare("")))
            == Read(rest, Partial(rows + [row], [], InBare("")))
  {
    var init, f := row.fields[..|row.fields| - 1], row.fields[|row.fields| - 1];
    var after := EndText(row.end) + rest;
    Associate(FieldsText(row.fields), EndText(row.end), rest);
    ReadFields(row.fields, after, rows);
    AdvanceEnd(row, rest, rows, init, f);
    assert after[|EndText(row.end)|..] == rest;
  }

  lemma {:induction false} AdvanceEnd(row: Row, rest: string, rows: seq<Row>, init: seq<Field>, f: Field)
    requires GoodRow(row) && (row.end == Lone(CR) ==> !StartsWith(rest, LF)) && init + [f] == row.fields
    ensures Advance(EndText(row.end) + rest, Partial(rows, init, CursorOf(f)))
         == (|EndText(row.end)|, Partial(rows + [row], [], InBare("")))
  {
    var after := EndText(row.end) + rest;
    assert row.fields[|row.fields| - 1] == f && GoodField(f);
    assert row.end.Crlf? ==> after[1..][0] == LF;
    assert row.end.Lone? ==> after[1..] == rest;
    assert CursorField(CursorOf(f)) == f;
  }

  lemma {:induction false} DelimitedNotLf(fields: seq<Field>, tail: string)
    requires fields != [] && GoodFields(fields)
    ensures !StartsWith(Delimited(fields) + tail, LF)
    decreases |fields|
  {
    var init, f := fields[..|fields| - 1], fields[|fields| - 1];
    assert fields == init + [f];
    DelimitedThen(init, f, tail);
    if init != [] {
      DelimitedNotLf(init, FieldText(f) + ([COMMA] + tail));
    }
  }

  lemma {:induction false} FieldStartsLf(f: Field, tail: string)
    requires GoodField(f) && StartsWith(FieldText(f) + tail, LF)
    ensures f == Bare("") && StartsWith(tail, LF)
  {
    if f == Bare("") {
      assert FieldText(f) + tail == tail;
    }
  }

  lemma {:induction false} EndStartsLf(end: End, rest: string)
    requires GoodEnd(end) && StartsWith(EndText(end) + rest, LF)
    ensures end == Lone(LF)
  {
  }

  lemma {:induction false} OneFieldStartsLf(row: Row, f: Field, rest: string)
    requires GoodRow(row) && row.fields == [f]
    requires StartsWith(FieldText(f) + (EndText(row.end) + rest), LF)
    ensures BareLf(row)
  {
    assert row.fields[0] == f;
    FieldStartsLf(f, EndText(row.end) + rest);
    EndStartsLf(row.end, rest);
  }

  lemma {:induction false} RowTextSplit(a: string, b: string, c: string, d: string)
    ensures a + b + c + d == a + (b + (c + d))
  {
  }

  lemma {:induction false} RowStartsLf(row: Row, rest: string)
    requires GoodRow(row) && StartsWith(RowText(row) + rest, LF)
    ensures BareLf(row)
  {
    var init, f := row.fields[..|row.fields| - 1], row.fields[|row.fields| - 1];
    var tail := FieldText(f) + (EndText(row.end) + rest);
    RowTextSplit(Delimited(init), FieldText(f), EndText(row.end), rest);
    if init != [] {
      DelimitedNotLf(init, tail);
    } else {
      assert Delimited(init) + tail == tail;
      OneFieldStartsLf(row, f, rest);
    }
  }

  lemma {:induction false} RowAfterCr(rows: seq<Row>, row: Row, rest: string)
    requires GoodRows(rows + [row])
    ensures GoodRows(rows) && GoodRow(row)
    ensures rows != [] && rows[|rows| - 1].end == Lone(CR) ==> !StartsWith(RowText(row) + rest, LF)
  {
    var all := rows + [row];
    assert forall k | 0 <= k < |rows| :: rows[k] == all[k];
    assert all[|rows|] == row;
    assert Apart(rows) by {
      forall k | 0 <= k < |rows| - 1 ensures rows[k].end == Lone(CR) ==> !BareLf(rows[k + 1]) {
        assert all[k].end == Lone(CR) ==> !BareLf(all[k + 1]);
      }
    }
    if rows != [] && rows[|rows| - 1].end == Lone(CR) {
      var k := |rows| - 1;
      assert all[k].end == Lone(CR) ==> !BareLf(all[k + 1]);
      if StartsWith(RowText(row) + rest, LF) {
        RowStartsLf(row, rest);
      }
    }
  }

  lemma {:induction false} ReadRows(rows: seq<Row>, rest: string)
    requires GoodRows(rows) && (rows != [] && rows[|rows| - 1].end == Lone(CR) ==> !StartsWith(rest, LF))
    ensures Read(RowsText(rows) + rest, NOTHING) == Read(rest, Partial(rows, [], InBare("")))
    decreases |rows|
  {
    if rows == [] {
      assert RowsText(rows) + rest == rest;
    } else {
      var init, row := rows[..|rows| - 1], rows[|rows| - 1];
      assert RowsText(rows) == RowsText(init) + RowText(row);
      Associate(RowsText(init), RowText(row), rest);
      assert rows == init + [row];
      RowAfterCr(init, row, rest);
      ReadRows(init, RowText(row) + rest);
      ReadRow(row, rest, init);
    }
  }

  function PartialOf(doc: Doc): Partial {
    if doc.last == [] then Partial(doc.rows, [], InBare(""))
    else Partial(doc.rows, doc.last[..|doc.last| - 1], CursorOf(doc.last[|doc.last| - 1]))
  }

  lemma {:induction false} LastNotLf(last: seq<Field>)
    requires GoodLast(last)
    ensures !StartsWith(FieldsText(last), LF)
  {
    if last != [] {
      var init, f := last[..|last| - 1], last[|last| - 1];
      if init != [] {
        DelimitedNotLf(init, FieldText(f));
      }
    }
  }

  lemma {:induction false} ReadDoc(doc: Doc)
    requires GoodDoc(doc)
    ensures Read(DocText(doc), NOTHING) == PartialOf(doc)
  {
    LastNotLf(doc.last);
    ReadRows(doc.rows, FieldsText(doc.last));
    if doc.last != [] {
      ReadFields(doc.last, "", doc.rows);
      assert FieldsText(doc.last) + "" == FieldsText(doc.last);
    }
  }

  lemma {:induction false} ReadMirrored(rest: string, p: Partial, st: State)
    requires Image(p, rest, st)
    ensures Image(Read(rest, p), "", Run(rest, st))
    decreases |rest|
  {
    if rest != "" {
      AdvanceImage(rest, p, st);
      var (n, st') := Step(rest, st);
      ReadMirrored(rest[n..], Advance(rest, p).1, st');
    }
  }

  // ----- the theorems

  /** The scanner's first state, and the document read when nothing is. */
  lemma {:induction false} Begin(text: string) returns (p: Partial, st: State)
    ensures p == NOTHING && st == START && PartialText(p) == ""
    ensures Image(p, text, st) && GoodPartial(p) && AtBoundary(p, text) && CrWasAlone(p, text)
  {
    p, st := NOTHING, START;
    assert RowErrors([]) + [] == [];
  }

  lemma {:induction false} FinishFrom(text: string, start: Partial, st: State, p: Partial)
    requires Image(start, text, st) && Read(text, start) == p
    ensures Finish(Run(text, st)).errors == DocErrors(DocOf(p))
    ensures Finish(Run(text, st)).records == DocRecords(DocOf(p))
  {
    ReadMirrored(text, start, st);
    FinishMeans(p, Run(text, st));
  }

  lemma {:induction false} FinishMirrored(text: string, p: Partial)
    requires Read(text, NOTHING) == p
    ensures Scanned(text).errors == DocErrors(DocOf(p)) && Scanned(text).records == DocRecords(DocOf(p))
  {
    var start, st := Begin(text);
    FinishFrom(text, start, st, p);
  }

  /** Scanning the text of a document returns its records, with the line each one starts on, and its errors. */
  lemma {:induction false} ScanInvertsText(doc: Doc)
    requires GoodDoc(doc)
    ensures Scanned(DocText(doc)).errors == DocErrors(doc)
    ensures Scanned(DocText(doc)).records == DocRecords(doc)
  {
    ReadDoc(doc);
    FinishMirrored(DocText(doc), PartialOf(doc));
    FromPartial(doc);
  }

  lemma {:induction false} DocFrom(text: string, start: Partial, st: State)
    requires Image(start, text, st) && GoodPartial(start) && AtBoundary(start, text) && CrWasAlone(start, text)
    requires PartialText(start) == ""
    ensures exists doc :: GoodDoc(doc) && DocText(doc) == text
  {
    var doc := ScanFrom(text, start, st);
    assert PartialText(start) + text == text;
    assert GoodDoc(doc) && DocText(doc) == text;
  }

  /** Every text is the text of a document. */
  lemma {:induction false} EveryTextSpelled(text: string)
    ensures exists doc :: GoodDoc(doc) && DocText(doc) == text
  {
    var p, st := Begin(text);
    DocFrom(text, p, st);
  }

  /** And of one only: quoting, fields, rows, terminators and damage are all determined. */
  lemma {:induction false} DocUnique(a: Doc, b: Doc)
    requires GoodDoc(a) && GoodDoc(b) && DocText(a) == DocText(b)
    ensures a == b
  {
    ReadDoc(a);
    ReadDoc(b);
    FromPartial(a);
    FromPartial(b);
  }

  lemma {:induction false} FromPartial(doc: Doc)
    requires GoodDoc(doc)
    ensures DocOf(PartialOf(doc)) == doc
  {
    if doc.last != [] {
      var init, f := doc.last[..|doc.last| - 1], doc.last[|doc.last| - 1];
      assert doc.last == init + [f] && CursorField(CursorOf(f)) == f;
      assert Fresh(PartialOf(doc)) ==> init == [] && f == Bare("");
    }
  }

  // ----- no error exactly on the lenient grammar

  lemma {:induction false} RecordErrorsNone(line: nat, fields: seq<Field>)
    ensures RecordErrors(line, fields) == [] <==> !AnySpoilt(fields) && !LeftOpen(fields)
  {
  }

  lemma {:induction false} RowErrorsNone(rows: seq<Row>)
    requires GoodRows(rows)
    ensures RowErrors(rows) == [] <==> forall k | 0 <= k < |rows| :: !AnySpoilt(rows[k].fields)
  {
    if rows != [] {
      var init, row := rows[..|rows| - 1], rows[|rows| - 1];
      assert rows == init + [row];
      RowAfterCr(init, row, "");
      RowErrorsNone(init);
      assert GoodField(row.fields[|row.fields| - 1]);
      RecordErrorsNone(1 + LinesOf(init), row.fields);
    }
  }

  lemma {:induction false} NoErrorsIff(doc: Doc)
    requires GoodDoc(doc)
    ensures DocErrors(doc) == [] <==> Undamaged(doc)
  {
    RowErrorsNone(doc.rows);
    RecordErrorsNone(1 + LinesOf(doc.rows), doc.last);
  }

  /** A text scans without error exactly when it is the text of a document without damage. */
  lemma {:induction false} ScanAcceptsExactly(text: string)
    ensures Scanned(text).errors == [] <==> exists doc :: GoodDoc(doc) && Undamaged(doc) && DocText(doc) == text
  {
    EveryTextSpelled(text);
    var doc :| GoodDoc(doc) && DocText(doc) == text;
    AcceptsIff(doc);
    forall other | GoodDoc(other) && Undamaged(other) && DocText(other) == text
      ensures other == doc
    {
      DocUnique(other, doc);
    }
  }

  lemma {:induction false} AcceptsIff(doc: Doc)
    requires GoodDoc(doc)
    ensures Scanned(DocText(doc)).errors == [] <==> Undamaged(doc)
  {
    ScanInvertsText(doc);
    NoErrorsIff(doc);
  }
}
