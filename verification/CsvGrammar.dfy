/**
 Every text as the text of a document, damage and all, and the proof that the scanner returns the records and the errors
 of the one document a text spells. A document without damage is one of the lenient grammar the scanner accepts.
 */
module CsvGrammar {
  import opened Csv
  import opened Sequences

  /** What follows the closing quote of a field is `tail`; the last quote of a file may never be closed. */
  datatype Field = Bare(text: string) | Quoted(text: string, tail: string) | Unclosed(text: string)

  datatype End = Crlf | Lone(c: char)

  datatype Row = Row(fields: seq<Field>, end: End)

  /** Terminated rows, then the fields of a last row that has no terminator (none at all when empty). */
  datatype Doc = Doc(rows: seq<Row>, last: seq<Field>)

  // ----- well-formedness

  predicate PlainChar(c: char) {
    c != COMMA && c != CR && c != LF
  }

  /** A quote is data anywhere but at the start of an unquoted field. */
  predicate GoodBare(text: string) {
    !StartsWith(text, QUOTE) && forall k | 0 <= k < |text| :: PlainChar(text[k])
  }

  /** What stands between a closing quote and the end of its field; a quote at once would be a doubled one. */
  predicate GoodTail(tail: string) {
    !StartsWith(tail, QUOTE) && forall k | 0 <= k < |tail| :: PlainChar(tail[k])
  }

  /** A field that comes to an end. */
  predicate GoodField(f: Field) {
    match f
    case Bare(text) => GoodBare(text)
    case Quoted(_, tail) => GoodTail(tail)
    case Unclosed(_) => false
  }

  predicate GoodFields(fields: seq<Field>) {
    forall k | 0 <= k < |fields| :: GoodField(fields[k])
  }

  predicate GoodEnd(end: End) {
    end.Lone? ==> end.c == CR || end.c == LF
  }

  predicate GoodRow(row: Row) {
    row.fields != [] && GoodFields(row.fields) && GoodEnd(row.end)
  }

  /** The row is nothing but a line feed. */
  predicate BareLf(row: Row) {
    row == Row([Bare("")], Lone(LF))
  }

  /** A lone CR and a row that is only LF would read as one CRLF, so they may not follow each other. */
  predicate Apart(rows: seq<Row>) {
    forall k | 0 <= k < |rows| - 1 :: rows[k].end == Lone(CR) ==> !BareLf(rows[k + 1])
  }

  predicate GoodRows(rows: seq<Row>) {
    Apart(rows) && forall k | 0 <= k < |rows| :: GoodRow(rows[k])
  }

  /** Only the last field of a file may lack its closing quote. */
  predicate GoodLast(last: seq<Field>) {
    && last != [Bare("")]
    && (last != [] ==>
          && GoodFields(last[..|last| - 1])
          && (last[|last| - 1].Unclosed? || GoodField(last[|last| - 1])))
  }

  predicate GoodDoc(doc: Doc) {
    GoodRows(doc.rows) && GoodLast(doc.last)
  }

  // ----- damage

  /** The closing quote is followed by more of the field. */
  predicate Spoilt(f: Field) {
    f.Quoted? && f.tail != ""
  }

  predicate AnySpoilt(fields: seq<Field>) {
    exists k :: 0 <= k < |fields| && Spoilt(fields[k])
  }

  predicate LeftOpen(fields: seq<Field>) {
    fields != [] && fields[|fields| - 1].Unclosed?
  }

  predicate Undamaged(doc: Doc) {
    && (forall k | 0 <= k < |doc.rows| :: !AnySpoilt(doc.rows[k].fields))
    && !AnySpoilt(doc.last) && !LeftOpen(doc.last)
  }

  // ----- the text a document spells

  function Doubled(text: string): string {
    if text == "" then ""
    else Doubled(text[..|text| - 1]) + if text[|text| - 1] == QUOTE then [QUOTE, QUOTE] else [text[|text| - 1]]
  }

  function FieldText(f: Field): string {
    match f
    case Bare(text) => text
    case Quoted(text, tail) => [QUOTE] + Doubled(text) + [QUOTE] + tail
    case Unclosed(text) => [QUOTE] + Doubled(text)
  }

  /** What a field is read as. */
  function ValueOf(f: Field): string {
    if f.Quoted? then f.text + f.tail else f.text
  }

  /** Finished fields, each followed by its delimiter. */
  function Delimited(fields: seq<Field>): string {
    if fields == [] then "" else Delimited(fields[..|fields| - 1]) + FieldText(fields[|fields| - 1]) + [COMMA]
  }

  function FieldsText(fields: seq<Field>): string {
    if fields == [] then "" else Delimited(fields[..|fields| - 1]) + FieldText(fields[|fields| - 1])
  }

  function EndText(end: End): string {
    match end
    case Crlf => [CR, LF]
    case Lone(c) => [c]
  }

  function RowText(row: Row): string {
    FieldsText(row.fields) + EndText(row.end)
  }

  function RowsText(rows: seq<Row>): string {
    if rows == [] then "" else RowsText(rows[..|rows| - 1]) + RowText(rows[|rows| - 1])
  }

  function DocText(doc: Doc): string {
    RowsText(doc.rows) + FieldsText(doc.last)
  }

  // ----- the records a document means

  function LineFeeds(text: string): nat {
    if text == "" then 0 else LineFeeds(text[..|text| - 1]) + if text[|text| - 1] == LF then 1 else 0
  }

  function FieldFeeds(f: Field): nat {
    if f.Bare? then 0 else LineFeeds(f.text)
  }

  function FieldsFeeds(fields: seq<Field>): nat {
    if fields == [] then 0 else FieldsFeeds(fields[..|fields| - 1]) + FieldFeeds(fields[|fields| - 1])
  }

  /** Each row takes one line, plus one for every line feed inside its quoted fields. */
  function LinesOf(rows: seq<Row>): nat {
    if rows == [] then 0 else LinesOf(rows[..|rows| - 1]) + FieldsFeeds(rows[|rows| - 1].fields) + 1
  }

  function Values(fields: seq<Field>): seq<string> {
    if fields == [] then [] else Values(fields[..|fields| - 1]) + [ValueOf(fields[|fields| - 1])]
  }

  function RecordOf(line: nat, fields: seq<Field>): Record {
    Record(line, Values(fields), fields == [Bare("")])
  }

  function RowRecords(rows: seq<Row>): seq<Record> {
    if rows == [] then []
    else RowRecords(rows[..|rows| - 1]) + [RecordOf(1 + LinesOf(rows[..|rows| - 1]), rows[|rows| - 1].fields)]
  }

  function DocRecords(doc: Doc): seq<Record> {
    RowRecords(doc.rows) + if doc.last == [] then [] else [RecordOf(1 + LinesOf(doc.rows), doc.last)]
  }

  // ----- the errors a document has

  /** At most one for what follows a closing quote, and one for a quote never closed, with the lines it swallowed. */
  function RecordErrors(line: nat, fields: seq<Field>): seq<Error> {
    (if AnySpoilt(fields) then [UndoubledQuote(line)] else [])
    + if LeftOpen(fields) then [NeverClosed(line, LineFeeds(fields[|fields| - 1].text))] else []
  }

  function RowErrors(rows: seq<Row>): seq<Error> {
    if rows == [] then []
    else RowErrors(rows[..|rows| - 1]) + RecordErrors(1 + LinesOf(rows[..|rows| - 1]), rows[|rows| - 1].fields)
  }

  function DocErrors(doc: Doc): seq<Error> {
    RowErrors(doc.rows) + RecordErrors(1 + LinesOf(doc.rows), doc.last)
  }

  // ----- the document read so far

  /** The field under the cursor: unquoted so far, inside its quotes, or past the closing one. */
  datatype Cursor = InBare(text: string) | Opened(text: string) | Closed(text: string, tail: string)

  datatype Partial = Partial(rows: seq<Row>, fields: seq<Field>, cursor: Cursor)

  const NOTHING: Partial := Partial([], [], InBare(""))

  function CursorText(c: Cursor): string {
    match c
    case InBare(text) => text
    case Opened(text) => [QUOTE] + Doubled(text)
    case Closed(text, tail) => [QUOTE] + Doubled(text) + [QUOTE] + tail
  }

  function PartialText(p: Partial): string {
    RowsText(p.rows) + (Delimited(p.fields) + CursorText(p.cursor))
  }

  function CursorField(c: Cursor): Field {
    match c
    case InBare(text) => Bare(text)
    case Opened(text) => Unclosed(text)
    case Closed(text, tail) => Quoted(text, tail)
  }

  predicate GoodPartial(p: Partial) {
    && GoodRows(p.rows) && GoodFields(p.fields)
    && (p.cursor.InBare? ==> GoodBare(p.cursor.text)) && (p.cursor.Closed? ==> GoodTail(p.cursor.tail))
  }

  /** Nothing of the next row has been read. */
  predicate Fresh(p: Partial) {
    p.fields == [] && p.cursor == InBare("")
  }

  /** A lone CR was taken as a terminator only because no LF followed it. */
  predicate CrWasAlone(p: Partial, rest: string) {
    Fresh(p) && p.rows != [] && p.rows[|p.rows| - 1].end == Lone(CR) ==> !StartsWith(rest, LF)
  }

  /** One turn of the scanner on a document read so far: how many characters it takes, and the document then. */
  function Advance(rest: string, p: Partial): (m: (nat, Partial))
    requires rest != ""
    ensures 1 <= m.0 <= |rest|
  {
    var c := rest[0];
    if p.cursor.Opened? then
      if c == QUOTE then
        if StartsWith(rest[1..], QUOTE) then (2, p.(cursor := Opened(p.cursor.text + [QUOTE])))
        else (1, p.(cursor := Closed(p.cursor.text, "")))
      else (1, p.(cursor := Opened(p.cursor.text + [c])))
    else if c == QUOTE && p.cursor == InBare("") then (1, p.(cursor := Opened("")))
    else if c == COMMA then (1, p.(fields := p.fields + [CursorField(p.cursor)], cursor := InBare("")))
    else if c == CR && StartsWith(rest[1..], LF) then (2, RowClosed(p, Crlf))
    else if c == CR || c == LF then (1, RowClosed(p, Lone(c)))
    else if p.cursor.InBare? then (1, p.(cursor := InBare(p.cursor.text + [c])))
    else (1, p.(cursor := Closed(p.cursor.text, p.cursor.tail + [c])))
  }

  function RowClosed(p: Partial, end: End): Partial {
    Partial(p.rows + [Row(p.fields + [CursorField(p.cursor)], end)], [], InBare(""))
  }

  /** A quote was taken as a closing one only because no other followed it. */
  predicate AtBoundary(p: Partial, rest: string) {
    p.cursor.Closed? && p.cursor.tail == "" ==> !StartsWith(rest, QUOTE)
  }

  // ----- the scanner's variables are an image of the document read so far

  function CursorFeeds(c: Cursor): nat {
    if c.InBare? then 0 else LineFeeds(c.text)
  }

  predicate AnyQuoted(fields: seq<Field>) {
    exists k :: 0 <= k < |fields| && !fields[k].Bare?
  }

  /** More of the field has followed its closing quote, or is about to. */
  predicate Hurt(c: Cursor, rest: string) {
    c.Closed? && (c.tail != "" || !EndsField(rest))
  }

  /** What the finished rows and fields leave in the scanner's variables. */
  ghost predicate Behind(rows: seq<Row>, fields: seq<Field>, st: State) {
    st.records == RowRecords(rows) && st.fields == Values(fields) && st.recordLine == 1 + LinesOf(rows)
  }

  /** What the field under the cursor leaves in them. */
  ghost predicate Under(c: Cursor, had: bool, feeds: nat, st: State) {
    && st.field == ValueOf(CursorField(c))
    && st.inQuotes == c.Opened?
    && st.fieldWasQuoted == !c.InBare?
    && st.recordHadQuote == (had || !c.InBare?)
    && st.line == st.recordLine + feeds + CursorFeeds(c)
    && (c.Opened? ==> st.line == st.quoteOpenedLine + LineFeeds(c.text))
  }

  /** The errors so far: those of finished rows, and one for this record if it has been reported. */
  ghost predicate Reported(rows: seq<Row>, spoilt: bool, st: State) {
    && st.recordReported == spoilt
    && st.errors == RowErrors(rows) + if spoilt then [UndoubledQuote(1 + LinesOf(rows))] else []
  }

  ghost predicate Image(p: Partial, rest: string, st: State) {
    && Behind(p.rows, p.fields, st)
    && Under(p.cursor, AnyQuoted(p.fields), FieldsFeeds(p.fields), st)
    && Reported(p.rows, AnySpoilt(p.fields) || Hurt(p.cursor, rest), st)
  }

  lemma {:induction false} ValuesLength(fields: seq<Field>)
    ensures |Values(fields)| == |fields|
  {
    if fields != [] {
      ValuesLength(fields[..|fields| - 1]);
    }
  }

  /** A record is blank exactly when it is one empty unquoted field. */
  lemma {:induction false} BlankIff(fields: seq<Field>, cursor: Cursor)
    ensures var all := fields + [CursorField(cursor)];
            && Values(all) == Values(fields) + [ValueOf(CursorField(cursor))]
            && (all == [Bare("")] <==>
                  !(AnyQuoted(fields) || !cursor.InBare?) && |Values(all)| == 1 && Values(all)[0] == "")
  {
    Snoc(fields, CursorField(cursor));
    ValuesLength(fields);
    var all := fields + [CursorField(cursor)];
    if |fields| == 0 && cursor == InBare("") {
      assert all == [Bare("")];
    }
  }

  /** The scanner's next state is the image of the document read then. */
  ghost predicate StepMirrors(rest: string, p: Partial, st: State)
    requires rest != ""
  {
    var (n, st') := Step(rest, st);
    var (m, p') := Advance(rest, p);
    n == m && Image(p', rest[n..], st') && AtBoundary(p', rest[n..])
  }

  lemma {:induction false} FeedsSnoc(text: string, c: char)
    ensures LineFeeds(text + [c]) == LineFeeds(text) + if c == LF then 1 else 0
  {
    Snoc(text, c);
  }

  /** One more character inside the quotes. */
  lemma {:induction false} OpenedUnder(text: string, had: bool, feeds: nat, st: State, c: char, t: State)
    requires Under(Opened(text), had, feeds, st)
    requires t == st.(field := st.field + [c], line := if c == LF then st.line + 1 else st.line)
    ensures Under(Opened(text + [c]), had, feeds, t)
  {
    FeedsSnoc(text, c);
  }

  lemma {:induction false} OpenedImage(p: Partial, rest: string, after: string, st: State, c: char)
    requires Image(p, rest, st) && p.cursor.Opened?
    ensures Image(p.(cursor := Opened(p.cursor.text + [c])), after,
                  st.(field := st.field + [c], line := if c == LF then st.line + 1 else st.line))
  {
    var t := st.(field := st.field + [c], line := if c == LF then st.line + 1 else st.line);
    OpenedUnder(p.cursor.text, AnyQuoted(p.fields), FieldsFeeds(p.fields), st, c, t);
  }

  lemma {:induction false} MirrorDoubled(rest: string, p: Partial, st: State)
    requires rest != "" && Image(p, rest, st) && p.cursor.Opened? && rest[0] == QUOTE && StartsWith(rest[1..], QUOTE)
    ensures StepMirrors(rest, p, st)
  {
    OpenedImage(p, rest, rest[2..], st, QUOTE);
  }

  /** A closing quote: what stands behind it decides whether the record is reported. */
  lemma {:induction false} MirrorClosing(rest: string, p: Partial, st: State)
    requires rest != "" && Image(p, rest, st) && p.cursor.Opened? && rest[0] == QUOTE && !StartsWith(rest[1..], QUOTE)
    ensures StepMirrors(rest, p, st)
  {
    var closed, st' := Closed(p.cursor.text, ""), Step(rest, st).1;
    assert p.cursor.text + "" == p.cursor.text;
    assert Advance(rest, p) == (1, p.(cursor := closed));
    assert Under(closed, AnyQuoted(p.fields), FieldsFeeds(p.fields), st');
    assert Reported(p.rows, AnySpoilt(p.fields) || Hurt(closed, rest[1..]), st');
  }

  lemma {:induction false} MirrorInside(rest: string, p: Partial, st: State)
    requires rest != "" && Image(p, rest, st) && p.cursor.Opened?
    ensures StepMirrors(rest, p, st)
  {
    if rest[0] != QUOTE {
      OpenedImage(p, rest, rest[1..], st, rest[0]);
    } else if StartsWith(rest[1..], QUOTE) {
      MirrorDoubled(rest, p, st);
    } else {
      MirrorClosing(rest, p, st);
    }
  }

  lemma {:induction false} SpoiltSnoc(fields: seq<Field>, f: Field)
    ensures AnySpoilt(fields + [f]) <==> AnySpoilt(fields) || Spoilt(f)
  {
    if AnySpoilt(fields) {
      var k :| 0 <= k < |fields| && Spoilt(fields[k]);
      assert Spoilt((fields + [f])[k]);
    }
    if Spoilt(f) {
      assert Spoilt((fields + [f])[|fields|]);
    }
  }

  lemma {:induction false} MirrorComma(rest: string, p: Partial, st: State)
    requires rest != "" && Image(p, rest, st) && !p.cursor.Opened? && rest[0] == COMMA
    ensures StepMirrors(rest, p, st)
  {
    Snoc(p.fields, CursorField(p.cursor));
    QuotedSnoc(p.fields, CursorField(p.cursor));
    SpoiltSnoc(p.fields, CursorField(p.cursor));
  }

  lemma {:induction false} RowFeeds(p: Partial)
    ensures FieldsFeeds(p.fields + [CursorField(p.cursor)]) == FieldsFeeds(p.fields) + CursorFeeds(p.cursor)
  {
    Snoc(p.fields, CursorField(p.cursor));
  }

  lemma {:induction false} RowRecordSnoc(rows: seq<Row>, row: Row)
    ensures RowRecords(rows + [row]) == RowRecords(rows) + [RecordOf(1 + LinesOf(rows), row.fields)]
    ensures LinesOf(rows + [row]) == LinesOf(rows) + FieldsFeeds(row.fields) + 1
  {
    Snoc(rows, row);
  }

  lemma {:induction false} RowErrorsSnoc(rows: seq<Row>, row: Row)
    ensures RowErrors(rows + [row]) == RowErrors(rows) + RecordErrors(1 + LinesOf(rows), row.fields)
  {
    Snoc(rows, row);
  }

  lemma {:induction false} ClosedRecord(p: Partial, rest: string, st: State)
    requires Image(p, rest, st)
    ensures EndRecord(st).records == st.records + [RecordOf(st.recordLine, p.fields + [CursorField(p.cursor)])]
  {
    BlankIff(p.fields, p.cursor);
  }

  /** Where a record ends, the errors are its own and those before it. */
  lemma {:induction false} ClosedErrors(p: Partial, rest: string, st: State)
    requires Image(p, rest, st) && !p.cursor.Opened? && EndsField(rest)
    ensures st.errors == RowErrors(p.rows) + RecordErrors(1 + LinesOf(p.rows), p.fields + [CursorField(p.cursor)])
  {
    var all := p.fields + [CursorField(p.cursor)];
    SpoiltSnoc(p.fields, CursorField(p.cursor));
    assert !LeftOpen(all);
    var line := 1 + LinesOf(p.rows);
    assert RecordErrors(line, all) == (if AnySpoilt(all) then [UndoubledQuote(line)] else []) + [];
  }

  lemma {:induction false} RowImage(p: Partial, rest: string, after: string, st: State, end: End)
    requires Image(p, rest, st) && !p.cursor.Opened? && EndsField(rest)
    ensures Image(RowClosed(p, end), after, EndRecord(st).(line := st.line + 1, recordLine := st.line + 1))
  {
    ClosedRecord(p, rest, st);
    ClosedErrors(p, rest, st);
    RowFeeds(p);
    RowRecordSnoc(p.rows, Row(p.fields + [CursorField(p.cursor)], end));
    RowErrorsSnoc(p.rows, Row(p.fields + [CursorField(p.cursor)], end));
    FreshImage(RowClosed(p, end).rows, after, EndRecord(st).(line := st.line + 1, recordLine := st.line + 1));
  }

  lemma {:induction false} FreshImage(rows: seq<Row>, rest: string, st: State)
    requires st.records == RowRecords(rows) && st.errors == RowErrors(rows)
    requires st.fields == [] && st.field == "" && !st.inQuotes && !st.fieldWasQuoted
    requires !st.recordHadQuote && !st.recordReported && st.line == st.recordLine == 1 + LinesOf(rows)
    ensures Image(Partial(rows, [], InBare("")), rest, st)
  {
    assert RowErrors(rows) + [] == RowErrors(rows);
  }

  /** The terminator at the head of a text. */
  function EndAt(rest: string): End
    requires rest != ""
  {
    if rest[0] == CR && StartsWith(rest[1..], LF) then Crlf else Lone(rest[0])
  }

  lemma {:induction false} StepAtRow(rest: string, st: State)
    requires rest != "" && !st.inQuotes && (rest[0] == CR || rest[0] == LF)
    ensures Step(rest, st) == (|EndText(EndAt(rest))|, EndRecord(st).(line := st.line + 1, recordLine := st.line + 1))
  {
  }

  lemma {:induction false} AdvanceAtRow(rest: string, p: Partial)
    requires rest != "" && !p.cursor.Opened? && (rest[0] == CR || rest[0] == LF)
    ensures Advance(rest, p) == (|EndText(EndAt(rest))|, RowClosed(p, EndAt(rest)))
  {
  }

  lemma {:induction false} MirrorRow(rest: string, p: Partial, st: State)
    requires rest != "" && Image(p, rest, st) && !p.cursor.Opened? && (rest[0] == CR || rest[0] == LF)
    ensures StepMirrors(rest, p, st)
  {
    StepAtRow(rest, st);
    AdvanceAtRow(rest, p);
    RowImage(p, rest, rest[|EndText(EndAt(rest))|..], st, EndAt(rest));
  }

  lemma {:induction false} MirrorOpening(rest: string, p: Partial, st: State)
    requires rest != "" && Image(p, rest, st) && p.cursor == InBare("") && rest[0] == QUOTE
    ensures StepMirrors(rest, p, st)
  {
  }

  lemma {:induction false} MirrorTail(rest: string, p: Partial, st: State)
    requires rest != "" && Image(p, rest, st) && p.cursor.Closed? && PlainChar(rest[0])
    ensures StepMirrors(rest, p, st)
  {
    Associate(p.cursor.text, p.cursor.tail, [rest[0]]);
  }

  lemma {:induction false} MirrorChar(rest: string, p: Partial, st: State)
    requires rest != "" && Image(p, rest, st) && !p.cursor.Opened? && PlainChar(rest[0])
    ensures StepMirrors(rest, p, st)
  {
    if p.cursor.Closed? {
      MirrorTail(rest, p, st);
    } else if rest[0] == QUOTE && p.cursor == InBare("") {
      MirrorOpening(rest, p, st);
    }
  }

  lemma {:induction false} AdvanceImage(rest: string, p: Partial, st: State)
    requires rest != "" && Image(p, rest, st)
    ensures StepMirrors(rest, p, st)
  {
    if p.cursor.Opened? {
      MirrorInside(rest, p, st);
    } else if rest[0] == COMMA {
      MirrorComma(rest, p, st);
    } else if rest[0] == CR || rest[0] == LF {
      MirrorRow(rest, p, st);
    } else {
      MirrorChar(rest, p, st);
    }
  }

  lemma {:induction false} QuotedSnoc(fields: seq<Field>, f: Field)
    ensures AnyQuoted(fields + [f]) <==> AnyQuoted(fields) || !f.Bare?
  {
    if AnyQuoted(fields) {
      var k :| 0 <= k < |fields| && !fields[k].Bare?;
      assert !(fields + [f])[k].Bare?;
    }
    if !f.Bare? {
      assert !(fields + [f])[|fields|].Bare?;
    }
  }

  // ----- the document read so far spells exactly the text consumed

  lemma {:induction false} DoubledSnoc(text: string, c: char)
    ensures Doubled(text + [c]) == Doubled(text) + if c == QUOTE then [QUOTE, QUOTE] else [c]
  {
    Snoc(text, c);
  }

  /** Reading on to `p'` keeps the text spelled plus the text unread, and what was read stays well formed. */
  ghost predicate Spells(rest: string, p: Partial, n: nat, p': Partial) {
    && n <= |rest|
    && PartialText(p) + rest == PartialText(p') + rest[n..]
    && GoodPartial(p') && CrWasAlone(p', rest[n..])
  }

  lemma {:induction false} Extends(a: string, b: string, rest: string, n: nat)
    requires n <= |rest| && b == a + rest[..n]
    ensures a + rest == b + rest[n..]
  {
  }

  lemma {:induction false} CursorGrows(p: Partial, cursor: Cursor, more: string)
    requires CursorText(cursor) == CursorText(p.cursor) + more
    ensures PartialText(p.(cursor := cursor)) == PartialText(p) + more
  {
  }

  /** Only the cursor has moved, over what was read. */
  lemma {:induction false} CursorSpells(rest: string, p: Partial, n: nat, cursor: Cursor)
    requires n <= |rest| && GoodPartial(p) && CursorText(cursor) == CursorText(p.cursor) + rest[..n]
    requires cursor != InBare("") && (cursor.InBare? ==> GoodBare(cursor.text))
    requires cursor.Closed? ==> GoodTail(cursor.tail)
    ensures Spells(rest, p, n, p.(cursor := cursor))
  {
    CursorGrows(p, cursor, rest[..n]);
    Extends(PartialText(p), PartialText(p.(cursor := cursor)), rest, n);
  }

  lemma {:induction false} OpenedGrows(text: string, c: char)
    ensures CursorText(Opened(text + [c])) == CursorText(Opened(text)) + if c == QUOTE then [QUOTE, QUOTE] else [c]
  {
    DoubledSnoc(text, c);
    Associate([QUOTE], Doubled(text), if c == QUOTE then [QUOTE, QUOTE] else [c]);
  }

  lemma {:induction false} SpellInside(rest: string, p: Partial)
    requires rest != "" && GoodPartial(p) && p.cursor.Opened?
    ensures var m := Advance(rest, p); Spells(rest, p, m.0, m.1)
  {
    var m := Advance(rest, p);
    OpenedGrows(p.cursor.text, rest[0]);
    if rest[0] == QUOTE && m.0 == 2 {
      assert rest[..2] == [QUOTE, QUOTE];
    } else {
      assert rest[..1] == [rest[0]];
    }
    CursorSpells(rest, p, m.0, m.1.cursor);
  }

  lemma {:induction false} DelimitedSnoc(fields: seq<Field>, cursor: Cursor)
    requires !cursor.Opened?
    ensures Delimited(fields + [CursorField(cursor)]) == Delimited(fields) + CursorText(cursor) + [COMMA]
  {
    Snoc(fields, CursorField(cursor));
  }

  lemma {:induction false} CommaText(p: Partial)
    requires !p.cursor.Opened?
    ensures PartialText(p.(fields := p.fields + [CursorField(p.cursor)], cursor := InBare("")))
            == PartialText(p) + [COMMA]
  {
    DelimitedSnoc(p.fields, p.cursor);
    Regrouped(RowsText(p.rows), Delimited(p.fields), CursorText(p.cursor), [COMMA]);
  }

  lemma {:induction false} Regrouped(a: string, b: string, c: string, d: string)
    ensures a + (b + c + d + "") == a + (b + c) + d
  {
    assert b + c + d + "" == b + c + d;
  }

  lemma {:induction false} SpellComma(rest: string, p: Partial)
    requires rest != "" && GoodPartial(p) && !p.cursor.Opened? && rest[0] == COMMA
    ensures var m := Advance(rest, p); Spells(rest, p, m.0, m.1)
  {
    var q := p.(fields := p.fields + [CursorField(p.cursor)], cursor := InBare(""));
    assert Advance(rest, p) == (1, q);
    CommaText(p);
    assert rest[..1] == [COMMA];
    Extends(PartialText(p), PartialText(q), rest, 1);
    assert GoodFields(q.fields);
  }

  lemma {:induction false} TailSnoc(tail: string, c: char, rest: string)
    requires GoodTail(tail) && PlainChar(c) && (tail == "" ==> c != QUOTE)
    ensures GoodTail(tail + [c])
  {
  }

  lemma {:induction false} SpellTail(rest: string, p: Partial)
    requires rest != "" && GoodPartial(p) && AtBoundary(p, rest) && p.cursor.Closed? && PlainChar(rest[0])
    ensures var m := Advance(rest, p); Spells(rest, p, m.0, m.1)
  {
    TailSnoc(p.cursor.tail, rest[0], rest);
    Associate([QUOTE] + Doubled(p.cursor.text) + [QUOTE], p.cursor.tail, [rest[0]]);
    assert rest[..1] == [rest[0]];
    CursorSpells(rest, p, 1, Closed(p.cursor.text, p.cursor.tail + [rest[0]]));
  }

  lemma {:induction false} SpellChar(rest: string, p: Partial)
    requires rest != "" && GoodPartial(p) && AtBoundary(p, rest) && !p.cursor.Opened? && PlainChar(rest[0])
    ensures var m := Advance(rest, p); Spells(rest, p, m.0, m.1)
  {
    var m := Advance(rest, p);
    if p.cursor.Closed? {
      SpellTail(rest, p);
    } else {
      assert m.0 == 1 && rest[..1] == [rest[0]];
      CursorSpells(rest, p, 1, m.1.cursor);
    }
  }

  lemma {:induction false} RowsStayGood(p: Partial, rest: string, end: End)
    requires GoodPartial(p) && CrWasAlone(p, rest) && GoodEnd(end) && !p.cursor.Opened?
    requires end == Lone(LF) ==> StartsWith(rest, LF)
    ensures GoodRows(p.rows + [Row(p.fields + [CursorField(p.cursor)], end)])
  {
    var row := Row(p.fields + [CursorField(p.cursor)], end);
    if BareLf(row) {
      assert |row.fields| == |p.fields| + 1 == 1;
      assert row.fields[0] == CursorField(p.cursor);
    }
  }

  lemma {:induction false} FieldsTextSnoc(fields: seq<Field>, cursor: Cursor)
    ensures FieldsText(fields + [CursorField(cursor)]) == Delimited(fields) + CursorText(cursor)
  {
    Snoc(fields, CursorField(cursor));
  }

  lemma {:induction false} RowsTextSnoc(rows: seq<Row>, row: Row)
    ensures RowsText(rows + [row]) == RowsText(rows) + RowText(row)
  {
    Snoc(rows, row);
  }

  lemma {:induction false} FreshText(rows: seq<Row>)
    ensures PartialText(Partial(rows, [], InBare(""))) == RowsText(rows)
  {
  }

  lemma {:induction false} RowSpelled(p: Partial, end: End)
    requires !p.cursor.Opened?
    ensures PartialText(RowClosed(p, end)) == PartialText(p) + EndText(end)
  {
    var row := Row(p.fields + [CursorField(p.cursor)], end);
    FieldsTextSnoc(p.fields, p.cursor);
    RowsTextSnoc(p.rows, row);
    FreshText(p.rows + [row]);
    Associate(RowsText(p.rows), Delimited(p.fields) + CursorText(p.cursor), EndText(end));
  }

  lemma {:induction false} RowClosedText(rest: string, p: Partial, end: End)
    requires !p.cursor.Opened? && EndText(end) <= rest
    ensures PartialText(p) + rest == PartialText(RowClosed(p, end)) + rest[|EndText(end)|..]
  {
    RowSpelled(p, end);
    Extends(PartialText(p), PartialText(RowClosed(p, end)), rest, |EndText(end)|);
  }

  lemma {:induction false} RowClosedSpells(rest: string, p: Partial, end: End)
    requires GoodPartial(p) && CrWasAlone(p, rest) && !p.cursor.Opened? && GoodEnd(end) && EndText(end) <= rest
    requires end == Lone(CR) ==> !StartsWith(rest[1..], LF)
    ensures Spells(rest, p, |EndText(end)|, RowClosed(p, end))
  {
    RowsStayGood(p, rest, end);
    RowClosedText(rest, p, end);
    RowClosedAlone(rest, p, end);
  }

  lemma {:induction false} RowClosedAlone(rest: string, p: Partial, end: End)
    requires GoodEnd(end) && EndText(end) <= rest && (end == Lone(CR) ==> !StartsWith(rest[1..], LF))
    ensures CrWasAlone(RowClosed(p, end), rest[|EndText(end)|..])
  {
    var row := Row(p.fields + [CursorField(p.cursor)], end);
    Snoc(p.rows, row);
  }

  lemma {:induction false} EndAtHead(rest: string)
    requires rest != "" && (rest[0] == CR || rest[0] == LF)
    ensures GoodEnd(EndAt(rest)) && EndText(EndAt(rest)) <= rest
    ensures EndAt(rest) == Lone(CR) ==> !StartsWith(rest[1..], LF)
  {
  }

  lemma {:induction false} SpellRow(rest: string, p: Partial)
    requires rest != "" && GoodPartial(p) && CrWasAlone(p, rest) && !p.cursor.Opened?
             && (rest[0] == CR || rest[0] == LF)
    ensures var m := Advance(rest, p); Spells(rest, p, m.0, m.1)
  {
    EndAtHead(rest);
    AdvanceAtRow(rest, p);
    RowClosedSpells(rest, p, EndAt(rest));
  }

  lemma {:induction false} AdvanceText(rest: string, p: Partial)
    requires rest != "" && GoodPartial(p) && AtBoundary(p, rest) && CrWasAlone(p, rest)
    ensures var m := Advance(rest, p); Spells(rest, p, m.0, m.1)
  {
    if p.cursor.Opened? {
      SpellInside(rest, p);
    } else if rest[0] == COMMA {
      SpellComma(rest, p);
    } else if rest[0] == CR || rest[0] == LF {
      SpellRow(rest, p);
    } else {
      SpellChar(rest, p);
    }
  }

  // ----- a whole scan

  /** The document a text spells. */
  function DocOf(p: Partial): Doc {
    Doc(p.rows, if Fresh(p) then [] else p.fields + [CursorField(p.cursor)])
  }

  lemma {:induction false} NotBlank(fields: seq<Field>, cursor: Cursor)
    requires fields != [] || cursor != InBare("")
    ensures fields + [CursorField(cursor)] != [Bare("")]
  {
    assert (fields + [CursorField(cursor)])[|fields|] == CursorField(cursor);
  }

  lemma {:induction false} DocOfPartial(p: Partial)
    requires GoodPartial(p)
    ensures GoodDoc(DocOf(p)) && DocText(DocOf(p)) == PartialText(p)
  {
    if Fresh(p) {
      FreshText(p.rows);
    } else {
      var all := p.fields + [CursorField(p.cursor)];
      Snoc(p.fields, CursorField(p.cursor));
      FieldsTextSnoc(p.fields, p.cursor);
      NotBlank(p.fields, p.cursor);
    }
  }

  lemma {:induction false} FinishFresh(p: Partial, st: State)
    requires Image(p, "", st) && Fresh(p)
    ensures Finish(st).errors == RowErrors(p.rows) && Finish(st).records == RowRecords(p.rows)
  {
  }

  lemma {:induction false} FinishClosed(p: Partial, st: State)
    requires Image(p, "", st) && !p.cursor.Opened? && !Fresh(p)
    ensures var all := p.fields + [CursorField(p.cursor)];
            && Finish(st).errors == RowErrors(p.rows) + RecordErrors(1 + LinesOf(p.rows), all)
            && Finish(st).records == RowRecords(p.rows) + [RecordOf(1 + LinesOf(p.rows), all)]
  {
    ValuesLength(p.fields);
    ClosedRecord(p, "", st);
    ClosedErrors(p, "", st);
    assert Finish(st) == EndRecord(st);
  }

  /** A quote still open at the end of the file: the lines it swallowed are the line feeds inside it. */
  lemma {:induction false} FinishOpened(p: Partial, st: State)
    requires Image(p, "", st) && p.cursor.Opened?
    ensures var all := p.fields + [CursorField(p.cursor)];
            && Finish(st).errors == RowErrors(p.rows) + RecordErrors(1 + LinesOf(p.rows), all)
            && Finish(st).records == RowRecords(p.rows) + [RecordOf(1 + LinesOf(p.rows), all)]
  {
    var all := p.fields + [CursorField(p.cursor)];
    ClosedRecord(p, "", st);
    SpoiltSnoc(p.fields, CursorField(p.cursor));
    assert LeftOpen(all) && all[|all| - 1] == CursorField(p.cursor);
    Associate(RowErrors(p.rows), if AnySpoilt(all) then [UndoubledQuote(st.recordLine)] else [],
              [NeverClosed(st.recordLine, LineFeeds(p.cursor.text))]);
  }

  lemma {:induction false} FinishMeans(p: Partial, st: State)
    requires Image(p, "", st)
    ensures Finish(st).errors == DocErrors(DocOf(p)) && Finish(st).records == DocRecords(DocOf(p))
  {
    if Fresh(p) {
      FinishFresh(p, st);
      assert DocRecords(DocOf(p)) == RowRecords(p.rows) + [];
      assert DocErrors(DocOf(p)) == RowErrors(p.rows) + [];
    } else if p.cursor.Opened? {
      FinishOpened(p, st);
    } else {
      FinishClosed(p, st);
    }
  }

  /** From a document read so far: the rest completes it, and the scanner ends with its records and its errors. */
  lemma {:induction false} ScanFrom(rest: string, p: Partial, st: State) returns (doc: Doc)
    requires Image(p, rest, st) && GoodPartial(p) && AtBoundary(p, rest) && CrWasAlone(p, rest)
    ensures GoodDoc(doc) && DocText(doc) == PartialText(p) + rest
    ensures Finish(Run(rest, st)).records == DocRecords(doc) && Finish(Run(rest, st)).errors == DocErrors(doc)
    decreases |rest|
  {
    if rest == "" {
      doc := DocOf(p);
      FinishMeans(p, st);
      DocOfPartial(p);
      assert PartialText(p) + rest == PartialText(p);
    } else {
      AdvanceImage(rest, p, st);
      AdvanceText(rest, p);
      var (n, st') := Step(rest, st);
      doc := ScanFrom(rest[n..], Advance(rest, p).1, st');
    }
  }
}
