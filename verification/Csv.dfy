/**
 The CSV scanner (packages/vault/src/import/csv.ts): a character automaton over flags and buffers, and the
 grammar it is meant to recognise, RFC 4180 section 2 with its stated leniencies. Text is a sequence of
 characters standing for UTF-16 code units.
 */
module Csv {

  const QUOTE: char := '"'
  const COMMA: char := ','
  const CR: char := '\r'
  const LF: char := '\n'

  // ----- the scanner's results

  datatype Record = Record(line: nat, fields: seq<string>, blank: bool)

  /** Both errors name the line the damaged record begins on. */
  datatype Error = UndoubledQuote(row: nat) | NeverClosed(row: nat, swallowed: int)

  /** Every variable of the scanning loop. */
  datatype State = State(
    records: seq<Record>,
    errors: seq<Error>,
    fields: seq<string>,
    field: string,
    inQuotes: bool,
    fieldWasQuoted: bool,
    recordHadQuote: bool,
    recordReported: bool,
    line: nat,
    recordLine: nat,
    quoteOpenedLine: nat)

  const START: State := State([], [], [], "", false, false, false, false, 1, 1, 1)

  predicate StartsWith(text: string, c: char) {
    |text| > 0 && text[0] == c
  }

  /** The text may end a field here: end of file, delimiter or row terminator. */
  predicate EndsField(rest: string) {
    rest == "" || rest[0] == COMMA || rest[0] == CR || rest[0] == LF
  }

  function EndField(st: State): State {
    st.(fields := st.fields + [st.field], field := "", fieldWasQuoted := false)
  }

  function EndRecord(st: State): State {
    var fields := st.fields + [st.field];
    st.(records := st.records + [Record(st.recordLine, fields, !st.recordHadQuote && |fields| == 1 && fields[0] == "")],
        fields := [], field := "", fieldWasQuoted := false, recordHadQuote := false, recordReported := false)
  }

  /** One turn of the loop on the text still unread: how many characters it takes, and the next state. */
  function Step(rest: string, st: State): (r: (nat, State))
    requires rest != ""
    ensures 1 <= r.0 <= |rest|
  {
    var c := rest[0];
    if st.inQuotes then
      if c == QUOTE then
        if StartsWith(rest[1..], QUOTE) then (2, st.(field := st.field + [QUOTE]))
        else if EndsField(rest[1..]) || st.recordReported then (1, st.(inQuotes := false))
        else (1, st.(inQuotes := false, recordReported := true, errors := st.errors + [UndoubledQuote(st.recordLine)]))
      else (1, st.(field := st.field + [c], line := if c == LF then st.line + 1 else st.line))
    else if c == QUOTE && st.field == "" && !st.fieldWasQuoted then
      (1, st.(inQuotes := true, fieldWasQuoted := true, recordHadQuote := true, quoteOpenedLine := st.line))
    else if c == COMMA then (1, EndField(st))
    else if c == CR || c == LF then
      (if c == CR && StartsWith(rest[1..], LF) then 2 else 1,
       EndRecord(st).(line := st.line + 1, recordLine := st.line + 1))
    else (1, st.(field := st.field + [c]))
  }

  function Run(rest: string, st: State): State
    decreases |rest|
  {
    if rest == "" then st else
    var (n, st') := Step(rest, st);
    Run(rest[n..], st')
  }

  /** Scanning on from position `i` in state `st` ends where the whole scan ends. */
  ghost predicate OnTrack(text: string, i: int, st: State) {
    0 <= i <= |text| && Run(text[i..], st) == Run(text, START)
  }

  lemma {:induction false} StepStaysOnTrack(text: string, i: nat, st: State, j: int, st': State)
    requires OnTrack(text, i, st) && i < |text| && (j - i, st') == Step(text[i..], st)
    ensures OnTrack(text, j, st') && i < j
  {
    assert text[i..][j - i..] == text[j..];
  }

  /** What happens once the text is exhausted. */
  function Finish(st: State): State {
    var unclosed := NeverClosed(st.recordLine, st.line - st.quoteOpenedLine);
    var st1 := if st.inQuotes then st.(errors := st.errors + [unclosed]) else st;
    if st1.field != "" || |st1.fields| > 0 || st1.fieldWasQuoted || st1.inQuotes then EndRecord(st1) else st1
  }

  function Scanned(text: string): State {
    Finish(Run(text, START))
  }

  /** The scanning loop as written: buffers and flags updated one character at a time. */
  class Scanner {
    var records: seq<Record>
    var errors: seq<Error>
    var fields: seq<string>
    var field: string
    var inQuotes: bool
    var fieldWasQuoted: bool
    var recordHadQuote: bool
    var recordReported: bool
    var line: nat
    var recordLine: nat
    var quoteOpenedLine: nat

    function Now(): State
      reads this
    {
      State(records, errors, fields, field, inQuotes, fieldWasQuoted, recordHadQuote, recordReported, line, recordLine,
          quoteOpenedLine)
    }

    constructor ()
      ensures Now() == START
    {
      records, errors, fields, field := [], [], [], "";
      inQuotes, fieldWasQuoted, recordHadQuote, recordReported := false, false, false, false;
      line, recordLine, quoteOpenedLine := 1, 1, 1;
    }

    method PushField()
      modifies this
      ensures Now() == EndField(old(Now()))
    {
      fields := fields + [field];
      field, fieldWasQuoted := "", false;
    }

    method PushRecord()
      modifies this
      ensures Now() == EndRecord(old(Now()))
    {
      PushField();
      records := records + [Record(recordLine, fields, !recordHadQuote && |fields| == 1 && fields[0] == "")];
      fields, recordHadQuote, recordReported := [], false, false;
    }

    method InsideQuotes(text: string, at: nat) returns (i: nat)
      requires at < |text| && inQuotes
      modifies this
      ensures (i - at, Now()) == Step(text[at..], old(Now()))
    {
      i := at;
      assert text[at..][1..] == text[at + 1..];
      if text[i] == QUOTE {
        if i + 1 < |text| && text[i + 1] == QUOTE {
          field := field + [QUOTE];
          i := i + 2;
          return;
        }
        inQuotes := false;
        i := i + 1;
        var endsField := i == |text| || text[i] == COMMA || text[i] == CR || text[i] == LF;
        if !endsField && !recordReported {
          recordReported := true;
          errors := errors + [UndoubledQuote(recordLine)];
        }
        return;
      }
      if text[i] == LF {
        line := line + 1;
      }
      field := field + [text[i]];
      i := i + 1;
    }

    method OutsideQuotes(text: string, at: nat) returns (i: nat)
      requires at < |text| && !inQuotes
      modifies this
      ensures (i - at, Now()) == Step(text[at..], old(Now()))
    {
      i := at;
      assert text[at..][1..] == text[at + 1..];
      if text[i] == QUOTE && field == "" && !fieldWasQuoted {
        inQuotes, fieldWasQuoted, recordHadQuote := true, true, true;
        quoteOpenedLine := line;
        i := i + 1;
      } else if text[i] == COMMA {
        PushField();
        i := i + 1;
      } else if text[i] == CR || text[i] == LF {
        i := i + if text[i] == CR && i + 1 < |text| && text[i + 1] == LF then 2 else 1;
        line := line + 1;
        PushRecord();
        recordLine := line;
      } else {
        field := field + [text[i]];
        i := i + 1;
      }
    }

    method Close()
      modifies this
      ensures Now() == Finish(old(Now()))
    {
      if inQuotes {
        errors := errors + [NeverClosed(recordLine, line - quoteOpenedLine)];
      }
      if field != "" || |fields| > 0 || fieldWasQuoted || inQuotes {
        PushRecord();
      }
    }
  }

  method Scan(text: string) returns (records: seq<Record>, errors: seq<Error>)
    ensures records == Scanned(text).records && errors == Scanned(text).errors
  {
    var scanner := new Scanner();
    var i := 0;
    assert text[0..] == text;
    while i < |text|
      invariant OnTrack(text, i, scanner.Now())
      decreases |text| - i
    {
      ghost var before, st := i, scanner.Now();
      if scanner.inQuotes {
        i := scanner.InsideQuotes(text, i);
      } else {
        i := scanner.OutsideQuotes(text, i);
      }
      StepStaysOnTrack(text, before, st, i, scanner.Now());
    }
    assert text[i..] == "";
    scanner.Close();
    records, errors := scanner.records, scanner.errors;
  }
}
