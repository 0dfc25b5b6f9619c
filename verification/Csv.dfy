/** The seed reader: CSV records with quoted fields, and the printer it undoes. */
module Csv {
  import opened Wrappers

  type Record = seq<string>

  datatype Error = UnterminatedQuote

  /** The four variables of the reader's loop. */
  datatype State = State(records: seq<Record>, record: Record, field: string, inQuotes: bool)

  predicate HasContent(record: Record) {
    exists i :: 0 <= i < |record| && record[i] != ""
  }

  /** The record ends here: keep it only if some field is non-empty. */
  function EndRecord(s: State): State {
    var record := s.record + [s.field];
    State(if HasContent(record) then s.records + [record] else s.records, [], "", s.inQuotes)
  }

  /** How many characters one iteration takes: two for a doubled quote inside quotes. */
  function Width(s: State, chars: string): (w: nat)
    requires chars != ""
    ensures 1 <= w <= |chars|
  {
    if s.inQuotes && chars[0] == '"' && |chars| > 1 && chars[1] == '"' then 2 else 1
  }

  /** One iteration on the character `ch`; `doubled` when it is a quote that another quote follows inside quotes. */
  function StepOn(s: State, ch: char, doubled: bool): State {
    if s.inQuotes then
      if doubled then s.(field := s.field + "\"")
      else if ch == '"' then s.(inQuotes := false)
      else s.(field := s.field + [ch])
    else if ch == '"' && s.field == "" then s.(inQuotes := true)
    else if ch == ',' then s.(record := s.record + [s.field], field := "")
    else if ch == '\r' then s
    else if ch == '\n' then EndRecord(s)
    else s.(field := s.field + [ch])
  }

  function Step(s: State, chars: string): State
    requires chars != ""
  {
    StepOn(s, chars[0], Width(s, chars) == 2)
  }

  function Consume(s: State, chars: string): State
    decreases |chars|
  {
    if chars == "" then s else Consume(Step(s, chars), chars[Width(s, chars)..])
  }

  function Finish(s: State): Result<seq<Record>, Error> {
    if s.inQuotes then Err(UnterminatedQuote)
    else if s.field != "" || s.record != [] then Ok(s.records + [s.record + [s.field]])
    else Ok(s.records)
  }

  function StripBom(input: string): string {
    if input != "" && input[0] == '\U{FEFF}' then input[1..] else input
  }

  const INITIAL: State := State([], [], "", false)

  function ParseCsv(input: string): Result<seq<Record>, Error> {
    Finish(Consume(INITIAL, StripBom(input)))
  }

  predicate DoubledAt(s: State, input: string, i: nat)
    requires i < |input|
  {
    s.inQuotes && input[i] == '"' && i + 1 < |input| && input[i + 1] == '"'
  }

  /** One iteration at offset `i` leaves the rest of the work as it was. */
  lemma ConsumeAt(s: State, input: string, i: nat)
    requires i < |input|
    ensures var next := StepOn(s, input[i], DoubledAt(s, input, i));
            var j := if DoubledAt(s, input, i) then i + 2 else i + 1;
            j <= |input| && Consume(s, input[i..]) == Consume(next, input[j..])
  {
    var rest := input[i..];
    assert rest[0] == input[i] && (|rest| > 1 ==> rest[1] == input[i + 1]);
    assert Width(s, rest) == if DoubledAt(s, input, i) then 2 else 1;
    assert rest[Width(s, rest)..] == input[i + Width(s, rest)..];
  }

  /** The reader's loop over the peekable characters. */
  method ReadCsv(raw: string) returns (r: Result<seq<Record>, Error>)
    ensures r == ParseCsv(raw)
  {
    var input := if raw != "" && raw[0] == '\U{FEFF}' then raw[1..] else raw;
    ghost var all := Consume(INITIAL, input);
    var records: seq<Record> := [];
    var record: Record := [];
    var field := "";
    var inQuotes := false;
    var i := 0;
    assert input[0..] == input;
    while i < |input|
      invariant 0 <= i <= |input|
      invariant Consume(State(records, record, field, inQuotes), input[i..]) == all
    {
      ghost var s := State(records, record, field, inQuotes);
      ConsumeAt(s, input, i);
      ghost var doubled := DoubledAt(s, input, i);
      var ch := input[i];
      i := i + 1;
      if inQuotes {
        if ch == '"' && i < |input| && input[i] == '"' {
          i := i + 1;
          field := field + "\"";
        } else if ch == '"' {
          inQuotes := false;
        } else {
          field := field + [ch];
        }
      } else if ch == '"' && field == "" {
        inQuotes := true;
      } else if ch == ',' {
        record := record + [field];
        field := "";
      } else if ch == '\r' {
      } else if ch == '\n' {
        record := record + [field];
        field := "";
        if HasContent(record) {
          records := records + [record];
        }
        record := [];
      } else {
        field := field + [ch];
      }
      assert State(records, record, field, inQuotes) == StepOn(s, ch, doubled);
    }
    if inQuotes {
      return Err(UnterminatedQuote);
    }
    if field != "" || record != [] {
      record := record + [field];
      records := records + [record];
    }
    return Ok(records);
  }

  // ---------------------------------------------------------------- the printer

  /** RFC 4180, section 2: inner quotes are doubled ... */
  function Escape(field: string): string {
    if field == "" then ""
    else (if field[0] == '"' then "\"\"" else [field[0]]) + Escape(field[1..])
  }

  /** ... and the field is enclosed in quotes. */
  function Quote(field: string): string {
    "\"" + (Escape(field) + "\"")
  }

  predicate TextData(c: char) {
    c != ',' && c != '"' && c != '\r' && c != '\n'
  }

  /** A field that may go without quotes; one that starts with a byte order mark is quoted to be safe. */
  predicate Plain(field: string) {
    && (forall i | 0 <= i < |field| :: TextData(field[i]))
    && (field != "" ==> field[0] != '\U{FEFF}')
  }

  /** A printer's choice of the fields it leaves bare, where that is possible. */
  type Style = string -> bool

  function Encode(field: string, bare: Style): string {
    if bare(field) && Plain(field) then field else Quote(field)
  }

  lemma {:induction false} EscapeIsLonger(field: string)
    ensures |Escape(field)| >= |field|
  {
    if field != "" {
      EscapeIsLonger(field[1..]);
    }
  }

  /** A field is left bare when the printer likes and it has no separator, quote, line break or leading mark. */
  lemma BareIff(field: string, bare: Style)
    ensures Encode(field, bare) == field <==>
            && bare(field)
            && (forall i | 0 <= i < |field| ::
                  field[i] != ',' && field[i] != '"' && field[i] != '\r' && field[i] != '\n')
            && (field != "" ==> field[0] != '\U{FEFF}')
  {
    EscapeIsLonger(field);
    assert |Quote(field)| == 2 + |Escape(field)|;
  }

  function PrintRecord(record: Record, bare: Style): string {
    if record == [] then ""
    else if |record| == 1 then Encode(record[0], bare)
    else Encode(record[0], bare) + ("," + PrintRecord(record[1..], bare))
  }

  function Print(records: seq<Record>, eols: seq<string>, bare: Style): string
    requires |records| == |eols|
  {
    if records == [] then ""
    else PrintRecord(records[0], bare) + (eols[0] + Print(records[1..], eols[1..], bare))
  }

  /** The records that survive: those with a non-empty field. */
  function WithContent(records: seq<Record>): seq<Record> {
    if records == [] then []
    else (if HasContent(records[0]) then [records[0]] else []) + WithContent(records[1..])
  }

  // ---------------------------------------------------------------- reading undoes printing

  /** One escaped character inside quotes is one iteration. */
  lemma ConsumeEscapedChar(s: State, field: string, suffix: string)
    requires s.inQuotes && field != ""
    ensures Consume(s, Escape(field) + suffix)
         == Consume(s.(field := s.field + [field[0]]), Escape(field[1..]) + suffix)
  {
    var chars, tail := Escape(field) + suffix, Escape(field[1..]) + suffix;
    assert chars == (if field[0] == '"' then "\"\"" else [field[0]]) + tail;
    assert Width(s, chars) == if field[0] == '"' then 2 else 1;
    assert chars[Width(s, chars)..] == tail;
    assert Step(s, chars) == s.(field := s.field + [field[0]]);
  }

  lemma ConsumeClosing(s: State, rest: string)
    requires s.inQuotes && (rest == "" || rest[0] != '"')
    ensures Consume(s, "\"" + rest) == Consume(s.(inQuotes := false), rest)
  {
    assert ("\"" + rest)[1..] == rest;
  }

  /** Inside quotes an escaped text is taken as it was, whatever follows. */
  lemma {:induction false} ConsumeInside(s: State, field: string, suffix: string)
    requires s.inQuotes
    ensures Consume(s, Escape(field) + suffix) == Consume(s.(field := s.field + field), suffix)
    decreases |field|
  {
    if field == "" {
      assert Escape(field) + suffix == suffix && s.field + field == s.field;
    } else {
      var next := s.(field := s.field + [field[0]]);
      ConsumeEscapedChar(s, field, suffix);
      ConsumeInside(next, field[1..], suffix);
      assert next.field + field[1..] == s.field + field;
    }
  }

  lemma ConsumeEscaped(s: State, field: string, rest: string)
    requires s.inQuotes && (rest == "" || rest[0] != '"')
    ensures Consume(s, Escape(field) + ("\"" + rest))
         == Consume(s.(field := s.field + field, inQuotes := false), rest)
  {
    ConsumeInside(s, field, "\"" + rest);
    ConsumeClosing(s.(field := s.field + field), rest);
  }

  lemma ConsumeQuoted(s: State, field: string, rest: string)
    requires !s.inQuotes && s.field == "" && (rest == "" || rest[0] != '"')
    ensures Consume(s, Quote(field) + rest) == Consume(s.(field := field), rest)
  {
    var chars := Quote(field) + rest;
    assert chars[1..] == Escape(field) + ("\"" + rest);
    var inside := s.(inQuotes := true);
    assert Step(s, chars) == inside && Width(s, chars) == 1;
    ConsumeEscaped(inside, field, rest);
    assert inside.field + field == field;
  }

  lemma {:induction false} ConsumeBare(s: State, text: string, rest: string)
    requires !s.inQuotes && forall i | 0 <= i < |text| :: TextData(text[i])
    ensures Consume(s, text + rest) == Consume(s.(field := s.field + text), rest)
    decreases |text|
  {
    if text == "" {
      assert text + rest == rest && s.field + text == s.field;
    } else {
      var next := s.(field := s.field + [text[0]]);
      assert (text + rest)[1..] == text[1..] + rest;
      assert Step(s, text + rest) == next;
      ConsumeBare(next, text[1..], rest);
      assert next.field + text[1..] == s.field + text;
    }
  }

  /** Bare or quoted, one field is read back. */
  lemma ConsumeEncoded(s: State, field: string, bare: Style, rest: string)
    requires !s.inQuotes && s.field == "" && (rest == "" || rest[0] != '"')
    ensures Consume(s, Encode(field, bare) + rest) == Consume(s.(field := field), rest)
  {
    if bare(field) && Plain(field) {
      ConsumeBare(s, field, rest);
      assert s.field + field == field;
    } else {
      ConsumeQuoted(s, field, rest);
    }
  }

  lemma ConsumeEol(s: State, eol: string, rest: string)
    requires !s.inQuotes && (eol == "\n" || eol == "\r\n")
    ensures Consume(s, eol + rest) == Consume(EndRecord(s), rest)
  {
    if eol == "\r\n" {
      assert (eol + rest)[1..] == "\n" + rest;
      assert ("\n" + rest)[1..] == rest;
      assert Step(s, eol + rest) == s;
      assert Step(s, "\n" + rest) == EndRecord(s);
    } else {
      assert (eol + rest)[1..] == rest;
      assert Step(s, eol + rest) == EndRecord(s);
    }
  }

  lemma ConsumeField(s: State, field: string, bare: Style, tail: string)
    requires !s.inQuotes && s.field == ""
    ensures Consume(s, Encode(field, bare) + ("," + tail)) == Consume(s.(record := s.record + [field]), tail)
  {
    ConsumeEncoded(s, field, bare, "," + tail);
    var filled := s.(field := field);
    assert ("," + tail)[1..] == tail;
    assert Step(filled, "," + tail) == s.(record := s.record + [field]);
  }

  /** The state in which the record's last field is complete and the others are stored. */
  function Filled(s: State, record: Record): State
    requires record != []
  {
    s.(record := s.record + record[..|record| - 1], field := record[|record| - 1])
  }

  lemma PrintedHead(record: Record, bare: Style, suffix: string)
    requires |record| > 1
    ensures PrintRecord(record, bare) + suffix
         == Encode(record[0], bare) + ("," + (PrintRecord(record[1..], bare) + suffix))
  {}

  lemma FilledTail(s: State, record: Record)
    requires |record| > 1
    ensures Filled(s.(record := s.record + [record[0]]), record[1..]) == Filled(s, record)
  {}

  lemma ConsumeLastField(s: State, field: string, bare: Style, eol: string, rest: string)
    requires !s.inQuotes && s.field == "" && (eol == "\n" || eol == "\r\n")
    ensures Consume(s, Encode(field, bare) + (eol + rest)) == Consume(EndRecord(Filled(s, [field])), rest)
  {
    ConsumeEncoded(s, field, bare, eol + rest);
    ConsumeEol(s.(field := field), eol, rest);
    assert Filled(s, [field]) == s.(field := field);
  }

  lemma {:induction false} ConsumeRecord(s: State, record: Record, bare: Style, eol: string, rest: string)
    requires !s.inQuotes && s.field == "" && (eol == "\n" || eol == "\r\n") && record != []
    ensures Consume(s, PrintRecord(record, bare) + (eol + rest)) == Consume(EndRecord(Filled(s, record)), rest)
    decreases |record|
  {
    if |record| == 1 {
      ConsumeLastField(s, record[0], bare, eol, rest);
      assert record == [record[0]];
    } else {
      var next := s.(record := s.record + [record[0]]);
      PrintedHead(record, bare, eol + rest);
      ConsumeField(s, record[0], bare, PrintRecord(record[1..], bare) + (eol + rest));
      ConsumeRecord(next, record[1..], bare, eol, rest);
      FilledTail(s, record);
    }
  }

  lemma WithContentOne(record: Record)
    ensures WithContent([record]) == if HasContent(record) then [record] else []
  {
    assert [record][1..] == [];
  }

  /** The end of a record with its fields in place keeps it if it has content. */
  lemma EndFilled(records: seq<Record>, record: Record)
    requires record != []
    ensures EndRecord(Filled(State(records, [], "", false), record))
         == State(records + WithContent([record]), [], "", false)
  {
    var n := |record| - 1;
    assert [] + record[..n] + [record[n]] == record;
    WithContentOne(record);
    assert records + [] == records;
  }

  /** One printed record is read back, or dropped when all its fields are empty. */
  lemma ConsumePrinted(records: seq<Record>, record: Record, bare: Style, eol: string, rest: string)
    requires eol == "\n" || eol == "\r\n"
    ensures Consume(State(records, [], "", false), PrintRecord(record, bare) + (eol + rest))
         == Consume(State(records + WithContent([record]), [], "", false), rest)
  {
    var s := State(records, [], "", false);
    if record == [] {
      WithContentOne(record);
      assert PrintRecord(record, bare) + (eol + rest) == eol + rest;
      ConsumeEol(s, eol, rest);
      assert s.record + [s.field] == [""] && !HasContent([""]);
      assert records + WithContent([record]) == records;
    } else {
      ConsumeRecord(s, record, bare, eol, rest);
      EndFilled(records, record);
    }
  }

  lemma Associate<T>(a: seq<T>, b: seq<T>, c: seq<T>)
    ensures a + b + c == a + (b + c)
  {}

  lemma WithContentHead(done: seq<Record>, records: seq<Record>)
    requires records != []
    ensures done + WithContent([records[0]]) + WithContent(records[1..]) == done + WithContent(records)
  {
    WithContentOne(records[0]);
    var head, tail := WithContent([records[0]]), WithContent(records[1..]);
    Associate(done, head, tail);
  }

  lemma {:induction false} ConsumeAll(done: seq<Record>, records: seq<Record>, eols: seq<string>, bare: Style,
                                      rest: string)
    requires |records| == |eols| && forall i | 0 <= i < |eols| :: eols[i] == "\n" || eols[i] == "\r\n"
    ensures Consume(State(done, [], "", false), Print(records, eols, bare) + rest)
         == Consume(State(done + WithContent(records), [], "", false), rest)
    decreases |records|
  {
    if records == [] {
      assert Print(records, eols, bare) + rest == rest && done + WithContent(records) == done;
    } else {
      var more := Print(records[1..], eols[1..], bare) + rest;
      assert Print(records, eols, bare) + rest == PrintRecord(records[0], bare) + (eols[0] + more);
      ConsumePrinted(done, records[0], bare, eols[0], more);
      ConsumeAll(done + WithContent([records[0]]), records[1..], eols[1..], bare, rest);
      WithContentHead(done, records);
    }
  }

  /** A last record that is not ended by a line break. */
  lemma {:induction false} ConsumeUnended(s: State, record: Record, bare: Style)
    requires !s.inQuotes && s.field == "" && record != []
    ensures Consume(s, PrintRecord(record, bare)) == Filled(s, record)
    decreases |record|
  {
    if |record| == 1 {
      assert PrintRecord(record, bare) == Encode(record[0], bare) + "";
      ConsumeEncoded(s, record[0], bare, "");
    } else {
      PrintedHead(record, bare, "");
      assert PrintRecord(record, bare) + "" == PrintRecord(record, bare);
      assert PrintRecord(record[1..], bare) + "" == PrintRecord(record[1..], bare);
      ConsumeField(s, record[0], bare, PrintRecord(record[1..], bare));
      ConsumeUnended(s.(record := s.record + [record[0]]), record[1..], bare);
      FilledTail(s, record);
    }
  }

  lemma EncodedHead(field: string, bare: Style)
    ensures Encode(field, bare) != "" ==> Encode(field, bare)[0] != '\U{FEFF}'
  {}

  lemma PrintHasNoBom(records: seq<Record>, eols: seq<string>, bare: Style)
    requires |records| == |eols| && forall i | 0 <= i < |eols| :: eols[i] == "\n" || eols[i] == "\r\n"
    ensures StripBom(Print(records, eols, bare)) == Print(records, eols, bare)
  {
    if records != [] && records[0] != [] {
      EncodedHead(records[0][0], bare);
    }
  }

  /** Any records, any choice of quoting, any mix of LF and CRLF: reading a print gives the records with content. */
  lemma ReadPrinted(records: seq<Record>, eols: seq<string>, bare: Style)
    requires |records| == |eols| && forall i | 0 <= i < |eols| :: eols[i] == "\n" || eols[i] == "\r\n"
    ensures ParseCsv(Print(records, eols, bare)) == Ok(WithContent(records))
  {
    PrintHasNoBom(records, eols, bare);
    ConsumeAll([], records, eols, bare, "");
    assert Print(records, eols, bare) + "" == Print(records, eols, bare);
    assert [] + WithContent(records) == WithContent(records);
  }

  lemma {:induction false} WithContentKeepsAll(records: seq<Record>)
    ensures |WithContent(records)| <= |records|
    ensures WithContent(records) == records <==> forall i | 0 <= i < |records| :: HasContent(records[i])
  {
    if records != [] {
      WithContentKeepsAll(records[1..]);
      if HasContent(records[0]) {
        assert WithContent(records)[1..] == WithContent(records[1..]);
      }
    }
  }

  lemma RoundTripContent(records: seq<Record>, eols: seq<string>, bare: Style)
    requires |records| == |eols| && forall i | 0 <= i < |eols| :: eols[i] == "\n" || eols[i] == "\r\n"
    ensures ParseCsv(Print(records, eols, bare)) == Ok(records)
            <==> forall i | 0 <= i < |records| :: HasContent(records[i])
  {
    ReadPrinted(records, eols, bare);
    WithContentKeepsAll(records);
  }

  lemma ContentMeans(record: Record)
    ensures HasContent(record) <==> exists j :: 0 <= j < |record| && |record[j]| > 0
  {
    if j :| 0 <= j < |record| && |record[j]| > 0 {
      assert record[j] != "";
    }
  }

  /** The round trip holds exactly for records that each have at least one non-empty field. */
  lemma RoundTripIff(records: seq<Record>, eols: seq<string>, bare: Style)
    requires |records| == |eols| && forall i | 0 <= i < |eols| :: eols[i] == "\n" || eols[i] == "\r\n"
    ensures ParseCsv(Print(records, eols, bare)) == Ok(records)
            <==> forall i | 0 <= i < |records| :: exists j :: 0 <= j < |records[i]| && |records[i][j]| > 0
  {
    RoundTripContent(records, eols, bare);
    forall i | 0 <= i < |records|
      ensures HasContent(records[i]) <==> exists j :: 0 <= j < |records[i]| && |records[i][j]| > 0
    {
      ContentMeans(records[i]);
    }
  }

  lemma PrintRecordHasNoBom(record: Record, bare: Style)
    ensures StripBom(PrintRecord(record, bare)) == PrintRecord(record, bare)
  {
    if record != [] {
      EncodedHead(record[0], bare);
    }
  }

  lemma JoinedHasNoBom(a: string, b: string)
    requires StripBom(a) == a && StripBom(b) == b
    ensures StripBom(a + b) == a + b
  {}

  lemma FinishFilled(done: seq<Record>, last: Record)
    requires last != []
    ensures Finish(Filled(State(done, [], "", false), last)) == Ok(done + if last == [""] then [] else [last])
  {
    var n := |last| - 1;
    assert [] + last[..n] == last[..n] && last[..n] + [last[n]] == last;
    assert done + [] == done;
  }

  lemma ConsumeDocument(records: seq<Record>, eols: seq<string>, last: Record, bare: Style)
    requires |records| == |eols| && forall i | 0 <= i < |eols| :: eols[i] == "\n" || eols[i] == "\r\n"
    requires last != []
    ensures Consume(INITIAL, Print(records, eols, bare) + PrintRecord(last, bare))
         == Filled(State(WithContent(records), [], "", false), last)
  {
    ConsumeAll([], records, eols, bare, PrintRecord(last, bare));
    assert [] + WithContent(records) == WithContent(records);
    ConsumeUnended(State(WithContent(records), [], "", false), last, bare);
  }

  /** Without the last line break, the last record is kept even when empty, unless it is one empty field. */
  lemma ReadUnended(records: seq<Record>, eols: seq<string>, last: Record, bare: Style)
    requires |records| == |eols| && forall i | 0 <= i < |eols| :: eols[i] == "\n" || eols[i] == "\r\n"
    requires last != []
    ensures ParseCsv(Print(records, eols, bare) + PrintRecord(last, bare))
         == Ok(WithContent(records) + if last == [""] then [] else [last])
  {
    PrintHasNoBom(records, eols, bare);
    PrintRecordHasNoBom(last, bare);
    JoinedHasNoBom(Print(records, eols, bare), PrintRecord(last, bare));
    ConsumeDocument(records, eols, last, bare);
    FinishFilled(WithContent(records), last);
  }

  /** One byte order mark in front changes nothing. */
  lemma BomIsSkipped(records: seq<Record>, eols: seq<string>, bare: Style)
    requires |records| == |eols| && forall i | 0 <= i < |eols| :: eols[i] == "\n" || eols[i] == "\r\n"
    ensures ParseCsv("\U{FEFF}" + Print(records, eols, bare)) == Ok(WithContent(records))
  {
    var marked := "\U{FEFF}" + Print(records, eols, bare);
    assert marked[1..] == Print(records, eols, bare);
    PrintHasNoBom(records, eols, bare);
    ReadPrinted(records, eols, bare);
  }

  /** A quote that is opened and never closed is an error, whatever came before. */
  lemma OpenQuoteIsError(records: seq<Record>, eols: seq<string>, bare: Style, text: string)
    requires |records| == |eols| && forall i | 0 <= i < |eols| :: eols[i] == "\n" || eols[i] == "\r\n"
    ensures ParseCsv(Print(records, eols, bare) + ("\"" + Escape(text))) == Err(UnterminatedQuote)
  {
    var open := "\"" + Escape(text);
    PrintHasNoBom(records, eols, bare);
    JoinedHasNoBom(Print(records, eols, bare), open);
    ConsumeAll([], records, eols, bare, open);
    var s := State([] + WithContent(records), [], "", false);
    assert open[1..] == Escape(text) + "";
    assert Step(s, open) == s.(inQuotes := true) && Width(s, open) == 1;
    ConsumeInside(s.(inQuotes := true), text, "");
  }

  /** Without its carriage returns. */
  function WithoutReturns(text: string): string {
    if text == "" then ""
    else if text[0] == '\r' then WithoutReturns(text[1..])
    else [text[0]] + WithoutReturns(text[1..])
  }

  /** One character of a bare field that has begun: taken, unless it is a carriage return. */
  function Loosely(s: State, c: char): State {
    if c == '\r' then s else s.(field := s.field + [c])
  }

  lemma LooseStep(s: State, text: string, rest: string)
    requires !s.inQuotes && s.field != "" && text != "" && text[0] != ',' && text[0] != '\n'
    ensures Consume(s, text + rest) == Consume(Loosely(s, text[0]), text[1..] + rest)
  {
    assert (text + rest)[1..] == text[1..] + rest;
    assert Step(s, text + rest) == Loosely(s, text[0]);
  }

  lemma LooseField(s: State, text: string)
    requires text != ""
    ensures Loosely(s, text[0]).field + WithoutReturns(text[1..]) == s.field + WithoutReturns(text)
  {
    if text[0] != '\r' {
      Associate(s.field, [text[0]], WithoutReturns(text[1..]));
    }
  }

  /** Once a bare field has begun, everything but commas and line feeds belongs to it, quotes included. */
  lemma {:induction false} ConsumeLoose(s: State, text: string, rest: string)
    requires !s.inQuotes && s.field != ""
    requires forall i | 0 <= i < |text| :: text[i] != ',' && text[i] != '\n'
    ensures Consume(s, text + rest) == Consume(s.(field := s.field + WithoutReturns(text)), rest)
    decreases |text|
  {
    if text == "" {
      assert text + rest == rest && s.field + WithoutReturns(text) == s.field;
    } else {
      LooseStep(s, text, rest);
      ConsumeLoose(Loosely(s, text[0]), text[1..], rest);
      LooseField(s, text);
    }
  }

  lemma FirstLoose(first: char, text: string)
    requires TextData(first)
    ensures Consume(INITIAL, [first] + text) == Consume(INITIAL.(field := [first]), text)
  {
    assert ([first] + text)[1..] == text;
    assert "" + [first] == [first];
    assert Step(INITIAL, [first] + text) == INITIAL.(field := [first]);
  }

  /** A document of one bare field: quotes after its first character are literal, carriage returns vanish. */
  lemma ReadLoose(first: char, text: string)
    requires first != ',' && first != '"' && first != '\r' && first != '\n' && first != '\U{FEFF}'
    requires forall i | 0 <= i < |text| :: text[i] != ',' && text[i] != '\n'
    ensures ParseCsv([first] + text) == Ok([[[first] + WithoutReturns(text)]])
  {
    FirstLoose(first, text);
    LooseDocument([first], text);
  }

  lemma LooseDocument(field: string, text: string)
    requires field != ""
    requires forall i | 0 <= i < |text| :: text[i] != ',' && text[i] != '\n'
    ensures Finish(Consume(INITIAL.(field := field), text)) == Ok([[field + WithoutReturns(text)]])
  {
    var s := INITIAL.(field := field);
    ConsumeLoose(s, text, "");
    NothingFollows(s, text);
    OneField(field + WithoutReturns(text));
  }

  lemma NothingFollows(s: State, text: string)
    ensures Consume(s, text + "") == Consume(s, text)
  {
    assert text + "" == text;
  }

  lemma OneField(field: string)
    requires field != ""
    ensures Finish(Consume(INITIAL.(field := field), "")) == Ok([[field]])
  {
    assert [] + [field] == [field] && [] + [[field]] == [[field]];
  }
}
