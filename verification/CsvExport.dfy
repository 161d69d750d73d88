/**
 The registration report as CSV (backend/src/registrations/report/export.service.ts and
 backend/src/registrations/helpers/sanitization.ts), beside a reader written from the grammar in
 section 2 of RFC 4180. The main result is that the reader recovers every exported record.
 */
module CsvExport {
  import opened Wrappers

  const BOM: char := '\U{FEFF}'
  const CRLF: string := "\r\n"
  const CSV_HEADER: seq<string> :=
    ["Name", "Email", "Contact Number", "Special Requirements", "Registration Date", "Status"]

  datatype ReportStatus = Registered | Waitlisted | Withdrawn | Removed | Cancelled

  /** One report row; `registeredAt` is the already formatted date. */
  datatype ReportRow = ReportRow(
    fullName: string,
    email: string,
    contactNumber: string,
    specialRequirements: Option<string>,
    registeredAt: string,
    status: ReportStatus
  )

  function StatusLabel(status: ReportStatus): string {
    match status
    case Registered => "Confirmed"
    case Waitlisted => "Waitlisted"
    case Withdrawn => "Withdrawn"
    case Removed => "Removed"
    case Cancelled => "Cancelled"
  }

  // ------------------------------------------------------------------ the writer

  predicate IsFormulaTrigger(c: char) {
    c in {'=', '+', '-', '@', '\t', '\r'}
  }

  predicate StartsWithTrigger(value: string) {
    value != "" && IsFormulaTrigger(value[0])
  }

  function NeutralizeCsvCell(value: string): string {
    if StartsWithTrigger(value) then "'" + value else value
  }

  predicate IsSpecial(c: char) {
    c in {'"', ',', '\r', '\n'}
  }

  predicate NeedsQuotes(cell: string) {
    exists i :: 0 <= i < |cell| && IsSpecial(cell[i])
  }

  function DoubleQuotes(cell: string): string {
    if cell == "" then ""
    else (if cell[0] == '"' then "\"\"" else [cell[0]]) + DoubleQuotes(cell[1..])
  }

  function ToCsvCell(value: string): string {
    var cell := NeutralizeCsvCell(value);
    if NeedsQuotes(cell) then "\"" + DoubleQuotes(cell) + "\"" else cell
  }

  function RowCells(row: ReportRow): seq<string> {
    [
      row.fullName,
      row.email,
      row.contactNumber,
      if row.specialRequirements.Some? then row.specialRequirements.value else "",
      row.registeredAt,
      StatusLabel(row.status)
    ]
  }

  function JoinWithCommas(cells: seq<string>): string {
    if |cells| == 0 then ""
    else if |cells| == 1 then cells[0]
    else cells[0] + "," + JoinWithCommas(cells[1..])
  }

  function Written(values: seq<string>): (cells: seq<string>)
    ensures |cells| == |values|
  {
    seq(|values|, i requires 0 <= i < |values| => ToCsvCell(values[i]))
  }

  function Neutralized(values: seq<string>): (cells: seq<string>)
    ensures |cells| == |values|
  {
    seq(|values|, i requires 0 <= i < |values| => NeutralizeCsvCell(values[i]))
  }

  function NeutralizedAll(records: seq<seq<string>>): (read: seq<seq<string>>) {
    if records == [] then [] else [Neutralized(records[0])] + NeutralizedAll(records[1..])
  }

  /** Every line is closed by CRLF, including the last. */
  function Lines(records: seq<seq<string>>): string {
    if records == [] then "" else JoinWithCommas(Written(records[0])) + CRLF + Lines(records[1..])
  }

  function Records(rows: seq<ReportRow>): (records: seq<seq<string>>)
    ensures |records| == |rows|
    ensures forall i :: 0 <= i < |rows| ==> records[i] == RowCells(rows[i])
  {
    seq(|rows|, i requires 0 <= i < |rows| => RowCells(rows[i]))
  }

  function Document(header: seq<string>, records: seq<seq<string>>): string {
    JoinWithCommas(header) + CRLF + Lines(records)
  }

  function BuildCsv(rows: seq<ReportRow>): string {
    [BOM] + Document(CSV_HEADER, Records(rows))
  }

  // ------------------------------------------------------------------ the reader (RFC 4180, section 2)

  datatype Parsed<+T> = Parsed(value: T, rest: string) | Malformed

  // A non-escaped field: the longest run of characters that are none of comma, quote, CR and LF.
  function ParsePlain(s: string): (p: Parsed<string>)
    ensures p.Parsed? && |p.rest| <= |s|
  {
    if s == "" || IsSpecial(s[0]) then Parsed("", s)
    else
      var tail := ParsePlain(s[1..]);
      Parsed([s[0]] + tail.value, tail.rest)
  }

  // An escaped field, after its opening quote: two quotes stand for one, a single quote closes the field.
  function ParseEscaped(s: string): (p: Parsed<string>)
    ensures p.Parsed? ==> |p.rest| < |s|
  {
    if s == "" then Malformed
    else if s[0] == '"' && (|s| == 1 || s[1] != '"') then Parsed("", s[1..])
    else
      match ParseEscaped(if s[0] == '"' then s[2..] else s[1..])
      case Malformed => Malformed
      case Parsed(value, rest) => Parsed([s[0]] + value, rest)
  }

  function ParseField(s: string): (p: Parsed<string>)
    ensures p.Parsed? ==> |p.rest| <= |s|
  {
    if s != "" && s[0] == '"' then ParseEscaped(s[1..]) else ParsePlain(s)
  }

  function ParseRecord(s: string): (p: Parsed<seq<string>>)
    ensures p.Parsed? ==> |p.rest| <= |s|
    decreases |s|
  {
    match ParseField(s)
    case Malformed => Malformed
    case Parsed(field, rest) =>
      if rest != "" && rest[0] == ',' then
        match ParseRecord(rest[1..])
        case Malformed => Malformed
        case Parsed(fields, after) => Parsed([field] + fields, after)
      else Parsed([field], rest)
  }

  // file = record *(CRLF record) [CRLF]
  function ParseFile(s: string): Option<seq<seq<string>>>
    decreases |s|
  {
    match ParseRecord(s)
    case Malformed => None
    case Parsed(record, rest) =>
      if rest == "" || rest == CRLF then Some([record])
      else if CRLF <= rest then
        match ParseFile(rest[2..])
        case None => None
        case Some(records) => Some([record] + records)
      else None
  }

  // ------------------------------------------------------------------ proofs

  lemma {:induction false} EscapedRoundTrip(cell: string, tail: string)
    requires tail == "" || tail[0] != '"'
    ensures ParseEscaped(DoubleQuotes(cell) + "\"" + tail) == Parsed(cell, tail)
  {
    var s := DoubleQuotes(cell) + "\"" + tail;
    if cell == "" {
      assert s == "\"" + tail;
      assert s[1..] == tail;
    } else {
      EscapedRoundTrip(cell[1..], tail);
      var inner := DoubleQuotes(cell[1..]) + "\"" + tail;
      if cell[0] == '"' {
        assert s == "\"\"" + inner;
        assert s[2..] == inner;
      } else {
        assert s == [cell[0]] + inner;
        assert s[1..] == inner;
      }
      assert [cell[0]] + cell[1..] == cell;
    }
  }

  lemma {:induction false} PlainRoundTrip(cell: string, tail: string)
    requires !NeedsQuotes(cell)
    requires tail != "" && IsSpecial(tail[0])
    ensures ParsePlain(cell + tail) == Parsed(cell, tail)
  {
    var s := cell + tail;
    if cell == "" {
      assert s == tail;
    } else {
      forall i | 0 <= i < |cell[1..]| ensures !IsSpecial(cell[1..][i]) {
        assert cell[1..][i] == cell[i + 1];
      }
      PlainRoundTrip(cell[1..], tail);
      assert s[1..] == cell[1..] + tail;
      assert !IsSpecial(cell[0]);
      assert [cell[0]] + cell[1..] == cell;
    }
  }

  lemma QuotedCellRoundTrip(cell: string, tail: string)
    requires tail != "" && tail[0] != '"'
    ensures ParseField("\"" + DoubleQuotes(cell) + "\"" + tail) == Parsed(cell, tail)
  {
    EscapedRoundTrip(cell, tail);
    var inner := DoubleQuotes(cell) + "\"" + tail;
    assert "\"" + DoubleQuotes(cell) + "\"" + tail == "\"" + inner;
    assert ("\"" + inner)[1..] == inner;
  }

  lemma PlainCellRoundTrip(cell: string, tail: string)
    requires !NeedsQuotes(cell)
    requires tail != "" && IsSpecial(tail[0]) && tail[0] != '"'
    ensures ParseField(cell + tail) == Parsed(cell, tail)
  {
    PlainRoundTrip(cell, tail);
    if cell == "" {
      assert cell + tail == tail;
    } else {
      assert (cell + tail)[0] == cell[0];
      assert !IsSpecial(cell[0]);
    }
  }

  /** One cell reads back as its neutralised value, whatever characters it holds. */
  lemma CellRoundTrip(value: string, tail: string)
    requires tail != "" && IsSpecial(tail[0]) && tail[0] != '"'
    ensures ParseField(ToCsvCell(value) + tail) == Parsed(NeutralizeCsvCell(value), tail)
  {
    var cell := NeutralizeCsvCell(value);
    if NeedsQuotes(cell) {
      QuotedCellRoundTrip(cell, tail);
    } else {
      PlainCellRoundTrip(cell, tail);
    }
  }

  // One step of the reader over a cell that a comma follows.
  lemma ContinuedRecord(value: string, s: string, later: string)
    requires ParseField(s) == Parsed(value, "," + later) && ParseRecord(later).Parsed?
    ensures ParseRecord(s) == Parsed([value] + ParseRecord(later).value, ParseRecord(later).rest)
  {
    assert ("," + later)[1..] == later;
  }

  lemma WrittenSplits(values: seq<string>, tail: string)
    requires |values| > 1
    ensures JoinWithCommas(Written(values)) + tail
         == ToCsvCell(values[0]) + ("," + (JoinWithCommas(Written(values[1..])) + tail))
    ensures Neutralized(values) == [NeutralizeCsvCell(values[0])] + Neutralized(values[1..])
  {
    var cell, rest := ToCsvCell(values[0]), JoinWithCommas(Written(values[1..]));
    assert Written(values)[1..] == Written(values[1..]);
    assert cell + "," + rest + tail == cell + ("," + (rest + tail));
  }

  lemma {:induction false} RecordRoundTrip(values: seq<string>, tail: string)
    requires values != [] && CRLF <= tail
    ensures ParseRecord(JoinWithCommas(Written(values)) + tail) == Parsed(Neutralized(values), tail)
    decreases |values|
  {
    if |values| == 1 {
      CellRoundTrip(values[0], tail);
      assert Neutralized(values) == [NeutralizeCsvCell(values[0])];
    } else {
      var later := JoinWithCommas(Written(values[1..])) + tail;
      WrittenSplits(values, tail);
      CellRoundTrip(values[0], "," + later);
      RecordRoundTrip(values[1..], tail);
      ContinuedRecord(NeutralizeCsvCell(values[0]), ToCsvCell(values[0]) + ("," + later), later);
    }
  }

  lemma {:induction false} LinesRoundTrip(records: seq<seq<string>>)
    requires records != [] && forall i :: 0 <= i < |records| ==> records[i] != []
    ensures ParseFile(Lines(records)) == Some(NeutralizedAll(records))
    decreases |records|
  {
    var first := JoinWithCommas(Written(records[0]));
    assert Lines(records) == first + (CRLF + Lines(records[1..]));
    RecordRoundTrip(records[0], CRLF + Lines(records[1..]));
    if |records| == 1 {
      assert CRLF + Lines(records[1..]) == CRLF;
      LastRecord(Neutralized(records[0]), Lines(records));
      assert NeutralizedAll(records) == [Neutralized(records[0])];
    } else {
      LinesRoundTrip(records[1..]);
      ContinuedFile(Neutralized(records[0]), Lines(records), Lines(records[1..]));
    }
  }

  lemma LastRecord(record: seq<string>, s: string)
    requires ParseRecord(s) == Parsed(record, CRLF)
    ensures ParseFile(s) == Some([record])
  {
  }

  // One step of the reader over a record that another record follows.
  lemma ContinuedFile(record: seq<string>, s: string, later: string)
    requires ParseRecord(s) == Parsed(record, CRLF + later) && later != ""
    requires ParseFile(later).Some?
    ensures ParseFile(s) == Some([record] + ParseFile(later).value)
  {
    assert (CRLF + later)[2..] == later;
    assert CRLF + later != CRLF by {
      assert |CRLF + later| > |CRLF|;
    }
  }

  lemma PlainIsUnchanged(value: string)
    requires !StartsWithTrigger(value) && !NeedsQuotes(value)
    ensures ToCsvCell(value) == value
  {
  }

  lemma HeaderCellIsPlain(k: nat)
    requires k < |CSV_HEADER|
    ensures !StartsWithTrigger(CSV_HEADER[k]) && !NeedsQuotes(CSV_HEADER[k])
  {
  }

  lemma HeaderIsPlain()
    ensures Written(CSV_HEADER) == CSV_HEADER && Neutralized(CSV_HEADER) == CSV_HEADER
  {
    var header: seq<string> :| header == CSV_HEADER;
    forall k | 0 <= k < |header|
      ensures ToCsvCell(header[k]) == header[k] && NeutralizeCsvCell(header[k]) == header[k]
    {
      HeaderCellIsPlain(k);
      PlainIsUnchanged(header[k]);
    }
    assert Written(header) == header && Neutralized(header) == header;
  }

  lemma {:induction false} NeutralizedAllAt(records: seq<seq<string>>, k: nat)
    requires k < |records|
    ensures |NeutralizedAll(records)| == |records| && NeutralizedAll(records)[k] == Neutralized(records[k])
    decreases |records|
  {
    if |records| > 1 {
      NeutralizedAllAt(records[1..], if k > 0 then k - 1 else 0);
    }
  }

  lemma DocumentRoundTrip(header: seq<string>, records: seq<seq<string>>)
    requires header != [] && Written(header) == header && Neutralized(header) == header
    requires forall i :: 0 <= i < |records| ==> records[i] != []
    ensures ParseFile(Document(header, records)).Some?
    ensures var read := ParseFile(Document(header, records)).value;
      && |read| == 1 + |records|
      && read[0] == header
      && forall i :: 0 <= i < |records| ==> read[1 + i] == Neutralized(records[i])
  {
    var all := [header] + records;
    assert all[1..] == records;
    LinesRoundTrip(all);
    forall k | 0 <= k < |all|
      ensures |NeutralizedAll(all)| == |all| && NeutralizedAll(all)[k] == Neutralized(all[k])
    {
      NeutralizedAllAt(all, k);
    }
    assert all[0] == header;
  }

  /**
   The export is decodable: after the byte order mark, the RFC 4180 reader recovers the header and one six-field
   record per row, in order, each field equal to the neutralised cell.
   */
  lemma ExportIsDecodable(rows: seq<ReportRow>)
    ensures BuildCsv(rows)[0] == BOM
    ensures ParseFile(BuildCsv(rows)[1..]).Some?
    ensures var read := ParseFile(BuildCsv(rows)[1..]).value;
      && |read| == 1 + |rows|
      && read[0] == CSV_HEADER
      && forall i :: 0 <= i < |rows| ==> read[1 + i] == Neutralized(RowCells(rows[i]))
  {
    HeaderIsPlain();
    DocumentRoundTrip(CSV_HEADER, Records(rows));
    assert BuildCsv(rows)[1..] == Document(CSV_HEADER, Records(rows));
  }

  /** The cell carries the value, behind a protecting quote exactly when a spreadsheet would take it for a formula. */
  ghost predicate Carries(cell: string, value: string) {
    cell == if value != "" && (value[0] == '=' || value[0] == '+' || value[0] == '-' || value[0] == '@'
                               || value[0] == '\t' || value[0] == '\r')
            then "'" + value else value
  }

  lemma NeutralizedCarries(value: string)
    ensures Carries(NeutralizeCsvCell(value), value)
  {
  }

  /** The word a reader of the report sees for each status. */
  ghost predicate Says(word: string, status: ReportStatus) {
    || (status == Registered && word == "Confirmed") || (status == Waitlisted && word == "Waitlisted")
    || (status == Withdrawn && word == "Withdrawn") || (status == Removed && word == "Removed")
    || (status == Cancelled && word == "Cancelled")
  }

  /** The record holds the row's values under the six headings; a missing requirement is an empty cell. */
  ghost predicate HoldsRow(record: seq<string>, row: ReportRow) {
    && |record| == 6
    && Carries(record[0], row.fullName) && Carries(record[1], row.email) && Carries(record[2], row.contactNumber)
    && (row.specialRequirements.None? ==> record[3] == "")
    && (row.specialRequirements.Some? ==> Carries(record[3], row.specialRequirements.value))
    && Carries(record[4], row.registeredAt) && Says(record[5], row.status)
  }

  lemma RecordHoldsRow(row: ReportRow)
    ensures HoldsRow(Neutralized(RowCells(row)), row)
  {
    var cells := RowCells(row);
    assert forall k :: 0 <= k < |cells| ==> Neutralized(cells)[k] == NeutralizeCsvCell(cells[k]);
    assert !StartsWithTrigger(StatusLabel(row.status));
  }

  /** Read back, the document has the six headings and, row by row, each value under its own heading. */
  lemma ValuesStandUnderTheirHeadings(rows: seq<ReportRow>)
    ensures ParseFile(BuildCsv(rows)[1..]).Some?
    ensures var read := ParseFile(BuildCsv(rows)[1..]).value;
      && |read| == 1 + |rows|
      && read[0] == ["Name", "Email", "Contact Number", "Special Requirements", "Registration Date", "Status"]
      && forall i :: 0 <= i < |rows| ==> HoldsRow(read[1 + i], rows[i])
  {
    ExportIsDecodable(rows);
    forall i | 0 <= i < |rows| ensures HoldsRow(ParseFile(BuildCsv(rows)[1..]).value[1 + i], rows[i]) {
      RecordHoldsRow(rows[i]);
    }
  }

  /** A cell is put between quotes only when it holds a quote, a comma or a line break. */
  lemma OnlySpecialCellsAreQuoted(value: string, cell: string)
    requires Carries(cell, value)
    ensures ToCsvCell(value) == cell <==> '"' !in cell && ',' !in cell && '\r' !in cell && '\n' !in cell
    ensures ToCsvCell(value) != cell ==> |ToCsvCell(value)| >= 2 && ToCsvCell(value)[0] == '"'
  {
    NeutralizedCarries(value);
    DoublingKeeps(cell);
    assert NeedsQuotes(cell) ==> |ToCsvCell(value)| > |cell|;
    assert '"' in cell || ',' in cell || '\r' in cell || '\n' in cell ==> NeedsQuotes(cell);
  }

  lemma {:induction false} DoublingKeeps(cell: string)
    ensures |DoubleQuotes(cell)| >= |cell|
  {
    if cell != "" {
      DoublingKeeps(cell[1..]);
    }
  }

  /** No cell a reader recovers from a data row starts with a character a spreadsheet takes for a formula. */
  lemma NoRecoveredCellIsAFormula(row: ReportRow, k: nat)
    requires k < 6
    ensures |Neutralized(RowCells(row))| == 6
    ensures !StartsWithTrigger(Neutralized(RowCells(row))[k])
  {
  }

  /**
   What neutralising loses, exactly: two different values export alike only when one is the other with the protecting
   quote already typed before a trigger.
   */
  lemma NeutralizingMergesExactly(a: string, b: string)
    ensures NeutralizeCsvCell(a) == NeutralizeCsvCell(b)
       <==> a == b || (StartsWithTrigger(b) && a == "'" + b) || (StartsWithTrigger(a) && b == "'" + a)
  {
    if StartsWithTrigger(a) && StartsWithTrigger(b) && "'" + a == "'" + b {
      assert a == ("'" + a)[1..] == ("'" + b)[1..] == b;
    }
  }
}
