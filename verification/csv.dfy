/**
 Model of the calculator's CSV export: the header line, one line per quote
 row with the description quoted and its quote characters doubled, and three
 summary lines, all joined by newlines. Number-to-text conversion is the
 parameter `show`. A small CSV reader gives the export its partner: reading the
 exported text back yields exactly the fields that were written.
 */
module Csv {
  import opened Base
  import Quote

  // ----- Quoting ----------------------------------------------------------

  /** Reverses `Escape`: every doubled quote becomes a single one. */
  function Unescape(t: string): string
    decreases |t|
  {
    if t == [] then []
    else if |t| >= 2 && t[0] == '"' && t[1] == '"' then "\"" + Unescape(t[2..])
    else [t[0]] + Unescape(t[1..])
  }

  /** Doubles every quote character, as `replace(/"/g, '""')` does. */
  function Escape(s: string): (r: string)
    ensures |r| >= |s|
    ensures Unescape(r) == s
  {
    if s == [] then []
    else
      var tail := Escape(s[1..]);
      if s[0] == '"' then
        assert ("\"\"" + tail)[2..] == tail;
        "\"\"" + tail
      else
        assert ([s[0]] + tail)[1..] == tail;
        [s[0]] + tail
  }

  /** A field as the export writes it: quoted (the description) or raw. */
  datatype Cell = Quoted(text: string) | Plain(text: string)

  /** Text that can stand unquoted in a field: no delimiter, newline or quote. */
  predicate PlainSafe(s: string) {
    forall i :: 0 <= i < |s| ==> s[i] != ',' && s[i] != '\n' && s[i] != '"'
  }

  predicate CellOk(c: Cell) {
    c.Quoted? || PlainSafe(c.text)
  }

  function EncodeCell(c: Cell): string {
    match c
    case Quoted(s) => "\"" + Escape(s) + "\""
    case Plain(s) => s
  }

  function EncodeCells(cells: seq<Cell>): (r: seq<string>)
    ensures |r| == |cells|
    ensures forall i :: 0 <= i < |cells| ==> r[i] == EncodeCell(cells[i])
  {
    if cells == [] then [] else [EncodeCell(cells[0])] + EncodeCells(cells[1..])
  }

  function CellValues(cells: seq<Cell>): (r: seq<string>)
    ensures |r| == |cells|
    ensures forall i :: 0 <= i < |cells| ==> r[i] == cells[i].text
  {
    if cells == [] then [] else [cells[0].text] + CellValues(cells[1..])
  }

  /** `Array.prototype.join` with a one-character separator. */
  function Join(parts: seq<string>, sep: char): string {
    if |parts| == 0 then ""
    else if |parts| == 1 then parts[0]
    else parts[0] + [sep] + Join(parts[1..], sep)
  }

  function EncodeRecord(cells: seq<Cell>): string {
    Join(EncodeCells(cells), ',')
  }

  function EncodeRecords(records: seq<seq<Cell>>): (r: seq<string>)
    ensures |r| == |records|
    ensures forall i :: 0 <= i < |records| ==> r[i] == EncodeRecord(records[i])
  {
    if records == [] then [] else [EncodeRecord(records[0])] + EncodeRecords(records[1..])
  }

  function RecordValues(records: seq<seq<Cell>>): (r: seq<seq<string>>)
    ensures |r| == |records|
    ensures forall i :: 0 <= i < |records| ==> r[i] == CellValues(records[i])
  {
    if records == [] then [] else [CellValues(records[0])] + RecordValues(records[1..])
  }

  // ----- The export -------------------------------------------------------


  function HeaderCells(): seq<Cell> {
    [Plain("Description"), Plain("Unit Price"), Plain("Quantity"), Plain("Total")]
  }

  function RowCells(row: Quote.Row, show: real -> string): seq<Cell> {
    [Quoted(row.description), Plain(show(row.unitPrice)), Plain(show(row.quantity)), Plain(show(row.total))]
  }

  /** A summary line: two empty fields, a label, a value. */
  function SummaryCells(caption: string, value: string): seq<Cell> {
    [Plain(""), Plain(""), Plain(caption), Plain(value)]
  }

  function VatLabel(vatPercent: real, show: real -> string): string {
    "VAT " + show(vatPercent) + "%"
  }

  function RowRecords(rows: seq<Quote.Row>, show: real -> string): (r: seq<seq<Cell>>)
    ensures |r| == |rows|
    ensures forall i :: 0 <= i < |rows| ==> r[i] == RowCells(rows[i], show)
  {
    if rows == [] then [] else [RowCells(rows[0], show)] + RowRecords(rows[1..], show)
  }

  function Records(rows: seq<Quote.Row>, vatPercent: real, show: real -> string): (r: seq<seq<Cell>>)
    ensures |r| == |rows| + 4
    ensures r[0] == HeaderCells()
    ensures forall i :: 0 <= i < |rows| ==> r[i + 1] == RowCells(rows[i], show)
    ensures var t := Quote.CalculateTotals(rows, vatPercent);
      && r[|rows| + 1] == SummaryCells("Subtotal", show(t.subtotal))
      && r[|rows| + 2] == SummaryCells(VatLabel(vatPercent, show), show(t.vatAmount))
      && r[|rows| + 3] == SummaryCells("Monthly Total", show(t.monthlyTotal))
  {
    var t := Quote.CalculateTotals(rows, vatPercent);
    var body := RowRecords(rows, show);
    var r := [HeaderCells()] + body +
      [ SummaryCells("Subtotal", show(t.subtotal)),
        SummaryCells(VatLabel(vatPercent, show), show(t.vatAmount)),
        SummaryCells("Monthly Total", show(t.monthlyTotal)) ];
    assert forall i :: 0 <= i < |rows| ==> r[i + 1] == body[i];
    r
  }

  lemma RowLine(row: Quote.Row, show: real -> string)
    ensures EncodeRecord(RowCells(row, show)) ==
      "\"" + Escape(row.description) + "\"," + show(row.unitPrice) + "," + show(row.quantity) + "," + show(row.total)
  {
    EncodeFour(Quoted(row.description), Plain(show(row.unitPrice)), Plain(show(row.quantity)), Plain(show(row.total)));
  }

  lemma SummaryLine(caption: string, value: string)
    ensures EncodeRecord(SummaryCells(caption, value)) == ",," + caption + "," + value
  {
    EncodeFour(Plain(""), Plain(""), Plain(caption), Plain(value));
  }

  lemma EncodeFour(a: Cell, b: Cell, c: Cell, d: Cell)
    ensures EncodeRecord([a, b, c, d]) == EncodeCell(a) + "," + EncodeCell(b) + "," + EncodeCell(c) + "," + EncodeCell(d)
  {
    var e := EncodeCells([a, b, c, d]);
    assert e == [EncodeCell(a), EncodeCell(b), EncodeCell(c), EncodeCell(d)];
    JoinFour(EncodeCell(a), EncodeCell(b), EncodeCell(c), EncodeCell(d), ',');
  }

  lemma JoinFour(a: string, b: string, c: string, d: string, sep: char)
    ensures Join([a, b, c, d], sep) == a + [sep] + b + [sep] + c + [sep] + d
  {
    assert [a, b, c, d][1..] == [b, c, d];
    assert [b, c, d][1..] == [c, d];
    assert [c, d][1..] == [d];
    assert Join([c, d], sep) == c + [sep] + d;
  }

  /** The lines `downloadCSV` collects before joining them. */
  function Lines(rows: seq<Quote.Row>, vatPercent: real, show: real -> string): (r: seq<string>)
    ensures |r| == |rows| + 4
    ensures r[0] == "Description" + "," + "Unit Price" + "," + "Quantity" + "," + "Total"
    ensures forall i :: 0 <= i < |rows| ==>
      r[i + 1] == "\"" + Escape(rows[i].description) + "\"," + show(rows[i].unitPrice) + "," +
                  show(rows[i].quantity) + "," + show(rows[i].total)
    ensures var t := Quote.CalculateTotals(rows, vatPercent);
      && r[|rows| + 1] == ",," + "Subtotal" + "," + show(t.subtotal)
      && r[|rows| + 2] == ",," + ("VAT " + show(vatPercent) + "%") + "," + show(t.vatAmount)
      && r[|rows| + 3] == ",," + "Monthly Total" + "," + show(t.monthlyTotal)
  {
    var recs := Records(rows, vatPercent, show);
    var r := EncodeRecords(recs);
    EncodeFour(Plain("Description"), Plain("Unit Price"), Plain("Quantity"), Plain("Total"));
    forall i | 0 <= i < |rows|
      ensures r[i + 1] == "\"" + Escape(rows[i].description) + "\"," + show(rows[i].unitPrice) + "," +
                          show(rows[i].quantity) + "," + show(rows[i].total)
    {
      RowLine(rows[i], show);
    }
    var t := Quote.CalculateTotals(rows, vatPercent);
    SummaryLine("Subtotal", show(t.subtotal));
    SummaryLine(VatLabel(vatPercent, show), show(t.vatAmount));
    SummaryLine("Monthly Total", show(t.monthlyTotal));
    r
  }

  /** The text of the exported file. */
  function Export(rows: seq<Quote.Row>, vatPercent: real, show: real -> string): (r: string)
    ensures var header := "Description" + "," + "Unit Price" + "," + "Quantity" + "," + "Total" + "\n";
      |header| <= |r| && r[..|header|] == header
  {
    var lines := Lines(rows, vatPercent, show);
    ExportHead(lines);
    Join(lines, '\n')
  }

  /** Joined with newlines, lines of which there are at least two start with the first and a newline. */
  lemma ExportHead(lines: seq<string>)
    requires |lines| >= 2
    ensures |lines[0] + "\n"| <= |Join(lines, '\n')|
    ensures Join(lines, '\n')[..|lines[0] + "\n"|] == lines[0] + "\n"
  {
    JoinHead(lines, '\n');
    PrefixOfConcat(lines[0] + "\n", Join(lines[1..], '\n'));
  }

  lemma JoinHead(parts: seq<string>, sep: char)
    requires |parts| >= 2
    ensures Join(parts, sep) == parts[0] + [sep] + Join(parts[1..], sep)
  {
  }

  lemma PrefixOfConcat(a: string, b: string)
    ensures (a + b)[..|a|] == a
  {
  }

  // ----- Reading CSV back -------------------------------------------------

  /** Reads the rest of a quoted field (after its opening quote): a doubled
      quote stands for one quote, a single quote closes the field. */
  function ReadQuoted(u: string): (res: Option<(string, string)>)
    ensures res.Some? ==> |res.value.1| < |u|
    decreases |u|
  {
    if u == [] then None
    else if u[0] == '"' then
      if |u| >= 2 && u[1] == '"' then
        match ReadQuoted(u[2..])
        case None => None
        case Some((v, rest)) => Some(("\"" + v, rest))
      else Some(([], u[1..]))
    else
      match ReadQuoted(u[1..])
      case None => None
      case Some((v, rest)) => Some(([u[0]] + v, rest))
  }

  predicate AtFieldEnd(rest: string) {
    rest == [] || rest[0] == ',' || rest[0] == '\n'
  }

  /** Reads an unquoted field up to the next delimiter or newline. */
  function ReadPlain(u: string): (res: (string, string))
    ensures res.0 + res.1 == u
    ensures AtFieldEnd(res.1)
    ensures forall i :: 0 <= i < |res.0| ==> res.0[i] != ',' && res.0[i] != '\n'
  {
    if u == [] || u[0] == ',' || u[0] == '\n' then ([], u)
    else
      var (v, rest) := ReadPlain(u[1..]);
      ([u[0]] + v, rest)
  }

  function ReadField(s: string): (res: Option<(string, string)>)
    ensures res.Some? ==> |res.value.1| <= |s|
  {
    if s != [] && s[0] == '"' then ReadQuoted(s[1..]) else Some(ReadPlain(s))
  }

  function Prepend(record: seq<string>, o: Option<seq<seq<string>>>): Option<seq<seq<string>>> {
    match o
    case None => None
    case Some(records) => Some([record] + records)
  }

  /** Reads records from `s`; `current` holds the fields already read of the
      record in progress. */
  function ParseRecords(s: string, current: seq<string>): Option<seq<seq<string>>>
    decreases |s|
  {
    match ReadField(s)
    case None => None
    case Some((v, rest)) =>
      if rest == [] then Some([current + [v]])
      else if rest[0] == ',' then ParseRecords(rest[1..], current + [v])
      else if rest[0] == '\n' then Prepend(current + [v], ParseRecords(rest[1..], []))
      else None
  }

  function Parse(text: string): Option<seq<seq<string>>> {
    ParseRecords(text, [])
  }

  // ----- Round trip -------------------------------------------------------

  lemma ReadQuotedDoubled(w: string, v: string, rest: string)
    requires ReadQuoted(w) == Some((v, rest))
    ensures ReadQuoted("\"\"" + w) == Some(("\"" + v, rest))
  {
    assert ("\"\"" + w)[2..] == w;
  }

  lemma ReadQuotedOther(c: char, w: string, v: string, rest: string)
    requires c != '"' && ReadQuoted(w) == Some((v, rest))
    ensures ReadQuoted([c] + w) == Some(([c] + v, rest))
  {
    assert ([c] + w)[1..] == w;
  }

  /** The escaped text followed by the closing quote, one character at a time. */
  lemma EscapeCons(s: string, rest: string)
    requires s != []
    ensures var w := Escape(s[1..]) + "\"" + rest;
      Escape(s) + "\"" + rest == (if s[0] == '"' then "\"\"" + w else [s[0]] + w)
  {
  }

  /** One character of an escaped text read back. */
  lemma ReadQuotedEscapedStep(s: string, rest: string)
    requires s != []
    requires ReadQuoted(Escape(s[1..]) + "\"" + rest) == Some((s[1..], rest))
    ensures ReadQuoted(Escape(s) + "\"" + rest) == Some((s, rest))
  {
    var w := Escape(s[1..]) + "\"" + rest;
    EscapeCons(s, rest);
    if s[0] == '"' {
      ReadQuotedDoubled(w, s[1..], rest);
      assert "\"" + s[1..] == s;
    } else {
      ReadQuotedOther(s[0], w, s[1..], rest);
      assert [s[0]] + s[1..] == s;
    }
  }

  lemma {:induction false} ReadQuotedEscaped(s: string, rest: string)
    requires rest == [] || rest[0] != '"'
    ensures ReadQuoted(Escape(s) + "\"" + rest) == Some((s, rest))
  {
    if s == [] {
      assert Escape(s) + "\"" + rest == "\"" + rest;
    } else {
      ReadQuotedEscaped(s[1..], rest);
      ReadQuotedEscapedStep(s, rest);
    }
  }

  lemma {:induction false} ReadPlainSafe(t: string, rest: string)
    requires forall i :: 0 <= i < |t| ==> t[i] != ',' && t[i] != '\n'
    requires AtFieldEnd(rest)
    ensures ReadPlain(t + rest) == (t, rest)
  {
    if t == [] {
      assert t + rest == rest;
    } else {
      assert (t + rest)[0] == t[0] && (t + rest)[1..] == t[1..] + rest;
      ReadPlainSafe(t[1..], rest);
      assert [t[0]] + t[1..] == t;
    }
  }

  lemma ReadFieldCell(c: Cell, rest: string)
    requires CellOk(c) && AtFieldEnd(rest)
    ensures ReadField(EncodeCell(c) + rest) == Some((c.text, rest))
  {
    match c
    case Quoted(s) =>
      var e := EncodeCell(c) + rest;
      var u := Escape(s) + "\"" + rest;
      assert e == "\"" + u;
      assert e != [] && e[0] == '"' && e[1..] == u;
      ReadQuotedEscaped(s, rest);
    case Plain(s) =>
      ReadPlainSafe(s, rest);
  }

  /** One step of the reader, once the next field is known. */
  lemma ParseStep(s: string, current: seq<string>, v: string, rest: string)
    requires ReadField(s) == Some((v, rest))
    ensures ParseRecords(s, current) ==
      if rest == [] then Some([current + [v]])
      else if rest[0] == ',' then ParseRecords(rest[1..], current + [v])
      else if rest[0] == '\n' then Prepend(current + [v], ParseRecords(rest[1..], []))
      else None
  {
  }

  /** Reading the first field of a record with more fields moves it to the record in progress. */
  lemma FirstFieldStep(cells: seq<Cell>, current: seq<string>, tail: string)
    requires |cells| > 1 && CellOk(cells[0])
    ensures ParseRecords(EncodeRecord(cells) + tail, current) ==
      ParseRecords(EncodeRecord(cells[1..]) + tail, current + [cells[0].text])
  {
    var c := cells[0];
    var more := EncodeRecord(cells[1..]) + tail;
    assert EncodeCells(cells)[1..] == EncodeCells(cells[1..]);
    assert EncodeRecord(cells) + tail == EncodeCell(c) + ("," + more);
    ReadFieldCell(c, "," + more);
    ParseStep(EncodeCell(c) + ("," + more), current, c.text, "," + more);
    assert ("," + more)[1..] == more;
  }

  /** What the reader returns once the record in progress is complete and
      `tail` (empty or starting with a newline) is left. */
  function Finish(record: seq<string>, tail: string): Option<seq<seq<string>>>
    requires tail == [] || tail[0] == '\n'
    decreases |tail|, 1
  {
    if tail == [] then Some([record]) else Prepend(record, ParseRecords(tail[1..], []))
  }

  /** Reading a record of one field. */
  lemma LastFieldStep(cells: seq<Cell>, current: seq<string>, tail: string)
    requires |cells| == 1 && CellOk(cells[0])
    requires tail == [] || tail[0] == '\n'
    ensures ParseRecords(EncodeRecord(cells) + tail, current) == Finish(current + CellValues(cells), tail)
  {
    var c := cells[0];
    assert EncodeRecord(cells) == EncodeCell(c);
    ReadFieldCell(c, tail);
    ParseStep(EncodeCell(c) + tail, current, c.text, tail);
    assert current + CellValues(cells) == current + [c.text];
  }

  lemma CellValuesCons(cells: seq<Cell>, current: seq<string>)
    requires |cells| > 0
    ensures current + [cells[0].text] + CellValues(cells[1..]) == current + CellValues(cells)
  {
    assert CellValues(cells) == [cells[0].text] + CellValues(cells[1..]);
  }

  /** Reading one encoded record followed by the end of the text or a newline. */
  lemma {:induction false} RecordRoundTrip(cells: seq<Cell>, current: seq<string>, tail: string)
    requires |cells| > 0
    requires forall i :: 0 <= i < |cells| ==> CellOk(cells[i])
    requires tail == [] || tail[0] == '\n'
    ensures ParseRecords(EncodeRecord(cells) + tail, current) == Finish(current + CellValues(cells), tail)
  {
    if |cells| == 1 {
      LastFieldStep(cells, current, tail);
    } else {
      FirstFieldStep(cells, current, tail);
      RecordRoundTrip(cells[1..], current + [cells[0].text], tail);
      CellValuesCons(cells, current);
    }
  }

  /** Reading the newline-joined encoding of non-empty records gives back their values. */
  lemma {:induction false} RecordsRoundTrip(records: seq<seq<Cell>>)
    requires |records| > 0
    requires forall k :: 0 <= k < |records| ==> |records[k]| > 0
    requires forall k, i :: 0 <= k < |records| && 0 <= i < |records[k]| ==> CellOk(records[k][i])
    ensures Parse(Join(EncodeRecords(records), '\n')) == Some(RecordValues(records))
  {
    var first := records[0];
    assert [] + CellValues(first) == CellValues(first);
    if |records| == 1 {
      RecordRoundTrip(first, [], []);
      assert EncodeRecord(first) + [] == EncodeRecord(first);
      assert Join(EncodeRecords(records), '\n') == EncodeRecord(first);
      assert RecordValues(records) == [CellValues(first)];
    } else {
      var rest := Join(EncodeRecords(records[1..]), '\n');
      assert EncodeRecords(records)[1..] == EncodeRecords(records[1..]);
      assert Join(EncodeRecords(records), '\n') == EncodeRecord(first) + ("\n" + rest);
      RecordRoundTrip(first, [], "\n" + rest);
      assert ("\n" + rest)[1..] == rest;
      RecordsRoundTrip(records[1..]);
      assert RecordValues(records) == [CellValues(first)] + RecordValues(records[1..]);
    }
  }

  lemma PlainSafeConstants()
    ensures PlainSafe("") && PlainSafe("Subtotal") && PlainSafe("Monthly Total")
    ensures PlainSafe("Description") && PlainSafe("Unit Price") && PlainSafe("Quantity") && PlainSafe("Total")
  {
  }

  lemma PlainSafeConcat(a: string, b: string)
    requires PlainSafe(a) && PlainSafe(b)
    ensures PlainSafe(a + b)
  {
    forall i | 0 <= i < |a + b|
      ensures (a + b)[i] != ',' && (a + b)[i] != '\n' && (a + b)[i] != '"'
    {
      if i >= |a| {
        assert (a + b)[i] == b[i - |a|];
      }
    }
  }

  /**
   Reading the exported file back gives |rows| + 4 records: the header, then each
   row's description exactly as entered (whatever quotes, commas or newlines it
   holds) with its three numbers, then the three summary records, each starting
   with two empty fields. Number rendering must not produce a comma, newline or
   quote, which JavaScript's number-to-string never does.
   */
  lemma ExportRoundTrip(rows: seq<Quote.Row>, vatPercent: real, show: real -> string)
    requires forall x: real :: PlainSafe(show(x))
    ensures Parse(Export(rows, vatPercent, show)).Some?
    ensures var p := Parse(Export(rows, vatPercent, show)).value;
      var t := Quote.CalculateTotals(rows, vatPercent);
      && |p| == |rows| + 4
      && p[0] == ["Description", "Unit Price", "Quantity", "Total"]
      && (forall i :: 0 <= i < |rows| ==>
            p[i + 1] == [rows[i].description, show(rows[i].unitPrice), show(rows[i].quantity), show(rows[i].total)])
      && p[|rows| + 1] == ["", "", "Subtotal", show(t.subtotal)]
      && p[|rows| + 2] == ["", "", "VAT " + show(vatPercent) + "%", show(t.vatAmount)]
      && p[|rows| + 3] == ["", "", "Monthly Total", show(t.monthlyTotal)]
  {
    ExportReadsBack(rows, vatPercent, show);
    ValuesOfRecords(rows, vatPercent, show);
  }

  lemma ExportReadsBack(rows: seq<Quote.Row>, vatPercent: real, show: real -> string)
    requires forall x: real :: PlainSafe(show(x))
    ensures Parse(Export(rows, vatPercent, show)) == Some(RecordValues(Records(rows, vatPercent, show)))
  {
    var recs := Records(rows, vatPercent, show);
    RecordsAreOk(rows, vatPercent, show);
    RecordsRoundTrip(recs);
  }

  lemma RecordsAreOk(rows: seq<Quote.Row>, vatPercent: real, show: real -> string)
    requires forall x: real :: PlainSafe(show(x))
    ensures var recs := Records(rows, vatPercent, show);
      && (forall k :: 0 <= k < |recs| ==> |recs[k]| > 0)
      && (forall k, i :: 0 <= k < |recs| && 0 <= i < |recs[k]| ==> CellOk(recs[k][i]))
  {
    var recs := Records(rows, vatPercent, show);
    PlainSafeConstants();
    PlainSafeConcat("VAT ", show(vatPercent));
    PlainSafeConcat("VAT " + show(vatPercent), "%");
    forall k | 0 <= k < |recs|
      ensures |recs[k]| == 4
      ensures forall i :: 0 <= i < 4 ==> CellOk(recs[k][i])
    {
      if 1 <= k <= |rows| {
        assert recs[k] == RowCells(rows[k - 1], show);
      }
    }
  }

  lemma ValuesOfRecords(rows: seq<Quote.Row>, vatPercent: real, show: real -> string)
    ensures var p := RecordValues(Records(rows, vatPercent, show));
      var t := Quote.CalculateTotals(rows, vatPercent);
      && |p| == |rows| + 4
      && p[0] == ["Description", "Unit Price", "Quantity", "Total"]
      && (forall i :: 0 <= i < |rows| ==>
            p[i + 1] == [rows[i].description, show(rows[i].unitPrice), show(rows[i].quantity), show(rows[i].total)])
      && p[|rows| + 1] == ["", "", "Subtotal", show(t.subtotal)]
      && p[|rows| + 2] == ["", "", "VAT " + show(vatPercent) + "%", show(t.vatAmount)]
      && p[|rows| + 3] == ["", "", "Monthly Total", show(t.monthlyTotal)]
  {
    var recs := Records(rows, vatPercent, show);
    var p := RecordValues(recs);
    var t := Quote.CalculateTotals(rows, vatPercent);
    ValuesOfFour(Plain("Description"), Plain("Unit Price"), Plain("Quantity"), Plain("Total"));
    forall i | 0 <= i < |rows|
      ensures p[i + 1] == [rows[i].description, show(rows[i].unitPrice), show(rows[i].quantity), show(rows[i].total)]
    {
      assert recs[i + 1] == RowCells(rows[i], show);
      ValuesOfFour(Quoted(rows[i].description), Plain(show(rows[i].unitPrice)), Plain(show(rows[i].quantity)), Plain(show(rows[i].total)));
    }
    ValuesOfFour(Plain(""), Plain(""), Plain("Subtotal"), Plain(show(t.subtotal)));
    ValuesOfFour(Plain(""), Plain(""), Plain(VatLabel(vatPercent, show)), Plain(show(t.vatAmount)));
    ValuesOfFour(Plain(""), Plain(""), Plain("Monthly Total"), Plain(show(t.monthlyTotal)));
  }

  lemma ValuesOfFour(a: Cell, b: Cell, c: Cell, d: Cell)
    ensures CellValues([a, b, c, d]) == [a.text, b.text, c.text, d.text]
  {
  }

  // ----- Line count -------------------------------------------------------

  predicate NoNewline(s: string) {
    forall i :: 0 <= i < |s| ==> s[i] != '\n'
  }

  /** `String.prototype.split` on a newline: never empty, one more piece than
      there are newlines. */
  function SplitLines(s: string): (r: seq<string>)
    ensures |r| >= 1
  {
    if s == [] then [""]
    else
      var t := SplitLines(s[1..]);
      if s[0] == '\n' then [""] + t else [[s[0]] + t[0]] + t[1..]
  }

  lemma {:induction false} SplitAfterPrefix(a: string, rest: string)
    requires NoNewline(a)
    ensures SplitLines(a + rest) == [a + SplitLines(rest)[0]] + SplitLines(rest)[1..]
  {
    var t := SplitLines(rest);
    if a == [] {
      assert a + rest == rest;
      assert a + t[0] == t[0];
      assert [t[0]] + t[1..] == t;
    } else {
      assert (a + rest)[0] == a[0] && (a + rest)[1..] == a[1..] + rest;
      SplitAfterPrefix(a[1..], rest);
      assert [a[0]] + (a[1..] + SplitLines(rest)[0]) == a + SplitLines(rest)[0];
    }
  }

  /** Splitting newline-free lines joined by newlines gives the lines back. */
  lemma {:induction false} SplitJoin(parts: seq<string>)
    requires |parts| > 0
    requires forall k :: 0 <= k < |parts| ==> NoNewline(parts[k])
    ensures SplitLines(Join(parts, '\n')) == parts
  {
    var p := parts[0];
    if |parts| == 1 {
      SplitAfterPrefix(p, "");
      assert p + "" == p;
    } else {
      var j := Join(parts[1..], '\n');
      assert Join(parts, '\n') == p + ("\n" + j);
      SplitAfterPrefix(p, "\n" + j);
      assert ("\n" + j)[1..] == j;
      SplitJoin(parts[1..]);
      assert p + "" == p;
    }
  }

  lemma {:induction false} EscapeNoNewline(s: string)
    requires NoNewline(s)
    ensures NoNewline(Escape(s))
  {
    if s != [] {
      EscapeNoNewline(s[1..]);
      var tail := Escape(s[1..]);
      var head: string := if s[0] == '"' then "\"\"" else [s[0]];
      assert Escape(s) == head + tail;
      forall i | 0 <= i < |Escape(s)|
        ensures Escape(s)[i] != '\n'
      {
        if i >= |head| {
          assert Escape(s)[i] == tail[i - |head|];
        }
      }
    }
  }

  lemma NoNewlineConcat(a: string, b: string)
    requires NoNewline(a) && NoNewline(b)
    ensures NoNewline(a + b)
  {
    forall i | 0 <= i < |a + b|
      ensures (a + b)[i] != '\n'
    {
      if i >= |a| {
        assert (a + b)[i] == b[i - |a|];
      }
    }
  }

  /** When no description holds a newline, the exported text has exactly
      |rows| + 4 newline-separated lines: those of `Lines`. */
  lemma ExportLineCount(rows: seq<Quote.Row>, vatPercent: real, show: real -> string)
    requires forall x: real :: NoNewline(show(x))
    requires forall i :: 0 <= i < |rows| ==> NoNewline(rows[i].description)
    ensures SplitLines(Export(rows, vatPercent, show)) == Lines(rows, vatPercent, show)
    ensures |SplitLines(Export(rows, vatPercent, show))| == |rows| + 4
  {
    var ls := Lines(rows, vatPercent, show);
    var recs := Records(rows, vatPercent, show);
    assert ls == EncodeRecords(recs);
    forall k | 0 <= k < |ls|
      ensures NoNewline(ls[k])
    {
      EncodeRecordsNoNewline(rows, vatPercent, show, k);
    }
    SplitJoin(ls);
  }

  lemma EncodeRecordsNoNewline(rows: seq<Quote.Row>, vatPercent: real, show: real -> string, k: int)
    requires forall x: real :: NoNewline(show(x))
    requires forall i :: 0 <= i < |rows| ==> NoNewline(rows[i].description)
    requires 0 <= k < |rows| + 4
    ensures NoNewline(EncodeRecord(Records(rows, vatPercent, show)[k]))
  {
    var recs := Records(rows, vatPercent, show);
    var cells := recs[k];
    if k == 0 {
      assert cells == HeaderCells();
    } else if k <= |rows| {
      assert cells == RowCells(rows[k - 1], show);
    } else {
      var t := Quote.CalculateTotals(rows, vatPercent);
      NoNewlineConcat("VAT ", show(vatPercent));
      NoNewlineConcat("VAT " + show(vatPercent), "%");
      assert cells == SummaryCells("Subtotal", show(t.subtotal))
          || cells == SummaryCells(VatLabel(vatPercent, show), show(t.vatAmount))
          || cells == SummaryCells("Monthly Total", show(t.monthlyTotal));
    }
    RecordNoNewline(cells);
  }

  lemma RecordNoNewline(cells: seq<Cell>)
    requires forall i :: 0 <= i < |cells| ==> NoNewline(cells[i].text)
    ensures NoNewline(EncodeRecord(cells))
  {
    var enc := EncodeCells(cells);
    forall i | 0 <= i < |cells|
      ensures NoNewline(enc[i])
    {
      match cells[i]
      case Quoted(d) =>
        EscapeNoNewline(d);
        NoNewlineConcat("\"", Escape(d));
        NoNewlineConcat("\"" + Escape(d), "\"");
      case Plain(_) =>
    }
    JoinNoNewline(enc, ',');
  }

  lemma {:induction false} JoinNoNewline(parts: seq<string>, sep: char)
    requires sep != '\n'
    requires forall k :: 0 <= k < |parts| ==> NoNewline(parts[k])
    ensures NoNewline(Join(parts, sep))
  {
    if |parts| > 1 {
      JoinNoNewline(parts[1..], sep);
      NoNewlineConcat(parts[0], [sep]);
      NoNewlineConcat(parts[0] + [sep], Join(parts[1..], sep));
    }
  }
}
