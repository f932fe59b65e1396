/**
 Model of the layout decisions of the PDF quote generator: the right-anchored
 "ZA:" box, truncation of table descriptions, the running vertical cursor with
 its page breaks and striped rows, the totals block, and the cursor trail down
 to the contact section. Each drawing call is replaced by the position it is
 given; text widths are the parameter `textWidth`.
 */
module Layout {
  import opened Base
  import Quote

  // Geometry of the generator, in jsPDF's default unit (millimetres).
  const TableTop: real := 120.0
  const FirstRowOffset: real := 10.0     // first row baseline below the table header
  const NoTableOffset: real := 20.0      // cursor below the header when no table is drawn
  const FirstRowY: real := TableTop + FirstRowOffset
  const RowStep: real := 8.0
  const BottomMargin: real := 40.0       // a row whose cursor is below pageHeight - 40 moves on
  const TopMargin: real := 30.0          // cursor on a fresh page
  const SummaryGap: real := 10.0
  const SummaryStep: real := 8.0
  const SeparatorRise: real := 5.0
  const TermsGap: real := 20.0
  const TermsBodyGap: real := 10.0
  const TermLineStep: real := 6.0
  const TermCount: nat := 5
  const ContactGap: real := 10.0
  const ContactBodyGap: real := 10.0
  const ContactEndStep: real := 8.0

  const MaxDescription: nat := 35
  const KeptPrefix: nat := 32
  const Ellipsis: string := "..."

  const BoxPadding: real := 8.0
  const BoxHeight: real := 12.0
  const BoxTop: real := 40.0
  const BoxBaseline: real := 8.0
  const RightMargin: real := 20.0

  // ----- Description truncation -----------------------------------------

  /** A description longer than 35 characters keeps its first 32 and gains "...". */
  function Truncate(s: string): (r: string)
    ensures |r| <= MaxDescription
    ensures r == s <==> |s| <= MaxDescription
    ensures |s| > MaxDescription ==> |r| == MaxDescription && r[..KeptPrefix] == s[..KeptPrefix] && r[KeptPrefix..] == Ellipsis
  {
    if |s| > MaxDescription then s[..KeptPrefix] + Ellipsis else s
  }

  lemma TruncateIdempotent(s: string)
    ensures Truncate(Truncate(s)) == Truncate(s)
  {
  }

  // ----- The "ZA:" box -----------------------------------------------------

  /** The bordered box addressed to the customer, right-aligned under the company block. */
  datatype Box = Box(x: real, y: real, width: real, height: real, text: string, textX: real, textY: real)

  /** Drawn only for a non-empty company name (an empty string is falsy in the source). */
  function CompanyBox(companyName: Option<string>, pageWidth: real, textWidth: string -> real): (r: Option<Box>)
    ensures r.Some? <==> companyName.Some? && companyName.value != ""
    ensures r.Some? ==>
      var b := r.value;
      && b.text == "ZA: " + companyName.value
      && b.width == textWidth(b.text) + BoxPadding
      && b.x + b.width == pageWidth - RightMargin
      && b.textX == b.x + BoxPadding / 2.0
      && b.textX + textWidth(b.text) == b.x + b.width - BoxPadding / 2.0
      && b.y == BoxTop && b.height == BoxHeight && b.textY == b.y + BoxBaseline
  {
    if companyName.Some? && companyName.value != "" then
      var text := "ZA: " + companyName.value;
      var boxWidth := textWidth(text) + BoxPadding;
      var boxX := pageWidth - boxWidth - RightMargin;
      Some(Box(boxX, BoxTop, boxWidth, BoxHeight, text, boxX + BoxPadding / 2.0, BoxTop + BoxBaseline))
    else None
  }

  // ----- Table rows and page breaks ----------------------------------------

  /** Where one table row went: whether a page was added before it, its
      baseline, whether it has the shaded background, and its text. */
  datatype Placement = Placement(pageBreakBefore: bool, y: real, shaded: bool, description: string)

  /** The pagination test: content reaching `extent` below cursor `y` passes
      the bottom margin. Table rows test their own baseline (extent 0). */
  predicate Overflows(y: real, extent: real, pageHeight: real) {
    y + extent > pageHeight - BottomMargin
  }

  /** The cursor before row `i`: the start cursor, or one row step below row i - 1. */
  function CursorBefore(start: real, ps: seq<Placement>, i: int): real
    requires 0 <= i <= |ps|
  {
    if i == 0 then start else ps[i - 1].y + RowStep
  }

  /** The `forEach` over the rows, from cursor `y`; `index` is the position of `rows[0]`
      in the full list. Returns the placements and the cursor after the last row. */
  function PlaceRows(rows: seq<Quote.Row>, index: nat, y: real, pageHeight: real): (res: (seq<Placement>, real))
    ensures |res.0| == |rows|
    ensures res.1 == if rows == [] then y else res.0[|rows| - 1].y + RowStep
    decreases |rows|
  {
    if rows == [] then ([], y)
    else
      var brk := Overflows(y, 0.0, pageHeight);
      var rowY := if brk then TopMargin else y;
      var p := Placement(brk, rowY, index % 2 == 0, Truncate(rows[0].description));
      var rest := PlaceRows(rows[1..], index + 1, rowY + RowStep, pageHeight);
      ([p] + rest.0, rest.1)
  }

  /** The first row of a non-empty list, and the rest placed from one row step below it. */
  lemma PlaceRowsUnfold(rows: seq<Quote.Row>, index: nat, y: real, pageHeight: real)
    requires rows != []
    ensures var res := PlaceRows(rows, index, y, pageHeight);
      var p := res.0[0];
      var rest := PlaceRows(rows[1..], index + 1, p.y + RowStep, pageHeight);
      && (p.pageBreakBefore <==> Overflows(y, 0.0, pageHeight))
      && p.y == (if p.pageBreakBefore then TopMargin else y)
      && p.shaded == (index % 2 == 0)
      && p.description == Truncate(rows[0].description)
      && res.0[1..] == rest.0
      && res.1 == rest.1
      && (forall i :: 1 <= i <= |rows| ==> CursorBefore(y, res.0, i) == CursorBefore(p.y + RowStep, rest.0, i - 1))
  {
    var res := PlaceRows(rows, index, y, pageHeight);
    var p := res.0[0];
    var rest := PlaceRows(rows[1..], index + 1, p.y + RowStep, pageHeight);
    assert res.0 == [p] + rest.0;
    forall i | 2 <= i <= |rows|
      ensures CursorBefore(y, res.0, i) == CursorBefore(p.y + RowStep, rest.0, i - 1)
    {
      assert res.0[i - 1] == rest.0[i - 2];
    }
  }

  /** Placement i carries row i's truncated description and is shaded exactly
      when its position in the full list, index + i, is even. */
  predicate InOrder(ps: seq<Placement>, rows: seq<Quote.Row>, index: nat) {
    && |ps| == |rows|
    && (forall i :: 0 <= i < |rows| ==> ps[i].description == Truncate(rows[i].description))
    && (forall i :: 0 <= i < |rows| ==> (ps[i].shaded <==> (index + i) % 2 == 0))
  }

  /** If the rows after the first are in order, so are all of them. */
  lemma InOrderStep(rows: seq<Quote.Row>, index: nat, y: real, pageHeight: real, next: real)
    requires rows != [] && next == PlaceRows(rows, index, y, pageHeight).0[0].y + RowStep
    requires InOrder(PlaceRows(rows[1..], index + 1, next, pageHeight).0, rows[1..], index + 1)
    ensures InOrder(PlaceRows(rows, index, y, pageHeight).0, rows, index)
  {
    PlaceRowsUnfold(rows, index, y, pageHeight);
    var ps := PlaceRows(rows, index, y, pageHeight).0;
    forall i | 1 <= i < |rows|
      ensures ps[i].description == Truncate(rows[i].description)
      ensures ps[i].shaded <==> (index + i) % 2 == 0
    {
      assert ps[i] == ps[1..][i - 1];
      assert rows[i] == rows[1..][i - 1];
    }
  }

  /** Every row is drawn once, in list order, with its truncated description,
      shaded exactly when its index is even. */
  lemma {:induction false} RowsInOrder(rows: seq<Quote.Row>, index: nat, y: real, pageHeight: real)
    ensures InOrder(PlaceRows(rows, index, y, pageHeight).0, rows, index)
    decreases |rows|
  {
    if rows != [] {
      var next := PlaceRows(rows, index, y, pageHeight).0[0].y + RowStep;
      RowsInOrder(rows[1..], index + 1, next, pageHeight);
      InOrderStep(rows, index, y, pageHeight, next);
    }
  }

  /** The page-break rule for placements `ps` laid out from cursor `y`, ending at `end`. */
  predicate FollowsBreakRule(ps: seq<Placement>, end: real, y: real, pageHeight: real) {
    && (forall i :: 0 <= i < |ps| ==>
          (ps[i].pageBreakBefore <==> Overflows(CursorBefore(y, ps, i), 0.0, pageHeight)))
    && (forall i :: 0 <= i < |ps| ==>
          ps[i].y == if ps[i].pageBreakBefore then TopMargin else CursorBefore(y, ps, i))
    && end == CursorBefore(y, ps, |ps|)
  }

  /** If the rows after the first follow the rule, so do all of them. */
  lemma BreakRuleStep(rows: seq<Quote.Row>, index: nat, y: real, pageHeight: real, next: real)
    requires rows != [] && next == PlaceRows(rows, index, y, pageHeight).0[0].y + RowStep
    requires var rest := PlaceRows(rows[1..], index + 1, next, pageHeight);
      FollowsBreakRule(rest.0, rest.1, next, pageHeight)
    ensures var res := PlaceRows(rows, index, y, pageHeight);
      FollowsBreakRule(res.0, res.1, y, pageHeight)
  {
    PlaceRowsUnfold(rows, index, y, pageHeight);
    var ps := PlaceRows(rows, index, y, pageHeight).0;
    forall i | 1 <= i < |rows|
      ensures ps[i].pageBreakBefore <==> Overflows(CursorBefore(y, ps, i), 0.0, pageHeight)
      ensures ps[i].y == if ps[i].pageBreakBefore then TopMargin else CursorBefore(y, ps, i)
    {
      assert ps[i] == ps[1..][i - 1];
    }
  }

  /** Before each row: a page is added exactly when the cursor is below
      pageHeight - 40, and the row then sits at the top margin; otherwise it
      sits at the cursor. The cursor after the table is one step below the last row. */
  lemma {:induction false} PageBreakRule(rows: seq<Quote.Row>, index: nat, y: real, pageHeight: real)
    ensures var res := PlaceRows(rows, index, y, pageHeight);
      FollowsBreakRule(res.0, res.1, y, pageHeight)
    decreases |rows|
  {
    if rows != [] {
      var next := PlaceRows(rows, index, y, pageHeight).0[0].y + RowStep;
      PageBreakRule(rows[1..], index + 1, next, pageHeight);
      BreakRuleStep(rows, index, y, pageHeight, next);
    }
  }

  /** If a fresh page has room for one row, every row is drawn above the bottom margin. */
  lemma RowsAboveBottomMargin(rows: seq<Quote.Row>, index: nat, y: real, pageHeight: real)
    requires TopMargin <= pageHeight - BottomMargin
    ensures var ps := PlaceRows(rows, index, y, pageHeight).0;
      forall i :: 0 <= i < |rows| ==> ps[i].y <= pageHeight - BottomMargin
  {
    PageBreakRule(rows, index, y, pageHeight);
  }

  /** Rows whose baselines all fit below the cursor stay on the current page,
      one row step apart. */
  lemma {:induction false} RowsThatFitStayOnPage(rows: seq<Quote.Row>, index: nat, y: real, pageHeight: real)
    requires y + RowStep * (|rows| - 1) as real <= pageHeight - BottomMargin
    ensures var ps := PlaceRows(rows, index, y, pageHeight).0;
      forall i :: 0 <= i < |rows| ==> !ps[i].pageBreakBefore && ps[i].y == y + RowStep * i as real
    decreases |rows|
  {
    if rows != [] {
      PlaceRowsUnfold(rows, index, y, pageHeight);
      var ps := PlaceRows(rows, index, y, pageHeight).0;
      assert !ps[0].pageBreakBefore && ps[0].y == y;
      RowsThatFitStayOnPage(rows[1..], index + 1, y + RowStep, pageHeight);
      forall i | 1 <= i < |rows|
        ensures !ps[i].pageBreakBefore && ps[i].y == y + RowStep * i as real
      {
        assert ps[i] == ps[1..][i - 1];
      }
    }
  }

  /** Between two page breaks the cursor only moves down, one row step per row. */
  lemma {:induction false} UnbrokenRun(rows: seq<Quote.Row>, index: nat, y: real, pageHeight: real, i: int, j: int)
    requires 0 <= i <= j < |rows|
    requires var ps := PlaceRows(rows, index, y, pageHeight).0;
      forall k :: i < k <= j ==> !ps[k].pageBreakBefore
    ensures var ps := PlaceRows(rows, index, y, pageHeight).0;
      ps[j].y == ps[i].y + RowStep * (j - i) as real
    decreases j - i
  {
    if i < j {
      var ps := PlaceRows(rows, index, y, pageHeight).0;
      PageBreakRule(rows, index, y, pageHeight);
      assert ps[j].y == CursorBefore(y, ps, j) == ps[j - 1].y + RowStep;
      UnbrokenRun(rows, index, y, pageHeight, i, j - 1);
    }
  }

  /** A page run starting at row i ends exactly at the first row j whose
      baseline, one row step per row below row i, would pass the bottom margin. */
  lemma PageRunLength(rows: seq<Quote.Row>, index: nat, y: real, pageHeight: real, i: int, j: int)
    requires 0 <= i < j < |rows|
    requires var ps := PlaceRows(rows, index, y, pageHeight).0;
      forall k :: i < k < j ==> !ps[k].pageBreakBefore
    ensures var ps := PlaceRows(rows, index, y, pageHeight).0;
      ps[j].pageBreakBefore <==> ps[i].y + RowStep * (j - i) as real > pageHeight - BottomMargin
  {
    var ps := PlaceRows(rows, index, y, pageHeight).0;
    PageBreakRule(rows, index, y, pageHeight);
    UnbrokenRun(rows, index, y, pageHeight, i, j - 1);
    assert CursorBefore(y, ps, j) == ps[i].y + RowStep * (j - i) as real;
  }

  // ----- Summary block and trailer -----------------------------------------

  /** The lines under the table: separator, subtotal, VAT and total baselines. */
  datatype Summary = Summary(pageBreakBefore: bool, separatorY: real, subtotalY: real, vatY: real, totalY: real,
                             totals: Quote.Totals, currency: string)

  /** The "Terms and Conditions" heading, its five lines, the contact heading and line. */
  datatype Trailer = Trailer(pageBreakBefore: bool, termsY: real, termLineYs: seq<real>, contactY: real,
                             contactTextY: real, endY: real)

  datatype Table = Table(placements: seq<Placement>, summary: Summary)

  datatype Document = Document(companyBox: Option<Box>, table: Option<Table>, trailer: Trailer)

  /** What `generatePDF` reads from its argument. */
  datatype PdfInput = PdfInput(currency: string, vatPercent: real, rows: seq<Quote.Row>,
                               companyName: Option<string>, showTable: bool)

  const SummaryExtent: real := SummaryGap + 2.0 * SummaryStep
  const TrailerExtent: real := TermsGap + TermsBodyGap + TermLineStep * TermCount as real + ContactGap + ContactBodyGap

  /** The summary lines after the last row; with `fitted` the block first moves
      to a fresh page when its last line would pass the bottom margin. */
  function SummaryBlock(cursor: real, rows: seq<Quote.Row>, vatPercent: real, currency: string,
                        pageHeight: real, fitted: bool): (s: Summary)
    ensures s.pageBreakBefore <==> fitted && Overflows(cursor, SummaryExtent, pageHeight)
    ensures s.subtotalY == (if s.pageBreakBefore then TopMargin else cursor) + SummaryGap
    ensures s.separatorY == s.subtotalY - SeparatorRise
    ensures s.vatY == s.subtotalY + SummaryStep && s.totalY == s.vatY + SummaryStep
    ensures s.totals.subtotal == Quote.SumTotals(rows)
    ensures s.totals.vatAmount == s.totals.subtotal * vatPercent / 100.0
    ensures s.totals.monthlyTotal == s.totals.subtotal + s.totals.vatAmount
    ensures s.currency == currency
  {
    var brk := fitted && Overflows(cursor, SummaryExtent, pageHeight);
    var y := (if brk then TopMargin else cursor) + SummaryGap;
    Summary(brk, y - SeparatorRise, y, y + SummaryStep, y + 2.0 * SummaryStep,
            Quote.CalculateTotals(rows, vatPercent), currency)
  }

  function TermLines(first: real, n: nat): (r: seq<real>)
    ensures |r| == n
    ensures forall k :: 0 <= k < n ==> r[k] == first + TermLineStep * k as real
  {
    if n == 0 then [] else TermLines(first, n - 1) + [first + TermLineStep * (n - 1) as real]
  }

  /** Terms heading 20 below the cursor, five term lines, then the contact
      section; with `fitted` the block first moves to a fresh page when its last
      line would pass the bottom margin. */
  function TrailerBlock(cursor: real, pageHeight: real, fitted: bool): (t: Trailer)
    ensures t.pageBreakBefore <==> fitted && Overflows(cursor, TrailerExtent, pageHeight)
    ensures t.termsY == (if t.pageBreakBefore then TopMargin else cursor) + TermsGap
    ensures |t.termLineYs| == TermCount
    ensures forall k :: 0 <= k < TermCount ==>
      t.termLineYs[k] == t.termsY + TermsBodyGap + TermLineStep * k as real
    ensures t.contactY == t.termsY + TermsBodyGap + TermLineStep * TermCount as real + ContactGap
    ensures t.contactTextY == t.contactY + ContactBodyGap
    ensures t.endY == t.contactTextY + ContactEndStep
  {
    var brk := fitted && Overflows(cursor, TrailerExtent, pageHeight);
    var termsY := (if brk then TopMargin else cursor) + TermsGap;
    var linesTop := termsY + TermsBodyGap;
    var contactY := linesTop + TermLineStep * TermCount as real + ContactGap;
    Trailer(brk, termsY, TermLines(linesTop, TermCount), contactY, contactY + ContactBodyGap,
            contactY + ContactBodyGap + ContactEndStep)
  }

  /** The table: rows placed from the first row cursor, then the summary block. */
  function LayTable(input: PdfInput, pageHeight: real, fitted: bool): (t: Table)
    ensures var ps := t.placements;
      && |ps| == |input.rows|
      && (forall i :: 0 <= i < |ps| ==> ps[i].description == Truncate(input.rows[i].description))
      && (forall i :: 0 <= i < |ps| ==> (ps[i].shaded <==> i % 2 == 0))
      && (|ps| > 0 ==> (ps[0].pageBreakBefore <==> Overflows(FirstRowY, 0.0, pageHeight)))
      && (|ps| > 0 && !ps[0].pageBreakBefore ==> ps[0].y == TableTop + FirstRowOffset)
    ensures t.summary.totals == Quote.CalculateTotals(input.rows, input.vatPercent)
    ensures !fitted ==>
      t.summary.subtotalY ==
        (if t.placements == [] then TableTop + FirstRowOffset else t.placements[|t.placements| - 1].y + RowStep) + SummaryGap
  {
    RowsInOrder(input.rows, 0, FirstRowY, pageHeight);
    PageBreakRule(input.rows, 0, FirstRowY, pageHeight);
    var (ps, rowsEnd) := PlaceRows(input.rows, 0, FirstRowY, pageHeight);
    Table(ps, SummaryBlock(rowsEnd, input.rows, input.vatPercent, input.currency, pageHeight, fitted))
  }

  /** The layout `generatePDF` produces. `fitted == false` is the generator as
      written; with `fitted == true` the summary block and the trailer each
      move to a fresh page first when their last line would pass the bottom
      margin (a block-height check, not the rows' cursor test). */
  function Generate(input: PdfInput, pageWidth: real, pageHeight: real, textWidth: string -> real,
                    fitted: bool): (d: Document)
    ensures d.companyBox == CompanyBox(input.companyName, pageWidth, textWidth)
    ensures d.table.Some? <==> input.showTable
    ensures d.table.Some? ==>
      var ps := d.table.value.placements;
      && |ps| == |input.rows|
      && (forall i :: 0 <= i < |ps| ==> ps[i].description == Truncate(input.rows[i].description))
      && (forall i :: 0 <= i < |ps| ==> (ps[i].shaded <==> i % 2 == 0))
      && (|ps| > 0 ==> (ps[0].pageBreakBefore <==> Overflows(FirstRowY, 0.0, pageHeight)))
      && (|ps| > 0 && !ps[0].pageBreakBefore ==> ps[0].y == TableTop + FirstRowOffset)
      && d.table.value.summary.totals == Quote.CalculateTotals(input.rows, input.vatPercent)
      && (!fitted ==>
            d.table.value.summary.subtotalY ==
              (if ps == [] then TableTop + FirstRowOffset else ps[|ps| - 1].y + RowStep) + SummaryGap)
    ensures !fitted ==>
      d.trailer.termsY == (if input.showTable then d.table.value.summary.totalY else TableTop + NoTableOffset) + TermsGap
    ensures d.trailer == TrailerBlock(
      if input.showTable then d.table.value.summary.totalY else TableTop + NoTableOffset, pageHeight, fitted)
  {
    var box := CompanyBox(input.companyName, pageWidth, textWidth);
    if input.showTable then
      var table := LayTable(input, pageHeight, fitted);
      Document(box, Some(table), TrailerBlock(table.summary.totalY, pageHeight, fitted))
    else
      Document(box, None, TrailerBlock(TableTop + NoTableOffset, pageHeight, fitted))
  }

  // ----- Properties of whole documents -------------------------------------

  /** The calculator calls the generator with only currency, VAT rate and rows,
      so the company name and the table switch read as absent. */
  function FromCalculatorData(currency: string, vatPercent: real, rows: seq<Quote.Row>): PdfInput {
    PdfInput(currency, vatPercent, rows, None, false)
  }

  /** From the calculator's PDF button: no "ZA:" box, no table, and the terms
      heading at the fixed position 160. */
  lemma CalculatorExportOmitsTable(currency: string, vatPercent: real, rows: seq<Quote.Row>,
                                   pageWidth: real, pageHeight: real, textWidth: string -> real)
    ensures var d := Generate(FromCalculatorData(currency, vatPercent, rows), pageWidth, pageHeight, textWidth, false);
      d.companyBox.None? && d.table.None? && d.trailer.termsY == 160.0
  {
  }

  /** The last baseline the generator writes: the contact line. */
  function LastBaseline(d: Document): real {
    d.trailer.contactTextY
  }

  /**
   As written, nothing checks the page bottom after the table rows: any quote of
   eight rows on an A4 page (297 high) puts its contact line at 300, below the
   page's edge.
   */
  lemma TrailerOverflowsPage(input: PdfInput, pageWidth: real, pageHeight: real, textWidth: string -> real)
    requires input.showTable && |input.rows| == 8 && pageHeight == 297.0
    ensures LastBaseline(Generate(input, pageWidth, pageHeight, textWidth, false)) == 300.0
    ensures LastBaseline(Generate(input, pageWidth, pageHeight, textWidth, false)) > pageHeight
  {
    EightRowsOnOnePage(input.rows, FirstRowY, pageHeight);
  }

  /** The eight rows of the example above sit at 130, 138, ..., 186 on the first page. */
  lemma EightRowsOnOnePage(rows: seq<Quote.Row>, y: real, pageHeight: real)
    requires |rows| == 8 && y == FirstRowY && pageHeight == 297.0
    ensures PlaceRows(rows, 0, y, pageHeight).0[7].y == 186.0
  {
    RowsThatFitStayOnPage(rows, 0, y, pageHeight);
  }

  /** When the summary and the trailer each move to a fresh page whenever their
      height would carry them past the bottom margin, every baseline of the table, the summary and the trailer lies above the
      bottom margin, provided a fresh page can hold the trailer. */
  lemma FittedDocumentStaysOnPage(input: PdfInput, pageWidth: real, pageHeight: real, textWidth: string -> real)
    requires TopMargin + TrailerExtent <= pageHeight - BottomMargin
    ensures var d := Generate(input, pageWidth, pageHeight, textWidth, true);
      var limit := pageHeight - BottomMargin;
      && (d.table.Some? ==>
            && (forall i :: 0 <= i < |d.table.value.placements| ==> d.table.value.placements[i].y <= limit)
            && d.table.value.summary.subtotalY <= limit
            && d.table.value.summary.vatY <= limit
            && d.table.value.summary.totalY <= limit)
      && d.trailer.termsY <= limit
      && (forall k :: 0 <= k < |d.trailer.termLineYs| ==> d.trailer.termLineYs[k] <= limit)
      && d.trailer.contactY <= limit
      && d.trailer.contactTextY <= limit
  {
    var d := Generate(input, pageWidth, pageHeight, textWidth, true);
    if input.showTable {
      FittedTableStaysOnPage(input, pageHeight);
      FittedTrailerStaysOnPage(d.table.value.summary.totalY, pageHeight);
    } else {
      FittedTrailerStaysOnPage(TableTop + NoTableOffset, pageHeight);
    }
  }

  lemma FittedTableStaysOnPage(input: PdfInput, pageHeight: real)
    requires TopMargin + TrailerExtent <= pageHeight - BottomMargin
    ensures var t := LayTable(input, pageHeight, true);
      var limit := pageHeight - BottomMargin;
      && (forall i :: 0 <= i < |t.placements| ==> t.placements[i].y <= limit)
      && t.summary.subtotalY <= limit && t.summary.vatY <= limit && t.summary.totalY <= limit
  {
    RowsAboveBottomMargin(input.rows, 0, FirstRowY, pageHeight);
    assert LayTable(input, pageHeight, true).placements == PlaceRows(input.rows, 0, FirstRowY, pageHeight).0;
  }

  lemma FittedTrailerStaysOnPage(cursor: real, pageHeight: real)
    requires TopMargin + TrailerExtent <= pageHeight - BottomMargin
    ensures var t := TrailerBlock(cursor, pageHeight, true);
      var limit := pageHeight - BottomMargin;
      && t.termsY <= limit
      && (forall k :: 0 <= k < |t.termLineYs| ==> t.termLineYs[k] <= limit)
      && t.contactY <= limit
      && t.contactTextY <= limit
  {
  }

  /** The correction changes nothing for a document that already fits. */
  lemma FittedAgreesWhenItFits(input: PdfInput, pageWidth: real, pageHeight: real, textWidth: string -> real)
    requires LastBaseline(Generate(input, pageWidth, pageHeight, textWidth, false)) <= pageHeight - BottomMargin
    ensures Generate(input, pageWidth, pageHeight, textWidth, true) == Generate(input, pageWidth, pageHeight, textWidth, false)
  {
  }
}
