# Contract price calculator — Dafny model

This project models the logic of a browser-based quote calculator ("Kalkulator ponude").
The user edits line items (description, unit price, quantity). The calculator keeps each
row's total and computes a subtotal, VAT and a grand ("monthly") total. It exports the quote
as CSV and as a PDF document.

The model has four modules:

- `Base` (`base.dfy`): the `Option` datatype.
- `Quote` (`quote.dfy`): the `CalculatorRow` record as `Row`, and the row store operations as
  pure functions from the old row list to the new one:
  - `AddRow`, `UpdateRow` (through `ApplyEdit`), `RemoveRow`, and `ExampleRows` for the
    "load example" button;
  - the totals (`CalculateTotals`), written as the left fold that `reduce` performs and proved
    equal to a reference sum;
  - a user session (`Run` over `Action`s) and the invariant it keeps.
- `Csv` (`csv.dfy`): the line construction of `downloadCSV`. Its partner is a small CSV reader
  (`Parse`). Reading the exported text back yields exactly the fields that were written,
  whatever quotes, commas or newlines a description holds.
- `Layout` (`layout.dfy`): the layout decisions of `generatePDF`. Drawing calls are replaced
  by the positions they receive:
  - the right-anchored "ZA:" box;
  - description truncation;
  - the running cursor over the table rows, with page breaks and striping (`Placement` per
    row);
  - the summary lines and their totals;
  - the cursor trail through the terms and contact sections.

Amounts are `real`. Number-to-text conversion is a function parameter `show`. Text width in
the PDF font is a function parameter `textWidth`.

Some behaviour of the code that the model keeps as it is:

- The table (its header, rows and summary) is drawn whenever `showTableInPDF` is truthy,
  even when there are no rows.
- Only table rows get a page-break test. The blocks after the table get none (see Findings).
- Descriptions are drawn on one line, cut to 35 characters. Long text is not wrapped.

The calculator's PDF button passes only `currency`, `vatPercent` and `rows` to `generatePDF`.
In that path the company name and the table switch are absent, so no box and no table are
drawn (`Layout.CalculatorExportOmitsTable`).

## Model

| member | source | states |
|---|---|---|
| Quote.ApplyEdit | src/components/ContractCalculator.tsx:66-76 | only the named field changes, and it takes the given value; a price or quantity edit leaves total == unitPrice * quantity; id and description edits keep the total; a `total` edit writes the given value; every edit except writing `total` keeps a consistent row consistent |
| Quote.UpdateRow | src/components/ContractCalculator.tsx:60-80 | same length and order; the rows with the id get the edit, every other row is unchanged; an unknown id leaves the list unchanged |
| Quote.UpdateRowKeepsIds | src/components/ContractCalculator.tsx:66-68 | an edit of any field other than `id` leaves the list of ids unchanged |
| Quote.UpdateRowKeepsConsistent | src/components/ContractCalculator.tsx:66-76 | every edit except writing `total` directly keeps total == unitPrice * quantity on every row |
| Quote.AddRow | src/components/ContractCalculator.tsx:82-91 | the old list is an unchanged prefix followed by exactly one row: the given id, "Nova stavka", price, quantity and total 0; consistency is kept; ids stay distinct when the new id is not already present |
| Quote.RemoveRow | src/components/ContractCalculator.tsx:93-95 | exactly as many rows go as carry the id; no row with the id remains; every remaining row was in the list; every row with another id survives; an absent id is a no-op |
| Quote.RemoveRowIds | src/components/ContractCalculator.tsx:93-95 | the id is no longer in the id list, and removing an id not in the id list changes nothing |
| Quote.RemoveRowKeepsOrder | src/components/ContractCalculator.tsx:93-95 | the surviving rows are a subsequence of the old list (relative order kept); with the length clause of `RemoveRow` this pins the result to the filter |
| Quote.RemoveRowKeepsWellFormed | src/components/ContractCalculator.tsx:93-95 | removal keeps ids distinct and totals consistent |
| Quote.RemoveRowIdempotent | src/components/ContractCalculator.tsx:93-95 | removing an id twice equals removing it once |
| Quote.RemoveUndoesAdd | src/components/ContractCalculator.tsx:82-95 | removing a row just added with a fresh id gives back the original list |
| Quote.ExampleRows | src/components/ContractCalculator.tsx:97-149 | the example dataset has seven rows, each with total == unitPrice * quantity |
| Quote.ExampleRowsDistinct | src/components/ContractCalculator.tsx:98-148 | the example ids are pairwise distinct |
| Quote.ExampleRowsSubtotal | src/components/ContractCalculator.tsx:98-148 | the example subtotal is 18896.6 |
| Quote.RowTotal | src/components/ContractCalculator.tsx:49-51 | the row total is zero when price or quantity is zero and non-negative for non-negative inputs; that an edited row's total is unitPrice * quantity is stated by `ApplyEdit` and `UpdateRowKeepsConsistent` |
| Quote.FoldTotals | src/components/ContractCalculator.tsx:54 | the `reduce` left fold from an accumulator equals the accumulator plus the reference sum `SumTotals` of the row totals |
| Quote.CalculateTotals | src/components/ContractCalculator.tsx:53-58 | subtotal is the sum of the row totals; VAT is subtotal * vat / 100; grand total is subtotal * (1 + vat / 100); no rows give all zeros |
| Quote.SubtotalIsSumOfProducts | src/components/ContractCalculator.tsx:49-54 | when every row is consistent, the subtotal is the sum of unitPrice * quantity |
| Quote.AddRowKeepsTotals | src/components/ContractCalculator.tsx:82-90 | adding a row changes none of the three totals |
| Quote.RemoveRowSubtotal | src/components/ContractCalculator.tsx:93-95 | removing an id lowers the subtotal by exactly the totals of the rows with that id |
| Quote.SessionKeepsWellFormed | src/components/ContractCalculator.tsx:60-149 | any sequence of add (fresh id), input-field edit, remove and load-example actions keeps ids distinct and every total consistent |
| Csv.Escape | src/components/ContractCalculator.tsx:163 | doubling quotes never shortens the text, and un-doubling recovers the original |
| Csv.Lines | src/components/ContractCalculator.tsx:156-173 | exactly rows + 4 lines: the header, one line per row with the description quoted and escaped, then subtotal, VAT and total lines that start with two empty fields |
| Csv.ReadQuotedEscaped | src/components/ContractCalculator.tsx:163 | a reader of quoted fields reads an escaped description back exactly and stops right after its closing quote |
| Csv.ExportRoundTrip | src/components/ContractCalculator.tsx:156-175 | reading the exported text yields rows + 4 records: the header, each row's description exactly as entered with its three numbers, and the three summary records |
| Csv.ExportLineCount | src/components/ContractCalculator.tsx:158-175 | when no description contains a newline, splitting the text on newlines gives back the rows + 4 lines |
| Csv.Export | src/components/ContractCalculator.tsx:175 | the text starts with the header line "Description,Unit Price,Quantity,Total" and a newline; reading it back is stated by `Csv.ExportRoundTrip`, its line structure by `Csv.ExportLineCount` |
| Csv.SplitJoin | src/components/ContractCalculator.tsx:175 | splitting newline-free lines joined by newlines gives the lines back |
| Layout.Truncate | src/lib/pdfGenerator.ts:113-116 | the result is at most 35 long; it equals the input exactly when the input is at most 35 long; otherwise it is the first 32 characters followed by "..." |
| Layout.TruncateIdempotent | src/lib/pdfGenerator.ts:113-116 | truncating twice equals truncating once |
| Layout.CompanyBox | src/lib/pdfGenerator.ts:40-57 | a box exists exactly for a non-empty company name; its text is "ZA: " + name; width is text width + 8; right edge at pageWidth - 20; text 4 inside the left edge and 4 short of the right edge; top 40, height 12, baseline 8 below the top |
| Layout.PlaceRows | src/lib/pdfGenerator.ts:101-132 | one placement per row, and the cursor after the loop is 8 below the last row (the start cursor when there are none); the per-row rules are stated by `Layout.PageBreakRule` and `Layout.RowsInOrder` |
| Layout.RowsInOrder | src/lib/pdfGenerator.ts:101-118 | each row is drawn once, in list order, with its truncated description, shaded exactly when its index is even |
| Layout.PageBreakRule | src/lib/pdfGenerator.ts:101-131 | before each row a page is added exactly when the cursor is past pageHeight - 40, and the row then sits at 30, otherwise at the cursor; the cursor after the table is 8 below the last row |
| Layout.RowsAboveBottomMargin | src/lib/pdfGenerator.ts:102-105 | when pageHeight - 40 >= 30, every row is drawn at or above pageHeight - 40 |
| Layout.RowsThatFitStayOnPage | src/lib/pdfGenerator.ts:98-131 | rows whose baselines fit below the start cursor get no page break and sit 8 apart |
| Layout.UnbrokenRun | src/lib/pdfGenerator.ts:101-131 | between page breaks each row sits exactly 8 below the previous one |
| Layout.PageRunLength | src/lib/pdfGenerator.ts:101-131 | after row i, the next break comes at the first row j whose baseline, 8 per row below row i, would pass pageHeight - 40 |
| Layout.SummaryBlock | src/lib/pdfGenerator.ts:134-170 | subtotal line 10 below the cursor after the rows, VAT and total lines 8 apart, separator 5 above the subtotal; the totals are the calculator's formulas; the currency is carried to the total line |
| Layout.TermLines | src/lib/pdfGenerator.ts:194-197 | the term lines sit 6 apart from the first |
| Layout.TrailerBlock | src/lib/pdfGenerator.ts:176-213 | the terms heading is 20 below the cursor, five term lines 6 apart start 10 below it, the contact heading follows 10 later and its line 10 below that |
| Layout.LayTable | src/lib/pdfGenerator.ts:77-170 | one placement per row with the truncated description, striped on even indices; the first row breaks the page exactly when the first row cursor 130 is past pageHeight - 40 and otherwise sits at 130; the totals are the calculator's; as written, the summary starts 10 below the cursor after the last row |
| Layout.Generate | src/lib/pdfGenerator.ts:73-177 | a table exists exactly when it is switched on, with one placement per row, in order, striped on even indices; the first row cursor is 130; the summary starts 10 below the cursor after the last row; with no table the cursor stays at 140; the terms heading is 20 below the resulting cursor |
| Layout.CalculatorExportOmitsTable | src/components/ContractCalculator.tsx:193-196 | the calculator's PDF export draws no "ZA:" box and no table, and puts the terms heading at 160 |
| Layout.TrailerOverflowsPage | src/lib/pdfGenerator.ts:134-213 | as written, any eight-row table on a 297-high page puts the contact line at 300, beyond the page |
| Layout.FittedDocumentStaysOnPage | src/lib/pdfGenerator.ts:101-213 | when the summary block (26 high) and the trailer block (80 high) each move to a fresh page whenever cursor + block height would pass pageHeight - 40, and a fresh page can hold the trailer, every row, summary and trailer baseline lies at or above pageHeight - 40 |
| Layout.FittedAgreesWhenItFits | src/lib/pdfGenerator.ts:134-213 | the corrected layout equals the written one whenever the written one fits above the bottom margin |

## Left out

- React state hooks, JSX rendering, toasts, Blob/URL/anchor download code and `pdf.save`:
  these are UI and I/O. The operations are modelled as functions from old to new rows.
- New row ids: `Date.now().toString() + Math.random()` is a clock and a random source. The
  id is a parameter of `AddRow`, and freshness appears only as a hypothesis. The code does
  not guarantee uniqueness.
- Number formatting (`toLocaleString`, JavaScript number-to-string, `toLocaleDateString`,
  `toISOString`): locale- and float-dependent, so it is the parameter `show`, or it is
  omitted where it only produces text.
- Csv.ExportRoundTrip: assumes that `show` never produces a comma, quote or newline. That
  holds for JavaScript number strings but is stated as a hypothesis.
- Csv.ExportLineCount: assumes newline-free number text and descriptions. A description with
  a newline is still a single CSV record (see Csv.ExportRoundTrip).
- Floating point: amounts are real numbers. IEEE rounding is not modelled. For example, in
  binary floating point `0.1 * 3` is not `0.3`, while over the reals it is.
- Input coercion `Number(value) || 0` in the calculator's input fields happens before
  `updateRow`. `Edit` carries the already-coerced value.
- jsPDF drawing calls, fonts, colours, the logo image and its ignored failure. The static
  header texts at fixed positions and the table header band are also left out: they contain
  no decisions. The model keeps only the positions that depend on the input.
- Layout.Truncate: counts characters as Unicode scalar values. JavaScript's `length` and
  `substring` count UTF-16 code units. For text outside the Basic Multilingual Plane the two
  differ. For example, 18 emoji are 36 code units and the code cuts them, but the model keeps
  them. `substring(0, 32)` can also split a surrogate pair, which a Dafny string cannot hold.
- `getTextWidth`: font metrics are not visible, so text width is the parameter `textWidth`.
- The `fitted` parameter of `Layout.Generate` is not in the source. `false` is the
  generator as written; `true` is the corrected layout of the finding below.
- `src/components/DemoContent.tsx` and `src/pages/Index.tsx`: static content and page shell,
  no logic.

## Findings

| source | as written | input that shows it | evidently intended | confidence | as-written member | corrected member |
|---|---|---|---|---|---|---|
| src/lib/pdfGenerator.ts:134-213 | only table rows are checked against the page bottom. The summary, terms and contact lines advance the cursor unchecked. | a table of eight rows on an A4 page (height 297): the contact line's baseline is at 300, beyond the page. The overflow is latent: it needs `showTableInPDF`, which the calculator's own PDF button (src/components/ContractCalculator.tsx:194) never sets (`Layout.CalculatorExportOmitsTable` puts its terms heading at 160) | before drawing the summary block and the terms/contact block, check the block's height: start a new page when cursor + block height (26 and 80) would pass pageHeight - 40 | medium, not executed | Layout.TrailerOverflowsPage | Layout.FittedDocumentStaysOnPage |
