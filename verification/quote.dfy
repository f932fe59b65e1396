/**
 Model of the quote rows kept by the contract calculator: the row record, the
 row store operations (add, update, remove, load the example), and the totals
 (subtotal, VAT, monthly total). React state is replaced by functions from the
 old row list to the new one.
 */
module Quote {

  /** One priced line item. `total` is derived: the store recomputes it as
      unitPrice * quantity whenever price or quantity is edited. */
  datatype Row = Row(id: string, description: string, unitPrice: real, quantity: real, total: real)

  /** A single-field edit as `updateRow(id, field, value)` performs it. The field
      may be any key of the row record, so `id` and `total` can be written too;
      the calculator's inputs only ever issue the middle three. */
  datatype Edit =
    | SetId(newId: string)
    | SetDescription(newDescription: string)
    | SetUnitPrice(newUnitPrice: real)
    | SetQuantity(newQuantity: real)
    | SetTotal(newTotal: real)

  /** Subtotal, VAT amount and grand ("monthly") total of a quote. */
  datatype Totals = Totals(subtotal: real, vatAmount: real, monthlyTotal: real)

  const PlaceholderDescription: string := "Nova stavka"

  /** The edits the calculator's input fields issue. */
  predicate UiEdit(e: Edit) {
    e.SetDescription? || e.SetUnitPrice? || e.SetQuantity?
  }

  predicate TotalIsConsistent(row: Row) {
    row.total == row.unitPrice * row.quantity
  }

  predicate AllConsistent(rows: seq<Row>) {
    forall i :: 0 <= i < |rows| ==> TotalIsConsistent(rows[i])
  }

  /** The ids of the rows, in list order. */
  function Ids(rows: seq<Row>): seq<string> {
    seq(|rows|, i requires 0 <= i < |rows| => rows[i].id)
  }

  predicate DistinctIds(rows: seq<Row>) {
    forall i, j :: 0 <= i < j < |rows| ==> rows[i].id != rows[j].id
  }

  /** The invariant the calculator's own operations keep. */
  predicate WellFormed(rows: seq<Row>) {
    DistinctIds(rows) && AllConsistent(rows)
  }

  /** `a` is `b` with some elements dropped, the rest in their original order. */
  predicate IsSubsequence<T(==)>(a: seq<T>, b: seq<T>)
    decreases |b|
  {
    a == [] || (b != [] && if a[0] == b[0] then IsSubsequence(a[1..], b[1..]) else IsSubsequence(a, b[1..]))
  }

  function RowTotal(unitPrice: real, quantity: real): (r: real)
    ensures unitPrice == 0.0 || quantity == 0.0 ==> r == 0.0
    ensures unitPrice >= 0.0 && quantity >= 0.0 ==> r >= 0.0
  {
    unitPrice * quantity
  }

  /** Replaces one field of a row; price and quantity edits recompute the total. */
  function ApplyEdit(row: Row, e: Edit): (r: Row)
    ensures r.id == (if e.SetId? then e.newId else row.id)
    ensures r.description == (if e.SetDescription? then e.newDescription else row.description)
    ensures r.unitPrice == (if e.SetUnitPrice? then e.newUnitPrice else row.unitPrice)
    ensures r.quantity == (if e.SetQuantity? then e.newQuantity else row.quantity)
    ensures e.SetUnitPrice? || e.SetQuantity? ==> TotalIsConsistent(r)
    ensures e.SetId? || e.SetDescription? ==> r.total == row.total
    ensures e.SetTotal? ==> r.total == e.newTotal
    ensures !e.SetTotal? && TotalIsConsistent(row) ==> TotalIsConsistent(r)
  {
    match e
    case SetId(v) => row.(id := v)
    case SetDescription(v) => row.(description := v)
    case SetUnitPrice(v) => row.(unitPrice := v, total := RowTotal(v, row.quantity))
    case SetQuantity(v) => row.(quantity := v, total := RowTotal(row.unitPrice, v))
    case SetTotal(v) => row.(total := v)
  }

  /** Applies the edit to every row carrying `id`; all other rows are kept. */
  function UpdateRow(rows: seq<Row>, id: string, e: Edit): (r: seq<Row>)
    ensures |r| == |rows|
    ensures forall i :: 0 <= i < |rows| ==> r[i] == if rows[i].id == id then ApplyEdit(rows[i], e) else rows[i]
    ensures id !in Ids(rows) ==> r == rows
  {
    if rows == [] then []
    else
      assert rows[0].id == Ids(rows)[0] && Ids(rows)[1..] == Ids(rows[1..]);
      [if rows[0].id == id then ApplyEdit(rows[0], e) else rows[0]] + UpdateRow(rows[1..], id, e)
  }

  /** Only an edit of the `id` field can change the list of ids. */
  lemma UpdateRowKeepsIds(rows: seq<Row>, id: string, e: Edit)
    requires !e.SetId?
    ensures Ids(UpdateRow(rows, id, e)) == Ids(rows)
  {
    var r := UpdateRow(rows, id, e);
    assert forall i :: 0 <= i < |rows| ==> Ids(r)[i] == r[i].id == rows[i].id;
  }

  /** Every edit except writing `total` directly keeps every total consistent. */
  lemma UpdateRowKeepsConsistent(rows: seq<Row>, id: string, e: Edit)
    requires !e.SetTotal? && AllConsistent(rows)
    ensures AllConsistent(UpdateRow(rows, id, e))
  {
    var r := UpdateRow(rows, id, e);
    assert forall i :: 0 <= i < |rows| ==> TotalIsConsistent(rows[i]) && r[i] == if rows[i].id == id then ApplyEdit(rows[i], e) else rows[i];
  }

  /** The row `addRow` creates: placeholder description, everything else zero. */
  function NewRow(id: string): Row {
    Row(id, PlaceholderDescription, 0.0, 0.0, 0.0)
  }

  /** Appends a fresh placeholder row with the given id. */
  function AddRow(rows: seq<Row>, id: string): (r: seq<Row>)
    ensures |r| == |rows| + 1 && r[..|rows|] == rows
    ensures r[|rows|].id == id && r[|rows|].description == PlaceholderDescription
    ensures r[|rows|].unitPrice == 0.0 && r[|rows|].quantity == 0.0 && r[|rows|].total == 0.0
    ensures AllConsistent(rows) ==> AllConsistent(r)
    ensures DistinctIds(rows) && id !in Ids(rows) ==> DistinctIds(r)
  {
    var r := rows + [NewRow(id)];
    assert forall i :: 0 <= i < |rows| ==> rows[i].id == Ids(rows)[i];
    r
  }

  /** How many rows carry `id`. */
  function CountId(rows: seq<Row>, id: string): (n: nat)
    ensures n <= |rows|
  {
    if rows == [] then 0 else (if rows[0].id == id then 1 else 0) + CountId(rows[1..], id)
  }

  /** Drops every row carrying `id`, keeping the rest in order. */
  function RemoveRow(rows: seq<Row>, id: string): (r: seq<Row>)
    ensures |r| == |rows| - CountId(rows, id)
    ensures forall i :: 0 <= i < |r| ==> r[i].id != id
    ensures forall x :: x in r ==> x in rows && x.id != id
    ensures forall i :: 0 <= i < |rows| && rows[i].id != id ==> rows[i] in r
    ensures (forall i :: 0 <= i < |rows| ==> rows[i].id != id) ==> r == rows
  {
    if rows == [] then []
    else
      var tail := RemoveRow(rows[1..], id);
      if rows[0].id == id then tail
      else
        [rows[0]] + tail
  }

  /** The same facts in terms of the id list: the id is gone, and an absent id changes nothing. */
  lemma RemoveRowIds(rows: seq<Row>, id: string)
    ensures id !in Ids(RemoveRow(rows, id))
    ensures id !in Ids(rows) ==> RemoveRow(rows, id) == rows
  {
    var r := RemoveRow(rows, id);
    assert forall i :: 0 <= i < |r| ==> Ids(r)[i] == r[i].id;
    assert forall i :: 0 <= i < |rows| ==> Ids(rows)[i] == rows[i].id;
  }

  /** Replaces the whole list with the fixed demonstration dataset. */
  function ExampleRows(): (r: seq<Row>)
    ensures |r| == 7
    ensures AllConsistent(r)
  {
    [ Row("1", "Broj WEB naloga", 1000.0, 3.0, 3000.0),
      Row("2", "Broj MOB naloga", 800.0, 0.0, 0.0),
      Row("3", "Broj objekata", 10.0, 104.0, 1040.0),
      Row("4", "Grupe objekata", 100.0, 10.0, 1000.0),
      Row("5", "PP aparati", 1.4, 869.0, 1216.6),
      Row("6", "Hidranti", 15.0, 80.0, 1200.0),
      Row("7", "Instalacije", 110.0, 104.0, 11440.0) ]
  }

  /** No two example rows share an id. */
  lemma ExampleRowsDistinct()
    ensures DistinctIds(ExampleRows())
  {
    var r := ExampleRows();
    assert forall i :: 0 <= i < 7 ==> |r[i].id| == 1 && r[i].id[0] == ('1' as int + i) as char;
  }

  /** The example rows add up to a subtotal of 18896.6. */
  lemma ExampleRowsSubtotal()
    ensures SumTotals(ExampleRows()) == 18896.6
  {
    var r := ExampleRows();
    assert SumTotals(r[6..]) == 11440.0;
    assert SumTotals(r[5..]) == 1200.0 + SumTotals(r[6..]);
    assert SumTotals(r[4..]) == 1216.6 + SumTotals(r[5..]);
    assert SumTotals(r[3..]) == 1000.0 + SumTotals(r[4..]);
    assert SumTotals(r[2..]) == 1040.0 + SumTotals(r[3..]);
    assert SumTotals(r[1..]) == 0.0 + SumTotals(r[2..]);
  }

  // ----- Totals ---------------------------------------------------------

  /** Reference sum of the row totals. */
  function SumTotals(rows: seq<Row>): real {
    if rows == [] then 0.0 else rows[0].total + SumTotals(rows[1..])
  }

  /** Reference sum of unitPrice * quantity over the rows. */
  function SumProducts(rows: seq<Row>): real {
    if rows == [] then 0.0 else rows[0].unitPrice * rows[0].quantity + SumProducts(rows[1..])
  }

  /** `rows.reduce((sum, row) => sum + row.total, acc)`: a left fold. It equals
      the accumulator plus the reference sum. */
  function FoldTotals(rows: seq<Row>, acc: real): (r: real)
    ensures r == acc + SumTotals(rows)
  {
    if rows == [] then acc else FoldTotals(rows[1..], acc + rows[0].total)
  }

  /** Subtotal, VAT at `vatPercent` percent, and their sum. */
  function CalculateTotals(rows: seq<Row>, vatPercent: real): (t: Totals)
    ensures t.subtotal == SumTotals(rows)
    ensures t.vatAmount == t.subtotal * vatPercent / 100.0
    ensures t.monthlyTotal == t.subtotal * (1.0 + vatPercent / 100.0)
    ensures rows == [] ==> t == Totals(0.0, 0.0, 0.0)
  {
    var subtotal := FoldTotals(rows, 0.0);
    var vatAmount := subtotal * (vatPercent / 100.0);
    Totals(subtotal, vatAmount, subtotal + vatAmount)
  }

  lemma {:induction false} SumTotalsAppend(a: seq<Row>, b: seq<Row>)
    ensures SumTotals(a + b) == SumTotals(a) + SumTotals(b)
  {
    if a == [] {
      assert a + b == b;
    } else {
      assert (a + b)[0] == a[0] && (a + b)[1..] == a[1..] + b;
      SumTotalsAppend(a[1..], b);
    }
  }

  /** When every row keeps its total invariant, the subtotal is the sum of
      price times quantity. */
  lemma {:induction false} SubtotalIsSumOfProducts(rows: seq<Row>)
    requires AllConsistent(rows)
    ensures SumTotals(rows) == SumProducts(rows)
  {
    if rows != [] {
      assert TotalIsConsistent(rows[0]);
      SubtotalIsSumOfProducts(rows[1..]);
    }
  }

  /** A freshly added row contributes nothing to any total. */
  lemma AddRowKeepsTotals(rows: seq<Row>, id: string, vatPercent: real)
    ensures CalculateTotals(AddRow(rows, id), vatPercent) == CalculateTotals(rows, vatPercent)
  {
    SumTotalsAppend(rows, [NewRow(id)]);
  }

  /** Sum of the totals of the rows carrying `id`. */
  function SumTotalsOf(rows: seq<Row>, id: string): real {
    if rows == [] then 0.0 else (if rows[0].id == id then rows[0].total else 0.0) + SumTotalsOf(rows[1..], id)
  }

  /** Removing an id lowers the subtotal by exactly the totals of its rows. */
  lemma {:induction false} RemoveRowSubtotal(rows: seq<Row>, id: string)
    ensures SumTotals(RemoveRow(rows, id)) == SumTotals(rows) - SumTotalsOf(rows, id)
  {
    if rows != [] {
      RemoveRowSubtotal(rows[1..], id);
    }
  }

  /** Removing a row that was just added with a fresh id restores the list. */
  lemma RemoveUndoesAdd(rows: seq<Row>, id: string)
    requires id !in Ids(rows)
    ensures RemoveRow(AddRow(rows, id), id) == rows
  {
    RemoveAppendFresh(rows, [NewRow(id)], id);
  }

  lemma {:induction false} RemoveAppendFresh(a: seq<Row>, b: seq<Row>, id: string)
    requires id !in Ids(a)
    requires forall x :: x in b ==> x.id == id
    ensures RemoveRow(a + b, id) == a
  {
    if a == [] {
      assert a + b == b;
      RemoveAll(b, id);
    } else {
      assert (a + b)[1..] == a[1..] + b;
      assert a[0].id == Ids(a)[0];
      assert Ids(a)[1..] == Ids(a[1..]);
      RemoveAppendFresh(a[1..], b, id);
    }
  }

  lemma {:induction false} RemoveAll(b: seq<Row>, id: string)
    requires forall x :: x in b ==> x.id == id
    ensures RemoveRow(b, id) == []
  {
    if b != [] {
      assert b[0] in b;
      RemoveAll(b[1..], id);
    }
  }

  /** Removing the same id twice is the same as removing it once. */
  lemma RemoveRowIdempotent(rows: seq<Row>, id: string)
    ensures RemoveRow(RemoveRow(rows, id), id) == RemoveRow(rows, id)
  {
    var r := RemoveRow(rows, id);
    assert id !in Ids(r);
  }

  /** The rows that survive a removal keep their relative order. */
  lemma {:induction false} RemoveRowKeepsOrder(rows: seq<Row>, id: string)
    ensures IsSubsequence(RemoveRow(rows, id), rows)
  {
    if rows != [] {
      RemoveRowKeepsOrder(rows[1..], id);
      var tail := RemoveRow(rows[1..], id);
      if rows[0].id == id {
        SubsequenceOfTail(tail, rows);
      }
    }
  }

  lemma {:induction false} SubsequenceOfTail<T>(a: seq<T>, b: seq<T>)
    requires b != [] && IsSubsequence(a, b[1..])
    ensures IsSubsequence(a, b)
    decreases |b|, 0
  {
    if a != [] && a[0] == b[0] {
      SubsequenceDropHead(a, b[1..]);
    }
  }

  lemma {:induction false} SubsequenceDropHead<T>(a: seq<T>, c: seq<T>)
    requires a != [] && IsSubsequence(a, c)
    ensures IsSubsequence(a[1..], c)
    decreases |c|, 1
  {
    if a[0] == c[0] {
      if a[1..] != [] {
        SubsequenceOfTail(a[1..], c);
      }
    } else {
      SubsequenceDropHead(a, c[1..]);
      if a[1..] != [] {
        SubsequenceOfTail(a[1..], c);
      }
    }
  }

  /** Removal keeps distinct ids and consistent totals. */
  lemma RemoveRowKeepsWellFormed(rows: seq<Row>, id: string)
    requires WellFormed(rows)
    ensures WellFormed(RemoveRow(rows, id))
  {
    var r := RemoveRow(rows, id);
    RemoveRowKeepsOrder(rows, id);
    SubsequenceKeepsWellFormed(r, rows);
  }

  lemma {:induction false} SubsequenceKeepsWellFormed(a: seq<Row>, b: seq<Row>)
    requires IsSubsequence(a, b) && WellFormed(b)
    ensures WellFormed(a)
    decreases |b|
  {
    if a != [] {
      assert WellFormed(b[1..]) by {
        assert forall i :: 0 <= i < |b| - 1 ==> b[1..][i] == b[i + 1];
      }
      if a[0] == b[0] {
        SubsequenceKeepsWellFormed(a[1..], b[1..]);
        SubsequenceMembers(a[1..], b[1..]);
        forall i, j | 0 <= i < j < |a|
          ensures a[i].id != a[j].id
        {
          assert a[j] == a[1..][j - 1];
          if i == 0 {
            var k :| 0 <= k < |b| - 1 && b[1..][k] == a[1..][j - 1];
            assert b[k + 1] == a[j];
          } else {
            assert a[i] == a[1..][i - 1];
          }
        }
        forall i | 0 <= i < |a|
          ensures TotalIsConsistent(a[i])
        {
          if i > 0 {
            assert a[i] == a[1..][i - 1];
          }
        }
      } else {
        SubsequenceKeepsWellFormed(a, b[1..]);
      }
    }
  }

  lemma {:induction false} SubsequenceMembers<T>(a: seq<T>, b: seq<T>)
    requires IsSubsequence(a, b)
    ensures forall j :: 0 <= j < |a| ==> exists k :: 0 <= k < |b| && b[k] == a[j]
    decreases |b|
  {
    if a != [] {
      if a[0] == b[0] {
        SubsequenceMembers(a[1..], b[1..]);
        forall j | 0 <= j < |a|
          ensures exists k :: 0 <= k < |b| && b[k] == a[j]
        {
          if j == 0 {
            assert b[0] == a[0];
          } else {
            assert a[j] == a[1..][j - 1];
            var k :| 0 <= k < |b| - 1 && b[1..][k] == a[1..][j - 1];
            assert b[k + 1] == a[j];
          }
        }
      } else {
        SubsequenceMembers(a, b[1..]);
        forall j | 0 <= j < |a|
          ensures exists k :: 0 <= k < |b| && b[k] == a[j]
        {
          var k :| 0 <= k < |b| - 1 && b[1..][k] == a[j];
          assert b[k + 1] == a[j];
        }
      }
    }
  }

  // ----- A session of user actions -------------------------------------

  /** A button or input action of the calculator, with the id the new row gets. */
  datatype Action =
    | AddAction(newId: string)
    | UpdateAction(id: string, edit: Edit)
    | RemoveAction(id: string)
    | LoadExampleAction

  function Step(rows: seq<Row>, a: Action): seq<Row> {
    match a
    case AddAction(newId) => AddRow(rows, newId)
    case UpdateAction(id, e) => UpdateRow(rows, id, e)
    case RemoveAction(id) => RemoveRow(rows, id)
    case LoadExampleAction => ExampleRows()
  }

  function Run(rows: seq<Row>, actions: seq<Action>): seq<Row>
    decreases |actions|
  {
    if actions == [] then rows else Run(Step(rows, actions[0]), actions[1..])
  }

  /** Every added id is fresh when it is added and every edit comes from an input field. */
  predicate Admissible(rows: seq<Row>, actions: seq<Action>)
    decreases |actions|
  {
    actions == [] ||
    (&& (actions[0].AddAction? ==> actions[0].newId !in Ids(rows))
     && (actions[0].UpdateAction? ==> UiEdit(actions[0].edit))
     && Admissible(Step(rows, actions[0]), actions[1..]))
  }

  /** Distinct ids and consistent totals survive any admissible session. */
  lemma {:induction false} SessionKeepsWellFormed(rows: seq<Row>, actions: seq<Action>)
    requires WellFormed(rows)
    requires Admissible(rows, actions)
    ensures WellFormed(Run(rows, actions))
    decreases |actions|
  {
    if actions != [] {
      var next := Step(rows, actions[0]);
      assert Admissible(next, actions[1..]);
      assert Run(rows, actions) == Run(next, actions[1..]);
      StepKeepsWellFormed(rows, actions[0]);
      SessionKeepsWellFormed(next, actions[1..]);
    }
  }

  lemma StepKeepsWellFormed(rows: seq<Row>, a: Action)
    requires WellFormed(rows)
    requires a.AddAction? ==> a.newId !in Ids(rows)
    requires a.UpdateAction? ==> UiEdit(a.edit)
    ensures WellFormed(Step(rows, a))
  {
    match a
    case AddAction(newId) =>
    case UpdateAction(id, e) =>
      UpdateKeepsDistinct(rows, id, e);
      UpdateRowKeepsConsistent(rows, id, e);
    case RemoveAction(id) =>
      RemoveRowKeepsWellFormed(rows, id);
    case LoadExampleAction =>
      ExampleRowsDistinct();
  }

  lemma UpdateKeepsDistinct(rows: seq<Row>, id: string, e: Edit)
    requires DistinctIds(rows) && !e.SetId?
    ensures DistinctIds(UpdateRow(rows, id, e))
  {
    var r := UpdateRow(rows, id, e);
    forall i, j | 0 <= i < j < |r|
      ensures r[i].id != r[j].id
    {
      assert r[i].id == rows[i].id && r[j].id == rows[j].id;
    }
  }
}
