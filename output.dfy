/** The output side of a table (app/output.js): a table of the same shape as
    an input table, each cell waiting to be evaluated. */
module Output {
  import opened Input

  /** The state every freshly built output cell is in. */
  const Unevaluated: string := "unevaluated"

  /** `new Cell(ic)`: the evaluation state and the input cell it evaluates. */
  datatype Cell = Cell(state: string, data: Entry)

  type OutputRow = map<string, Cell>

  datatype OutputTable = OutputTable(
    name: string,
    description: string,
    owner: string,
    columns: seq<string>,
    cells: seq<OutputRow>)

  /** `new Cell(ic)` */
  function NewCell(ic: Entry): (c: Cell)
    ensures c.state == Unevaluated && c.data == ic
  {
    Cell(Unevaluated, ic)
  }

  /** `fromInputRow(row)`: one unevaluated cell per key of the input row. */
  function FromInputRow(row: Row): (r: OutputRow)
    ensures r.Keys == row.Keys
    ensures forall k :: k in r ==> r[k].state == Unevaluated && r[k].data == row[k]
  {
    map k | k in row :: NewCell(row[k])
  }

  /** The input cells an output row was built from. */
  function RowData(r: OutputRow): (row: Row)
    ensures row.Keys == r.Keys
  {
    map k | k in r :: r[k].data
  }

  /** An output row is freshly seeded when none of its cells has been evaluated. */
  predicate AllUnevaluated(r: OutputRow)
  {
    forall k :: k in r ==> r[k].state == Unevaluated
  }

  /** Reading the data back out of a seeded row gives the input row. */
  lemma RowRoundTrip(row: Row)
    ensures RowData(FromInputRow(row)) == row
    ensures AllUnevaluated(FromInputRow(row))
  {
    var r := FromInputRow(row);
    assert forall k :: k in row ==> RowData(r)[k] == row[k];
  }

  /** A seeded row is determined by its data: seeding the data again gives it back. */
  lemma SeededRowDetermined(r: OutputRow)
    requires AllUnevaluated(r)
    ensures FromInputRow(RowData(r)) == r
  {
    var r' := FromInputRow(RowData(r));
    forall k | k in r ensures r'[k] == r[k] {
      assert r'[k].state == Unevaluated == r[k].state;
    }
  }

  /** `Table.fromInputTable(it)`: the descriptive fields are copied, and each
      row is seeded from the input row at the same position. */
  function FromInputTable(it: InputTable): (ot: OutputTable)
    reads it
    ensures ot.name == it.name && ot.description == it.description
    ensures ot.owner == it.owner && ot.columns == it.columns
    ensures |ot.cells| == |it.cells|
    ensures forall i :: 0 <= i < |ot.cells| ==> ot.cells[i].Keys == it.cells[i].Keys
  {
    var cs := it.cells;
    OutputTable(it.name, it.description, it.owner, it.columns,
                seq(|cs|, i requires 0 <= i < |cs| => FromInputRow(cs[i])))
  }

  /** The input rows an output table was built from. */
  function TableData(ot: OutputTable): (rows: seq<Row>)
    ensures |rows| == |ot.cells|
  {
    seq(|ot.cells|, i requires 0 <= i < |ot.cells| => RowData(ot.cells[i]))
  }

  /** Every cell of a seeded table is unevaluated and holds the input cell at
      the same row and key; the input rows are recovered exactly. */
  lemma FromInputTableCells(it: InputTable)
    ensures var ot := FromInputTable(it);
      (forall i, k :: 0 <= i < |ot.cells| && k in ot.cells[i] ==>
         ot.cells[i][k].state == Unevaluated && ot.cells[i][k].data == it.cells[i][k])
      && TableData(ot) == it.cells
  {
    var ot := FromInputTable(it);
    forall i | 0 <= i < |ot.cells| ensures TableData(ot)[i] == it.cells[i] {
      RowRoundTrip(it.cells[i]);
    }
  }

  /** The `_owner` entry of an input row reappears, unevaluated, in the output row. */
  lemma FromInputTableOwner(it: InputTable, i: nat)
    requires i < |it.cells| && "_owner" in it.cells[i]
    ensures var ot := FromInputTable(it);
      "_owner" in ot.cells[i] && ot.cells[i]["_owner"] == Cell(Unevaluated, it.cells[i]["_owner"])
  {
  }

  /** `censor(ws, user)`: no cell is hidden from anyone yet; the table is
      returned as it is, whoever asks. */
  function Censor<W>(ot: OutputTable, ws: W, user: string): (r: OutputTable)
    ensures r == ot
  {
    ot
  }
}
