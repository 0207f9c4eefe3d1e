/**
 * The raw log table as read from the CSV export: an ordered sequence of named
 * columns, each a sequence of cells. The last two rows are trailer rows; the
 * very last one names the device family each column belongs to.
 */
module Tables {

  /** A cell as read: empty (pandas' NaN missing marker) or its text. */
  datatype Cell = Missing | Text(text: string)

  datatype Column = Column(name: string, cells: seq<Cell>)

  function Names(t: seq<Column>): (names: seq<string>)
    ensures |names| == |t|
    ensures forall i :: 0 <= i < |t| ==> names[i] == t[i].name
  {
    seq(|t|, i requires 0 <= i < |t| => t[i].name)
  }

  /** Every column of a table has the same number of rows. */
  predicate Rectangular(t: seq<Column>) {
    forall i, j :: 0 <= i < |t| && 0 <= j < |t| ==> |t[i].cells| == |t[j].cells|
  }

  /** Every column has a last (trailer) cell. */
  predicate HasTrailer(t: seq<Column>) {
    forall i :: 0 <= i < |t| ==> |t[i].cells| > 0
  }

  /** The trailer cell of a column: the family label, or Missing for a column of no device. */
  function Trailer(c: Column): Cell
    requires |c.cells| > 0
  {
    c.cells[|c.cells| - 1]
  }
}
