/** The in-memory table the core works on (a pandas `DataFrame`), as a value.

    Rows carry their index label and one cell per column, by position; a
    column has a name and records whether pandas gives it the `object` dtype
    (the dtype of text columns). Looking a column up by name takes the first
    column of that name. */
module Frames {
  import opened Seqs

  /** A cell: a string, an integer, or a missing value (`NaN`/`None`). */
  datatype Cell = Text(s: string) | Number(n: int) | Missing

  datatype Column = Column(name: string, isObject: bool)

  datatype Row = Row(index: int, cells: seq<Cell>)

  datatype Frame = Frame(columns: seq<Column>, rows: seq<Row>)

  /** A table with a relevance score per index label: what the search tools
      and the classifier's filter return. */
  datatype ScoredFrame = ScoredFrame(frame: Frame, scores: map<int, real>)

  /** `pd.DataFrame()`: no columns and no rows. */
  const EmptyFrame: Frame := Frame([], [])

  function Names(cols: seq<Column>): (r: seq<string>)
    ensures |r| == |cols|
    ensures forall k :: 0 <= k < |cols| ==> r[k] == cols[k].name
  {
    if cols == [] then [] else [cols[0].name] + Names(cols[1..])
  }

  /** `name in df.columns`. */
  predicate HasColumn(f: Frame, name: string) {
    name in Names(f.columns)
  }

  /** Position of the (first) column called `name`. */
  function Position(f: Frame, name: string): (p: nat)
    requires HasColumn(f, name)
    ensures p < |f.columns| && f.columns[p].name == name
  {
    FirstIndex(Names(f.columns), name)
  }

  /** The cell of `r` in column position `p`; a row too short to have one reads as missing. */
  function CellAt(r: Row, p: nat): Cell {
    if p < |r.cells| then r.cells[p] else Missing
  }

  /** `df.empty`: true when the table has no rows or no columns. */
  predicate IsEmpty(f: Frame) {
    |f.rows| == 0 || |f.columns| == 0
  }

  function Min(a: nat, b: nat): nat {
    if a <= b then a else b
  }

  /** `df.head(n)`: the first `n` rows (all of them when there are fewer), same columns. */
  function Head(f: Frame, n: nat): (r: Frame)
    ensures r.columns == f.columns
    ensures |r.rows| == Min(n, |f.rows|) && r.rows <= f.rows
  {
    Frame(f.columns, f.rows[..Min(n, |f.rows|)])
  }

  /** `head` returns rows of the table. */
  lemma HeadFromInput(f: Frame, n: nat)
    ensures forall row :: row in Head(f, n).rows ==> row in f.rows
  {
    forall row | row in Head(f, n).rows ensures row in f.rows {
      var i :| 0 <= i < |Head(f, n).rows| && Head(f, n).rows[i] == row;
      assert f.rows[i] == row;
    }
  }

  /** The index labels of the rows, in order. */
  function Indices(rows: seq<Row>): (r: seq<int>)
    ensures |r| == |rows|
    ensures forall k :: 0 <= k < |rows| ==> r[k] == rows[k].index
  {
    if rows == [] then [] else [rows[0].index] + Indices(rows[1..])
  }

  /** `df[mask]`: the rows satisfying `keep`, in order, with all columns. */
  function Mask(f: Frame, keep: Row -> bool): (r: Frame)
    ensures r.columns == f.columns
    ensures forall row :: row in r.rows <==> row in f.rows && keep(row)
  {
    forall row ensures row in Where(f.rows, keep) <==> row in f.rows && keep(row) {
      WhereMembers(f.rows, keep, row);
    }
    Frame(f.columns, Where(f.rows, keep))
  }

  /** Whether pandas lets `.str` be used on the column at position `p`: it must
      have the `object` dtype and hold at least one string, or nothing but
      missing values. Otherwise `.str` raises. */
  predicate StrAccessorAllowed(f: Frame, p: nat)
    requires p < |f.columns|
  {
    f.columns[p].isObject &&
    ((exists k :: 0 <= k < |f.rows| && CellAt(f.rows[k], p).Text?) ||
     (forall k :: 0 <= k < |f.rows| ==> CellAt(f.rows[k], p).Missing?))
  }

  /** The test "carries index label `l`" as a function value. */
  function HasLabel(l: int): Row -> bool {
    (r: Row) => r.index == l
  }

  /** `df.loc[labels]`: for each label in turn, every row carrying it. */
  function Loc(rows: seq<Row>, labels: seq<int>): seq<Row> {
    if labels == [] then [] else Where(rows, HasLabel(labels[0])) + Loc(rows, labels[1..])
  }

  /** No two rows carry the same index label. */
  predicate UniqueLabels(rows: seq<Row>) {
    forall i, j :: 0 <= i < j < |rows| ==> rows[i].index != rows[j].index
  }

  /** With distinct index labels, the rows labelled like row `p` are row `p` alone. */
  lemma {:induction false} RowsLabelled(rows: seq<Row>, p: nat)
    requires UniqueLabels(rows) && p < |rows|
    ensures Where(rows, HasLabel(rows[p].index)) == [rows[p]]
    decreases |rows|
  {
    var keep := HasLabel(rows[p].index);
    if p == 0 {
      forall r | r in rows[1..] ensures !keep(r) {
        var i :| 0 <= i < |rows[1..]| && rows[1..][i] == r;
        assert rows[i + 1].index != rows[0].index;
      }
      WhereNone(rows[1..], keep);
    } else {
      assert !keep(rows[0]);
      assert rows[1..][p - 1] == rows[p];
      RowsLabelled(rows[1..], p - 1);
    }
  }

  /** With distinct index labels, looking up the labels of some rows gives
      back exactly those rows, in the order of the labels. */
  lemma {:induction false} LocOfDistinct(rows: seq<Row>, picked: seq<Row>)
    requires UniqueLabels(rows)
    requires forall r :: r in picked ==> r in rows
    ensures Loc(rows, Indices(picked)) == picked
    decreases |picked|
  {
    if picked != [] {
      assert picked[0] in rows;
      var p :| 0 <= p < |rows| && rows[p] == picked[0];
      RowsLabelled(rows, p);
      assert Indices(picked) == [picked[0].index] + Indices(picked[1..]);
      LocOfDistinct(rows, picked[1..]);
    }
  }

  /** `df.loc[labels]` returns the rows carrying one of the labels and no
      others, whether or not labels repeat in the table or in the request. */
  lemma {:induction false} LocMembers(rows: seq<Row>, labels: seq<int>, row: Row)
    ensures row in Loc(rows, labels) <==> row in rows && row.index in labels
    decreases |labels|
  {
    if labels != [] {
      LocMembers(rows, labels[1..], row);
      WhereMembers(rows, HasLabel(labels[0]), row);
      assert labels == [labels[0]] + labels[1..];
    }
  }

  /** A `DataFrame` object, which methods update in place. */
  class Table {
    var frame: Frame

    constructor(f: Frame)
      ensures frame == f
    {
      frame := f;
    }
  }

  /** Whether each column has the `object` dtype, by position. */
  function ObjectColumns(cols: seq<Column>): (r: seq<bool>)
    ensures |r| == |cols|
    ensures forall k :: 0 <= k < |cols| ==> r[k] == cols[k].isObject
  {
    Apply(cols, (c: Column) => c.isObject)
  }

  /** The row after `df[col] = g(df[col])` for the column at position `p`. */
  function MapCell(row: Row, p: nat, g: Cell -> Cell): (r: Row)
    ensures r.index == row.index && |r.cells| == |row.cells|
    ensures forall k :: 0 <= k < |row.cells| ==> r.cells[k] == if k == p then g(row.cells[k]) else row.cells[k]
  {
    if p < |row.cells| then Row(row.index, row.cells[p := g(row.cells[p])]) else row
  }

  /** `df[col] = g(df[col])`: every row mapped at position `p`. */
  function MapColumn(rows: seq<Row>, p: nat, g: Cell -> Cell): (r: seq<Row>)
    ensures |r| == |rows|
    ensures forall i :: 0 <= i < |rows| ==> r[i] == MapCell(rows[i], p, g)
  {
    Apply(rows, (row: Row) => MapCell(row, p, g))
  }

  /** The row once a loop over the columns has mapped, by `g`, the cells of
      the columns before position `n` that `selected` marks. */
  function MapCellsBefore(row: Row, selected: seq<bool>, n: nat, g: Cell -> Cell): (r: Row)
    ensures r.index == row.index && |r.cells| == |row.cells|
    ensures forall k :: 0 <= k < |row.cells| ==>
      r.cells[k] == if k < n && k < |selected| && selected[k] then g(row.cells[k]) else row.cells[k]
  {
    Row(row.index, seq(|row.cells|, k requires 0 <= k < |row.cells| =>
      if k < n && k < |selected| && selected[k] then g(row.cells[k]) else row.cells[k]))
  }

  function MapColumnsBefore(rows: seq<Row>, selected: seq<bool>, n: nat, g: Cell -> Cell): (r: seq<Row>)
    ensures |r| == |rows|
    ensures forall i :: 0 <= i < |rows| ==> r[i] == MapCellsBefore(rows[i], selected, n, g)
  {
    Apply(rows, (row: Row) => MapCellsBefore(row, selected, n, g))
  }

  /** Before the loop, nothing is mapped. */
  lemma MapColumnsStart(rows: seq<Row>, selected: seq<bool>, g: Cell -> Cell)
    ensures MapColumnsBefore(rows, selected, 0, g) == rows
  {
    forall i | 0 <= i < |rows|
      ensures MapCellsBefore(rows[i], selected, 0, g) == rows[i]
    {
      assert MapCellsBefore(rows[i], selected, 0, g).cells == rows[i].cells;
    }
  }

  /** One more turn of the loop maps column `n` when it is selected. */
  lemma MapColumnsStep(rows: seq<Row>, selected: seq<bool>, n: nat, g: Cell -> Cell)
    requires n < |selected|
    ensures MapColumnsBefore(rows, selected, n + 1, g) ==
      if selected[n] then MapColumn(MapColumnsBefore(rows, selected, n, g), n, g)
      else MapColumnsBefore(rows, selected, n, g)
  {
    var before := MapColumnsBefore(rows, selected, n, g);
    var after := MapColumnsBefore(rows, selected, n + 1, g);
    if selected[n] {
      var mapped := MapColumn(before, n, g);
      forall i | 0 <= i < |rows|
        ensures after[i] == mapped[i]
      {
        assert after[i].cells == mapped[i].cells;
      }
    } else {
      forall i | 0 <= i < |rows|
        ensures after[i] == before[i]
      {
        assert after[i].cells == before[i].cells;
      }
    }
  }

  /** The columns the loop has not reached yet still hold their old cells. */
  lemma MapColumnsAhead(rows: seq<Row>, selected: seq<bool>, n: nat, g: Cell -> Cell, i: nat, p: nat)
    requires i < |rows| && n <= p
    ensures CellAt(MapColumnsBefore(rows, selected, n, g)[i], p) == CellAt(rows[i], p)
  {
  }
}
