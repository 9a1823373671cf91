/** The in-memory record table of the screening tool: cells, rows, the
    reserved column names and the three screening statuses, together with
    the sequence-number column that loading a file inserts when it is absent. */
module Records {

  datatype Option<T> = None | Some(value: T)

  /** A spreadsheet cell as the table parser yields it: a missing value
      (pandas' NaN), a text or an integer. */
  datatype Cell = Missing | Text(s: string) | Number(n: int)

  /** The three screening decisions: 纳入 (include), 待定 (pending), 排除 (exclude). */
  datatype Status = Include | Pending | Exclude

  /** The reserved sequence-number column. */
  const SerialColumn: string := "序号"
  /** The reserved note column. */
  const NoteColumn: string := "备注"

  /** A table: column names and rows of cells, one cell per column. */
  datatype Table = Table(columns: seq<string>, rows: seq<seq<Cell>>)
  {
    /** Every row has one cell per column, and column names are distinct
        (the spreadsheet reader renames duplicated headers). */
    predicate WellFormed() {
      (forall i :: 0 <= i < |rows| ==> |rows[i]| == |columns|) &&
      (forall i, j :: 0 <= i < j < |columns| ==> columns[i] != columns[j])
    }

    function Length(): nat { |rows| }
  }

  /** Position of `x` in `s`, or |s| when it is absent. */
  function IndexOf(s: seq<string>, x: string): (k: nat)
    ensures k <= |s|
    ensures k < |s| <==> x in s
    ensures k < |s| ==> s[k] == x && forall j :: 0 <= j < k ==> s[j] != x
  {
    if s == [] then 0
    else if s[0] == x then 0
    else 1 + IndexOf(s[1..], x)
  }

  /** The cell of row `row` in the column called `name`. */
  function CellAt(t: Table, row: nat, name: string): Cell
    requires t.WellFormed() && row < |t.rows| && name in t.columns
  {
    t.rows[row][IndexOf(t.columns, name)]
  }

  /** The table as stored after loading: when there is no `序号` column, one
      is inserted at position 0 holding 1..N. */
  function WithSerial(t: Table): Table
  {
    if SerialColumn in t.columns then t
    else Table([SerialColumn] + t.columns,
               seq(|t.rows|, i requires 0 <= i < |t.rows| => [Number(i + 1)] + t.rows[i]))
  }

  /** Loading keeps the record count and the table's shape, guarantees a `序号`
      column, and when it had to insert one, that column comes first, holds
      1..N in row order, and every original cell moves one place right. */
  lemma WithSerialProperties(t: Table)
    requires t.WellFormed()
    ensures WithSerial(t).WellFormed()
    ensures |WithSerial(t).rows| == |t.rows|
    ensures SerialColumn in WithSerial(t).columns
    ensures SerialColumn in t.columns ==> WithSerial(t) == t
    ensures SerialColumn !in t.columns ==>
      WithSerial(t).columns == [SerialColumn] + t.columns &&
      forall i :: 0 <= i < |t.rows| ==>
        WithSerial(t).rows[i][0] == Number(i + 1) &&
        WithSerial(t).rows[i][1..] == t.rows[i]
  {
    if SerialColumn !in t.columns {
      var u := WithSerial(t);
      forall i, j | 0 <= i < j < |u.columns| ensures u.columns[i] != u.columns[j] {
        if i == 0 {
          assert u.columns[j] == t.columns[j - 1];
        } else {
          assert u.columns[i] == t.columns[i - 1] && u.columns[j] == t.columns[j - 1];
        }
      }
    }
  }
}
