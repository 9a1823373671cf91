/** The export of a screening session: one full sheet with every record, its
    note column and a status colour on each record's first cell, and three
    filtered sheets (included, pending, excluded). Workbook writing itself is
    left out; a sheet is the list of original row indices it holds, its
    note column, and the fill of each row's first cell. */
module Export {

  import opened Records

  /** An ARGB fill colour, as the spreadsheet library spells it. */
  type Fill = string

  const RedFill: Fill := "FFFF0000"
  const YellowFill: Fill := "FFFFFF00"
  const GreenFill: Fill := "FF90EE90"
  const PendingSheetFill: Fill := "FFFFE0B2"
  const ExcludeSheetFill: Fill := "FFFFCCCC"

  const AllSheetName: string := "所有文献"
  const IncludeSheetName: string := "纳入文章"
  const PendingSheetName: string := "待定文章"
  const ExcludeSheetName: string := "排除文章"

  /** One worksheet: the original indices of its rows in order, its `备注`
      column if it has one (one cell per row), and the fill of each row's
      first cell. A sheet with no rows is a header-only sheet. */
  datatype Sheet = Sheet(name: string, rows: seq<nat>, noteColumn: Option<seq<Cell>>, fills: seq<Option<Fill>>)

  datatype Workbook = Workbook(all: Sheet, included: Sheet, pending: Sheet, excluded: Sheet)

  /** The colour of a record's first cell on the full sheet. */
  function StatusFill(s: Status): Fill {
    match s
    case Exclude => RedFill
    case Pending => YellowFill
    case Include => GreenFill
  }

  /** The fixed colour of the first cells of a filtered sheet. */
  function SheetFill(s: Status): Fill {
    match s
    case Include => GreenFill
    case Pending => PendingSheetFill
    case Exclude => ExcludeSheetFill
  }

  function SheetName(s: Status): string {
    match s
    case Include => IncludeSheetName
    case Pending => PendingSheetName
    case Exclude => ExcludeSheetName
  }

  /** The rows below `n` whose selection is `s`, in increasing order. */
  function IndicesWith(sel: map<nat, Status>, s: Status, n: nat): seq<nat>
  {
    if n == 0 then []
    else IndicesWith(sel, s, n - 1) + (if n - 1 in sel && sel[n - 1] == s then [n - 1] else [])
  }

  function Range(n: nat): (r: seq<nat>)
    ensures |r| == n && forall i :: 0 <= i < n ==> r[i] == i
  {
    seq(n, i requires 0 <= i < n => i)
  }

  /** The note cell of row `i` before any session note is written: the
      table's own `备注` cell, or the empty text of a freshly added column. */
  function BaseNote(t: Table, i: nat): Cell
    requires t.WellFormed() && i < |t.rows|
  {
    if NoteColumn in t.columns then CellAt(t, i, NoteColumn) else Text("")
  }

  function FullNotes(t: Table, notes: map<nat, Cell>): seq<Cell>
    requires t.WellFormed()
  {
    seq(|t.rows|, i requires 0 <= i < |t.rows| => if i in notes then notes[i] else BaseNote(t, i))
  }

  function FullFills(sel: map<nat, Status>, n: nat): seq<Option<Fill>> {
    seq(n, i requires 0 <= i < n => if i in sel then Some(StatusFill(sel[i])) else None)
  }

  function AllSheet(t: Table, sel: map<nat, Status>, notes: map<nat, Cell>): Sheet
    requires t.WellFormed()
  {
    Sheet(AllSheetName, Range(|t.rows|), Some(FullNotes(t, notes)), FullFills(sel, |t.rows|))
  }

  /** The note column of a filtered sheet. The sheet is cut from the loaded
      table, so it has a `备注` column only if the table had one or one of its
      rows has a session note (writing that note adds the column); rows
      without a session note keep the table's cell, or are missing. Notes are
      looked up by the row's original index. */
  function FilteredNotes(t: Table, idx: seq<nat>, notes: map<nat, Cell>): Option<seq<Cell>>
    requires t.WellFormed() && forall j :: 0 <= j < |idx| ==> idx[j] < |t.rows|
  {
    if NoteColumn in t.columns || exists j :: 0 <= j < |idx| && idx[j] in notes then
      Some(seq(|idx|, j requires 0 <= j < |idx| =>
        if idx[j] in notes then notes[idx[j]]
        else if NoteColumn in t.columns then CellAt(t, idx[j], NoteColumn)
        else Missing))
    else None
  }

  function FilteredSheet(t: Table, s: Status, sel: map<nat, Status>, notes: map<nat, Cell>): Sheet
    requires t.WellFormed()
  {
    var idx := IndicesWith(sel, s, |t.rows|);
    IndicesWithBounds(sel, s, |t.rows|);
    Sheet(SheetName(s), idx, FilteredNotes(t, idx, notes),
          seq(|idx|, j requires 0 <= j < |idx| => Some(SheetFill(s))))
  }

  /** The workbook an export produces, or None when no table is loaded. */
  function ExportSpec(df: Option<Table>, sel: map<nat, Status>, notes: map<nat, Cell>): Option<Workbook>
    requires df.Some? ==> df.value.WellFormed()
  {
    match df
    case None => None
    case Some(t) =>
      Some(Workbook(AllSheet(t, sel, notes), FilteredSheet(t, Include, sel, notes),
                    FilteredSheet(t, Pending, sel, notes), FilteredSheet(t, Exclude, sel, notes)))
  }

  // ---------------------------------------------------------------------
  // Properties of the partition.
  // ---------------------------------------------------------------------

  lemma {:induction false} IndicesWithBounds(sel: map<nat, Status>, s: Status, n: nat)
    ensures |IndicesWith(sel, s, n)| <= n
    ensures forall j :: 0 <= j < |IndicesWith(sel, s, n)| ==> IndicesWith(sel, s, n)[j] < n
  {
    if n > 0 {
      IndicesWithBounds(sel, s, n - 1);
    }
  }

  /** A filtered list holds exactly the rows whose selection is its status,
      each once, in strictly increasing order. */
  lemma {:induction false} IndicesWithSpec(sel: map<nat, Status>, s: Status, n: nat)
    ensures forall k :: k in IndicesWith(sel, s, n) <==> k < n && k in sel && sel[k] == s
    ensures forall i, j :: 0 <= i < j < |IndicesWith(sel, s, n)| ==>
      IndicesWith(sel, s, n)[i] < IndicesWith(sel, s, n)[j]
  {
    if n > 0 {
      IndicesWithSpec(sel, s, n - 1);
      IndicesWithBounds(sel, s, n - 1);
    }
  }

  /** Different statuses give disjoint lists. */
  lemma PartitionDisjoint(sel: map<nat, Status>, s1: Status, s2: Status, n: nat, k: nat)
    requires s1 != s2
    ensures !(k in IndicesWith(sel, s1, n) && k in IndicesWith(sel, s2, n))
  {
    IndicesWithSpec(sel, s1, n);
    IndicesWithSpec(sel, s2, n);
  }

  /** The number of rows below `n` that have a selection. */
  function Selected(sel: map<nat, Status>, n: nat): set<nat> {
    set k | k in sel && k < n
  }

  /** The three lists together hold each selected row once: their sizes add
      up to the number of selected rows, which is at most the row count. */
  lemma {:induction false} PartitionSizes(sel: map<nat, Status>, n: nat)
    ensures |IndicesWith(sel, Include, n)| + |IndicesWith(sel, Pending, n)| + |IndicesWith(sel, Exclude, n)|
            == |Selected(sel, n)|
    ensures |Selected(sel, n)| <= n
  {
    if n == 0 {
      assert Selected(sel, n) == {};
    } else {
      PartitionSizes(sel, n - 1);
      if n - 1 in sel {
        assert Selected(sel, n) == Selected(sel, n - 1) + {n - 1};
        assert n - 1 !in Selected(sel, n - 1);
      } else {
        assert Selected(sel, n) == Selected(sel, n - 1);
      }
    }
  }

  /** When every selection key is a row of the table (as the session keeps
      it), the number of processed records is the number of selection keys,
      so it never exceeds the row count. */
  lemma ProcessedBounded(sel: map<nat, Status>, n: nat)
    requires forall k :: k in sel ==> k < n
    ensures |sel| == |Selected(sel, n)| <= n
  {
    assert sel.Keys == Selected(sel, n);
    PartitionSizes(sel, n);
  }

  // ---------------------------------------------------------------------
  // Properties of the workbook.
  // ---------------------------------------------------------------------

  /** Without a loaded table there is nothing to export; with one (even an
      empty one) there is a workbook. */
  lemma ExportDefined(df: Option<Table>, sel: map<nat, Status>, notes: map<nat, Cell>)
    requires df.Some? ==> df.value.WellFormed()
    ensures ExportSpec(df, sel, notes).None? <==> df.None?
  {
  }

  /** The full sheet holds every record in order; a record's first cell is
      red when excluded, yellow when pending, green when included and not
      filled when it has no selection; its note is the session note, else the
      table's own `备注` cell, else the empty text. */
  lemma AllSheetSpec(t: Table, sel: map<nat, Status>, notes: map<nat, Cell>, i: nat)
    requires t.WellFormed() && i < |t.rows|
    ensures var a := AllSheet(t, sel, notes);
      |a.rows| == |t.rows| && a.rows[i] == i && |a.fills| == |t.rows| &&
      (a.fills[i] == Some(RedFill) <==> i in sel && sel[i] == Exclude) &&
      (a.fills[i] == Some(YellowFill) <==> i in sel && sel[i] == Pending) &&
      (a.fills[i] == Some(GreenFill) <==> i in sel && sel[i] == Include) &&
      (a.fills[i].None? <==> i !in sel) &&
      a.noteColumn.Some? && |a.noteColumn.value| == |t.rows| &&
      a.noteColumn.value[i] == (if i in notes then notes[i]
                                else if NoteColumn in t.columns then CellAt(t, i, NoteColumn)
                                else Text(""))
  {
  }

  /** A filtered sheet holds the rows of its status in table order, every
      first cell in the sheet's fixed colour, and each row's session note
      found by the row's original index; with no such rows it is header
      only. */
  lemma FilteredSheetSpec(t: Table, s: Status, sel: map<nat, Status>, notes: map<nat, Cell>)
    requires t.WellFormed()
    ensures var f := FilteredSheet(t, s, sel, notes);
      (forall k :: k in f.rows <==> k < |t.rows| && k in sel && sel[k] == s) &&
      (forall i, j :: 0 <= i < j < |f.rows| ==> f.rows[i] < f.rows[j]) &&
      |f.fills| == |f.rows| &&
      (forall j :: 0 <= j < |f.fills| ==> f.fills[j] == Some(SheetFill(s))) &&
      (f.rows == [] <==> forall k :: k in sel && k < |t.rows| ==> sel[k] != s) &&
      (forall j :: 0 <= j < |f.rows| && f.rows[j] in notes ==>
         f.noteColumn.Some? && |f.noteColumn.value| == |f.rows| && f.noteColumn.value[j] == notes[f.rows[j]])
  {
    var f := FilteredSheet(t, s, sel, notes);
    IndicesWithSpec(sel, s, |t.rows|);
    if f.rows != [] {
      assert f.rows[0] in f.rows;
    }
  }

  /** A three-record table with record 1 included, record 2 excluded and
      record 3 left unset. */
  lemma ThreeRecordScenario(t: Table)
    requires t.WellFormed() && |t.rows| == 3
    ensures var w := ExportSpec(Some(t), map[0 := Include, 1 := Exclude], map[]).value;
      w.all.rows == [0, 1, 2] && w.all.fills == [Some(GreenFill), Some(RedFill), None] &&
      w.included.rows == [0] && w.included.fills == [Some(GreenFill)] &&
      w.pending.rows == [] && w.pending.fills == [] &&
      w.excluded.rows == [1] && w.excluded.fills == [Some(ExcludeSheetFill)]
  {
    var sel := map[0 := Include, 1 := Exclude];
    assert IndicesWith(sel, Include, 3) == [0];
    assert IndicesWith(sel, Exclude, 3) == [1];
    assert IndicesWith(sel, Pending, 3) == [];
    assert Range(3) == [0, 1, 2];
    assert FullFills(sel, 3) == [Some(GreenFill), Some(RedFill), None];
    var inc := FilteredSheet(t, Include, sel, map[]);
    var exc := FilteredSheet(t, Exclude, sel, map[]);
    assert inc.rows == [0] && |inc.fills| == 1 && inc.fills[0] == Some(SheetFill(Include));
    assert exc.rows == [1] && |exc.fills| == 1 && exc.fills[0] == Some(SheetFill(Exclude));
  }

  // ---------------------------------------------------------------------
  // The export as the program performs it.
  // ---------------------------------------------------------------------

  /** The note column of a filtered sheet, written row by row. */
  method FilteredNoteColumn(t: Table, idx: seq<nat>, notes: map<nat, Cell>) returns (col: Option<seq<Cell>>)
    requires t.WellFormed() && forall j :: 0 <= j < |idx| ==> idx[j] < |t.rows|
    ensures col == FilteredNotes(t, idx, notes)
  {
    col := if NoteColumn in t.columns
      then Some(seq(|idx|, j requires 0 <= j < |idx| => CellAt(t, idx[j], NoteColumn)))
      else None;
    var j := 0;
    while j < |idx|
      invariant 0 <= j <= |idx|
      invariant col.Some? <==> NoteColumn in t.columns || exists k :: 0 <= k < j && idx[k] in notes
      invariant col.Some? ==> |col.value| == |idx| && forall k :: 0 <= k < |idx| ==>
        col.value[k] == (if k < j && idx[k] in notes then notes[idx[k]]
                         else if NoteColumn in t.columns then CellAt(t, idx[k], NoteColumn)
                         else Missing)
    {
      if idx[j] in notes {
        var base := if col.Some? then col.value else seq(|idx|, k requires 0 <= k < |idx| => Missing);
        col := Some(base[j := notes[idx[j]]]);
      }
      j := j + 1;
    }
    if col.Some? {
      assert FilteredNotes(t, idx, notes).Some?;
      assert col.value == FilteredNotes(t, idx, notes).value;
    } else {
      assert !exists k :: 0 <= k < |idx| && idx[k] in notes;
    }
  }

  /** The fills of a filtered sheet: every row's first cell in the sheet's
      colour, and nothing on a header-only sheet. */
  method FilteredFills(count: nat, fill: Fill) returns (fills: seq<Option<Fill>>)
    ensures fills == seq(count, j requires 0 <= j < count => Some(fill))
  {
    var cells := new Option<Fill>[count](_ => None);
    if count > 0 {
      var i := 0;
      while i < count
        invariant 0 <= i <= count
        invariant forall k :: 0 <= k < count ==> cells[k] == (if k < i then Some(fill) else None)
      {
        cells[i] := Some(fill);
        i := i + 1;
      }
    }
    fills := cells[..];
  }

  /** The `备注` column of the full sheet: the table's own column, or a new
      empty one, overwritten row by row with the session notes. */
  method FullNoteColumn(t: Table, notes: map<nat, Cell>) returns (noteCol: seq<Cell>)
    requires t.WellFormed()
    ensures noteCol == FullNotes(t, notes)
  {
    var n := |t.rows|;
    noteCol := seq(n, i requires 0 <= i < n => BaseNote(t, i));
    var i := 0;
    while i < n
      invariant 0 <= i <= n && |noteCol| == n
      invariant forall k :: 0 <= k < n ==> noteCol[k] == if k < i && k in notes then notes[k] else BaseNote(t, k)
    {
      if i in notes {
        noteCol := noteCol[i := notes[i]];
      }
      i := i + 1;
    }
  }

  /** One pass over the rows sorting each selected row into the list of its
      status. */
  method Partition(sel: map<nat, Status>, n: nat) returns (included: seq<nat>, pending: seq<nat>, excluded: seq<nat>)
    ensures included == IndicesWith(sel, Include, n)
    ensures pending == IndicesWith(sel, Pending, n)
    ensures excluded == IndicesWith(sel, Exclude, n)
  {
    included, pending, excluded := [], [], [];
    var idx := 0;
    while idx < n
      invariant 0 <= idx <= n
      invariant included == IndicesWith(sel, Include, idx)
      invariant pending == IndicesWith(sel, Pending, idx)
      invariant excluded == IndicesWith(sel, Exclude, idx)
    {
      if idx in sel {
        match sel[idx]
        case Include => included := included + [idx];
        case Pending => pending := pending + [idx];
        case Exclude => excluded := excluded + [idx];
      }
      idx := idx + 1;
    }
  }

  /** The status colours of the full sheet's first cells, set in place. */
  method StatusFills(sel: map<nat, Status>, n: nat) returns (r: seq<Option<Fill>>)
    ensures r == FullFills(sel, n)
  {
    var fills := new Option<Fill>[n](_ => None);
    var i := 0;
    while i < n
      invariant 0 <= i <= n
      invariant forall k :: 0 <= k < n ==> fills[k] == if k < i && k in sel then Some(StatusFill(sel[k])) else None
    {
      if i in sel {
        match sel[i]
        case Exclude => fills[i] := Some(RedFill);
        case Pending => fills[i] := Some(YellowFill);
        case Include => fills[i] := Some(GreenFill);
      }
      i := i + 1;
    }
    r := fills[..];
  }

  /** Saving the results: the full sheet with its note column and status
      colours, and the three filtered sheets with their note columns and
      fixed colours. */
  method SaveResults(df: Option<Table>, sel: map<nat, Status>, notes: map<nat, Cell>)
    returns (wb: Option<Workbook>)
    requires df.Some? ==> df.value.WellFormed()
    ensures wb == ExportSpec(df, sel, notes)
  {
    if df.None? {
      return None;
    }
    var t := df.value;
    var n := |t.rows|;
    var noteCol := FullNoteColumn(t, notes);
    var included, pending, excluded := Partition(sel, n);
    IndicesWithBounds(sel, Include, n);
    IndicesWithBounds(sel, Pending, n);
    IndicesWithBounds(sel, Exclude, n);
    var includeNotes := FilteredNoteColumn(t, included, notes);
    var pendingNotes := FilteredNoteColumn(t, pending, notes);
    var excludeNotes := FilteredNoteColumn(t, excluded, notes);
    var fills := StatusFills(sel, n);
    var includeFills := FilteredFills(|included|, SheetFill(Include));
    var pendingFills := FilteredFills(|pending|, SheetFill(Pending));
    var excludeFills := FilteredFills(|excluded|, SheetFill(Exclude));
    wb := Some(Workbook(
      Sheet(AllSheetName, Range(n), Some(noteCol), fills),
      Sheet(IncludeSheetName, included, includeNotes, includeFills),
      Sheet(PendingSheetName, pending, pendingNotes, pendingFills),
      Sheet(ExcludeSheetName, excluded, excludeNotes, excludeFills)));
  }
}
