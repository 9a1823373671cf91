/** The screening session: the state the interface keeps between user
    actions (the loaded table, the column mapping, the review cursor, the
    per-record selections and notes, the auto-advance flag and the extra
    column registry) and the commands that change it. */
module Session {

  import opened Records
  import opened CustomColumns
  import Export

  /** A confirmed column mapping; an empty translation choice is stored as
      None. */
  datatype ColumnMapping = ColumnMapping(title: string, titleTranslation: Option<string>,
                                         abstractCol: string, abstractTranslation: Option<string>)
  {
    /** Column `k` is one of the four mapped columns. */
    predicate Uses(k: string) {
      k == title || titleTranslation == Some(k) || k == abstractCol || abstractTranslation == Some(k)
    }
  }

  /** A choice on one of the mapping selectors: the empty choice or a
      column of the table. */
  predicate IsChoice(t: Table, c: string) {
    c == "" || c in t.columns
  }

  function OptionalChoice(c: string): Option<string> {
    if c == "" then None else Some(c)
  }

  /** The note a record starts with: its own `备注` cell, with a missing
      value or an absent column read as the empty text. */
  function InitialNote(t: Table, i: nat): (c: Cell)
    requires t.WellFormed() && i < |t.rows|
    ensures c != Missing
    ensures NoteColumn !in t.columns ==> c == Text("")
    ensures NoteColumn in t.columns && CellAt(t, i, NoteColumn) != Missing ==> c == CellAt(t, i, NoteColumn)
    ensures NoteColumn in t.columns && CellAt(t, i, NoteColumn) == Missing ==> c == Text("")
  {
    if NoteColumn in t.columns then
      var existing := CellAt(t, i, NoteColumn);
      if existing == Missing then Text("") else existing
    else Text("")
  }

  class Session {
    var df: Option<Table>
    var columnMapping: Option<ColumnMapping>
    var currentIndex: nat
    var selections: map<nat, Status>
    var notes: map<nat, Cell>
    var fileProcessed: bool
    var currentFilename: Option<string>
    var showColumnMapping: bool
    var mappingConfirmed: bool
    var autoAdvance: bool
    var extraColumns: seq<Entry>
    /** The text of the note box as last read, if it has been drawn. */
    var currentNote: Option<string>

    /** The number of records loaded. */
    function Count(): nat
      reads this
    {
      if df.Some? then df.value.Length() else 0
    }

    /** The cursor is a record of the table (0 when the table is empty). */
    predicate InBounds()
      reads this
    {
      if Count() == 0 then currentIndex == 0 else currentIndex < Count()
    }

    ghost predicate Valid()
      reads this
    {
      InBounds() &&
      (forall k :: k in selections ==> k < Count()) &&
      (forall k :: k in notes ==> k < Count()) &&
      Distinct(Names(extraColumns)) &&
      (df.None? ==> extraColumns == [] && !mappingConfirmed) &&
      (df.Some? ==>
         df.value.WellFormed() &&
         forall k :: k in Names(extraColumns) ==> k in df.value.columns && k != SerialColumn && k != NoteColumn) &&
      (mappingConfirmed ==>
         df.Some? && columnMapping.Some? &&
         columnMapping.value.title in df.value.columns && columnMapping.value.abstractCol in df.value.columns &&
         forall k :: k in Names(extraColumns) ==> !columnMapping.value.Uses(k))
    }

    /** A fresh session with the documented defaults. */
    constructor ()
      ensures Valid()
      ensures df == None && columnMapping == None && currentIndex == 0
      ensures selections == map[] && notes == map[] && extraColumns == []
      ensures !fileProcessed && currentFilename == None && !showColumnMapping
      ensures !mappingConfirmed && autoAdvance && currentNote == None
    {
      df := None;
      columnMapping := None;
      currentIndex := 0;
      selections := map[];
      notes := map[];
      fileProcessed := false;
      currentFilename := None;
      showColumnMapping := false;
      mappingConfirmed := false;
      autoAdvance := true;
      extraColumns := [];
      currentNote := None;
    }

    /** A file is handed over by the upload widget; `parsed` is what the
        spreadsheet reader made of it (None when it could not be read). A
        new file that reads replaces the table, gains a `序号` column when it
        has none, and resets the cursor, selections, notes, the registry and
        the mapping confirmation; a file that fails to read, or the file
        already loaded, changes nothing. */
    method Upload(name: string, parsed: Option<Table>)
      requires Valid()
      requires parsed.Some? ==> parsed.value.WellFormed()
      modifies this
      ensures Valid()
      ensures var reload := (!old(fileProcessed) || old(currentFilename) != Some(name)) && parsed.Some?;
        if reload then
          df == Some(WithSerial(parsed.value)) && currentFilename == Some(name) && fileProcessed &&
          showColumnMapping && !mappingConfirmed && currentIndex == 0 &&
          selections == map[] && notes == map[] && extraColumns == [] &&
          columnMapping == old(columnMapping) && autoAdvance == old(autoAdvance) &&
          currentNote == old(currentNote)
        else
          df == old(df) && currentFilename == old(currentFilename) && fileProcessed == old(fileProcessed) &&
          showColumnMapping == old(showColumnMapping) && mappingConfirmed == old(mappingConfirmed) &&
          currentIndex == old(currentIndex) && selections == old(selections) && notes == old(notes) &&
          extraColumns == old(extraColumns) && columnMapping == old(columnMapping) &&
          autoAdvance == old(autoAdvance) && currentNote == old(currentNote)
    {
      if !fileProcessed || currentFilename != Some(name) {
        if parsed.Some? {
          WithSerialProperties(parsed.value);
          df := Some(WithSerial(parsed.value));
          currentFilename := Some(name);
          fileProcessed := true;
          showColumnMapping := true;
          mappingConfirmed := false;
          currentIndex := 0;
          selections := map[];
          notes := map[];
          extraColumns := [];
        }
      }
    }

    /** The extra-column part of the mapping form, drawn with the four
        selector choices, the columns ticked in the multiselect and the
        values typed into the per-column widgets. With no selectable column
        the registry is emptied. Otherwise the multiselect starts from the
        registered columns, which the widget refuses (the run stops, nothing
        changes, `ok` is false) when one of them is no longer selectable;
        else the registry is reconciled with the choice. */
    method ConfigureExtraColumns(title: string, titleTrans: string, abstractCol: string, abstractTrans: string,
                                 selected: seq<string>, edits: map<string, ColumnConfig>) returns (ok: bool)
      requires Valid() && df.Some? && !mappingConfirmed
      requires Distinct(selected)
      requires forall x :: x in selected ==> x in AvailableColumns(df.value.columns, title, titleTrans, abstractCol, abstractTrans)
      modifies this`extraColumns
      ensures Valid()
      ensures var available := AvailableColumns(df.value.columns, title, titleTrans, abstractCol, abstractTrans);
        ok == (available == [] || forall k :: k in Names(old(extraColumns)) ==> k in available)
      ensures var available := AvailableColumns(df.value.columns, title, titleTrans, abstractCol, abstractTrans);
        extraColumns == if available == [] then []
                        else if ok then Reconciled(old(extraColumns), selected, edits)
                        else old(extraColumns)
    {
      var available := AvailableColumns(df.value.columns, title, titleTrans, abstractCol, abstractTrans);
      if available == [] {
        extraColumns := [];
        ok := true;
      } else if forall k :: k in Names(extraColumns) ==> k in available {
        ReconciledSpec(extraColumns, selected, edits);
        extraColumns := Reconcile(extraColumns, selected, edits);
        ok := true;
      } else {
        ok := false;
      }
    }

    /** The confirm button of the mapping form: it succeeds only when a title
        and an abstract column are chosen, storing empty translation choices
        as None and ending the mapping step. */
    method ConfirmMapping(title: string, titleTrans: string, abstractCol: string, abstractTrans: string)
      returns (ok: bool)
      requires Valid() && df.Some? && !mappingConfirmed
      requires IsChoice(df.value, title) && IsChoice(df.value, titleTrans)
      requires IsChoice(df.value, abstractCol) && IsChoice(df.value, abstractTrans)
      requires forall k :: k in Names(extraColumns) ==>
        k in AvailableColumns(df.value.columns, title, titleTrans, abstractCol, abstractTrans)
      modifies this`columnMapping, this`mappingConfirmed
      ensures Valid()
      ensures ok <==> title != "" && abstractCol != ""
      ensures ok ==> mappingConfirmed
      ensures ok ==> columnMapping == Some(ColumnMapping(title, OptionalChoice(titleTrans), abstractCol, OptionalChoice(abstractTrans)))
      ensures ok ==> forall k :: k in Names(extraColumns) ==> !columnMapping.value.Uses(k)
      ensures !ok ==> !mappingConfirmed && columnMapping == old(columnMapping)
    {
      if title == "" || abstractCol == "" {
        ok := false;
      } else {
        forall k | k in Names(extraColumns) ensures k != title && k != titleTrans && k != abstractCol && k != abstractTrans {
          AvailableExcludesReserved(df.value.columns, title, titleTrans, abstractCol, abstractTrans, k);
        }
        columnMapping := Some(ColumnMapping(title, OptionalChoice(titleTrans), abstractCol, OptionalChoice(abstractTrans)));
        mappingConfirmed := true;
        ok := true;
      }
    }

    /** The reset button of the mapping form: it forgets the mapping and the
        whole extra-column registry. */
    method ResetMapping()
      requires Valid() && df.Some? && !mappingConfirmed
      modifies this`columnMapping, this`extraColumns
      ensures Valid()
      ensures columnMapping == None && extraColumns == []
    {
      columnMapping := None;
      extraColumns := [];
    }

    /** The auto-advance checkbox of the sidebar. */
    method SetAutoAdvance(on: bool)
      requires Valid() && mappingConfirmed
      modifies this`autoAdvance
      ensures Valid()
      ensures autoAdvance == on
    {
      autoAdvance := on;
    }

    /** The pause button: it flips auto-advance and touches no selection. */
    method ToggleAutoAdvance()
      requires Valid() && mappingConfirmed
      modifies this`autoAdvance
      ensures Valid()
      ensures autoAdvance == !old(autoAdvance)
    {
      autoAdvance := !autoAdvance;
    }

    /** The sidebar's previous button, enabled only past the first record. */
    method Previous()
      requires Valid() && mappingConfirmed
      modifies this`currentIndex
      ensures Valid()
      ensures currentIndex == if old(currentIndex) > 0 then old(currentIndex) - 1 else old(currentIndex)
    {
      if currentIndex > 0 {
        currentIndex := currentIndex - 1;
      }
    }

    /** The sidebar's next button, enabled only before the last record. */
    method Next()
      requires Valid() && mappingConfirmed
      modifies this`currentIndex
      ensures Valid()
      ensures currentIndex == if old(currentIndex) < Count() - 1 then old(currentIndex) + 1 else old(currentIndex)
    {
      if currentIndex < Count() - 1 {
        currentIndex := currentIndex + 1;
      }
    }

    /** The jump box, which accepts record numbers 1..N. */
    method Jump(target: int)
      requires Valid() && mappingConfirmed
      requires 1 <= target <= Count()
      modifies this`currentIndex
      ensures Valid()
      ensures currentIndex == target - 1
    {
      if target - 1 != currentIndex {
        currentIndex := target - 1;
      }
    }

    /** A classification button on the current record: it stores the note
        box's last text under the record, records the choice, and moves to
        the next record only when auto-advance is on and this is not the last
        record. The buttons are drawn below the current record, so a record
        exists. */
    method Classify(choice: Status)
      requires Valid() && mappingConfirmed && Count() > 0
      modifies this`selections, this`notes, this`currentIndex
      ensures Valid()
      ensures selections == old(selections)[old(currentIndex) := choice]
      ensures notes == if currentNote.Some? then old(notes)[old(currentIndex) := Text(currentNote.value)] else old(notes)
      ensures currentIndex == if autoAdvance && old(currentIndex) < Count() - 1 then old(currentIndex) + 1
                              else old(currentIndex)
    {
      var idx := currentIndex;
      if currentNote.Some? {
        notes := notes[idx := Text(currentNote.value)];
      }
      selections := selections[idx := choice];
      if autoAdvance && idx < Count() - 1 {
        currentIndex := currentIndex + 1;
      }
    }

    /** Drawing the note box of the current record: a record without a note
        starts from its own `备注` cell. */
    method InitNote()
      requires Valid() && mappingConfirmed && Count() > 0
      modifies this`notes
      ensures Valid()
      ensures notes == if currentIndex in old(notes) then old(notes)
                       else old(notes)[currentIndex := InitialNote(df.value, currentIndex)]
    {
      if currentIndex !in notes {
        notes := notes[currentIndex := InitialNote(df.value, currentIndex)];
      }
    }

    /** Reading the note box: its text becomes the current record's note and
        the current note. */
    method EditNote(text: string)
      requires Valid() && mappingConfirmed && Count() > 0
      modifies this`notes, this`currentNote
      ensures Valid()
      ensures notes == old(notes)[currentIndex := Text(text)] && currentNote == Some(text)
    {
      notes := notes[currentIndex := Text(text)];
      currentNote := Some(text);
    }

    /** The previous button under the note box: it saves the note box's text
        and moves back; it is disabled on the first record. */
    method PreviousSavingNote(text: string)
      requires Valid() && mappingConfirmed && Count() > 0
      modifies this`notes, this`currentIndex
      ensures Valid()
      ensures old(currentIndex) > 0 ==>
        notes == old(notes)[old(currentIndex) := Text(text)] && currentIndex == old(currentIndex) - 1
      ensures old(currentIndex) == 0 ==> notes == old(notes) && currentIndex == 0
    {
      if currentIndex > 0 {
        notes := notes[currentIndex := Text(text)];
        currentIndex := currentIndex - 1;
      }
    }

    /** The next button under the note box: it saves the note box's text and
        moves on; it is disabled on the last record. */
    method NextSavingNote(text: string)
      requires Valid() && mappingConfirmed && Count() > 0
      modifies this`notes, this`currentIndex
      ensures Valid()
      ensures old(currentIndex) < Count() - 1 ==>
        notes == old(notes)[old(currentIndex) := Text(text)] && currentIndex == old(currentIndex) + 1
      ensures old(currentIndex) == Count() - 1 ==> notes == old(notes) && currentIndex == old(currentIndex)
    {
      if currentIndex < Count() - 1 {
        notes := notes[currentIndex := Text(text)];
        currentIndex := currentIndex + 1;
      }
    }

    /** The progress figures: records processed out of records loaded. */
    method Progress() returns (processed: nat, total: nat)
      requires Valid()
      ensures total == Count() && processed == |selections|
      ensures processed <= total
    {
      Export.ProcessedBounded(selections, Count());
      processed, total := |selections|, Count();
    }

    /** The export button. */
    method Save() returns (wb: Option<Export.Workbook>)
      requires Valid()
      ensures wb == Export.ExportSpec(df, selections, notes)
    {
      wb := Export.SaveResults(df, selections, notes);
    }
  }
}
