# Literature screening tool — Dafny model

This project models the logic of a single-reviewer literature screening tool,
leaving out its user interface. The tool loads a spreadsheet of bibliographic
records and suggests which columns hold the title, the abstract and their
translations. The reviewer confirms that column mapping and picks extra
columns to show. They then page through the records, tag each one 纳入
(include), 待定 (pending) or 排除 (exclude) and write notes. The tool exports
a workbook with a colour-coded full sheet and three filtered sheets.

Modules, one per component of `MyLiteratureApp/app.py`:

- `Records` (table.dfy): cells, tables, the three statuses, the reserved
  columns `序号` and `备注`, and the `序号` column that loading inserts.
- `ColumnDetection` (column_detection.dfy): the column-name classifier behind
  the mapping suggestions, written as pure functions. It matches
  case-insensitive substrings against the three keyword lists as the
  program does (see "Left out" for the ASCII-only lower-casing). One consequence: "Abstract Translation" is a
  title-translation candidate, because "ti" occurs in "translation".
- `CustomColumns` (custom_columns.dfy): the extra-column registry. The
  program keeps the registry in a Python dict, which remembers insertion
  order, and that order decides the display order. The model therefore keeps
  it as a sequence of entries with distinct names. Reconciliation is an
  imperative method over a copy of the registry, with two loops, proved equal
  to the specification function `Reconciled`. The per-zone grouping for
  display is a pure function.
- `Export` (export.dfy): saving the results. Nothing is written to a file. A
  sheet is the list of original row indices it holds, its `备注` column and
  the fill colour of each row's first cell. The program builds the note
  columns, the three index lists and the fills with loops, so the model does
  too. `SaveResults` is proved equal to the function `ExportSpec`, and the
  lemmas state the partition and colour properties of `ExportSpec`.
- `Session` (session.dfy): the session state as a class, one field per
  session variable the core uses. Its methods are the commands: upload/load,
  configuring extra columns, confirming and resetting the mapping, the
  auto-advance checkbox and pause button, the previous/next/jump controls,
  classification, and the note box. `Valid()` keeps the cursor in bounds and
  keeps every selection key and note key a row of the table. It also keeps
  the registered extra columns apart from the columns of a confirmed mapping.

Points where the code's behaviour is easy to misread; the model follows the code:

- A loaded table with zero rows still exports. Only the absence of a table
  stops the export (app.py:207-209).
- The filtered sheets are cut from the loaded table, not from the full sheet
  that gained the note column. A filtered sheet therefore has a `备注` column
  only if the table had one, or if one of its rows has a session note (writing
  that note adds the column). Its other rows then hold a missing value.
- Notes on the filtered sheets are looked up by the row's original index. The
  copied rows keep their original index labels, so the lookup in
  app.py:249-262 finds the right rows.
- The jump box does not clamp. Its widget only accepts record numbers 1..N,
  which the model states as a precondition of `Jump`.
- When the mapping choice makes a registered extra column unselectable, the
  program does not quietly drop it. The multiselect starts from the registered
  columns (app.py:508-513) and refuses a default that is not among its
  options, so that run stops with nothing changed. `ConfigureExtraColumns`
  models this as `ok == false` with the registry unchanged.

## Model

| member | source | states |
|---|---|---|
| `Records.WithSerialProperties` | MyLiteratureApp/app.py:430-432 | Loading keeps the row count and the table's shape, and guarantees a `序号` column. When the column was absent, it is inserted first, holds 1..N in row order, and every original cell shifts one place right. When it was present, the table is unchanged. |
| `ColumnDetection.ContainsIff` | MyLiteratureApp/app.py:187-198 | The substring scan used for `keyword in col_lower` is true exactly when some window of the name equals the keyword. |
| `ColumnDetection.DetectIsSelect` | MyLiteratureApp/app.py:171-203 | Each of the four candidate lists, built by appending while visiting the columns in order, equals the order-preserving selection of the columns of that class. |
| `ColumnDetection.DetectMembers` | MyLiteratureApp/app.py:186-201 | A name is in a candidate list iff it is a column whose classification is that list, in both directions. |
| `ColumnDetection.DetectAtMostOneList` | MyLiteratureApp/app.py:189-201 | No column is put in two different candidate lists. |
| `ColumnDetection.DetectSize` | MyLiteratureApp/app.py:186-201 | The four lists together hold at most as many names as there are columns. |
| `ColumnDetection.TranslationWins` | MyLiteratureApp/app.py:189-201 | A column with a translation keyword and a title or abstract keyword lands in a translation list and never in a base list. A column with a title keyword never lands in an abstract list, because the title test comes first (`elif`). |
| `ColumnDetection.AbstractTranslationIsTitleTranslation` | MyLiteratureApp/app.py:182-201 | "Abstract Translation" is classified as a title translation: "ti" occurs in "translation" and the title test runs first. Detecting that single column gives only the title-translation list `["Abstract Translation"]`. |
| `ColumnDetection.Suggestion` | MyLiteratureApp/app.py:461-494 | A selector's default is the empty choice when its candidate list is empty. Otherwise it is the first candidate (`candidates[...][0]`): a column of the table whose classification is that list, with no earlier column of the same class. |
| `CustomColumns.Available` | MyLiteratureApp/app.py:501 | The selectable extra columns are exactly the table's columns outside the reserved list, with none repeated when the columns are distinct. |
| `CustomColumns.AvailableExcludesReserved` | MyLiteratureApp/app.py:501 | A selectable extra column is a table column other than the four chosen mapping columns, `序号` and `备注`. |
| `CustomColumns.NotSelected` | MyLiteratureApp/app.py:575 | The list of columns to remove holds exactly the registered names that are not selected. |
| `CustomColumns.ReconciledSpec` | MyLiteratureApp/app.py:519-579 | After reconciliation the registry's names are exactly the selected columns, each once. A selected column keeps its stored configuration unless the widgets changed it. A newly selected one gets {display name = column, zone 原文信息栏, collapsed}. A deselected one has no entry. |
| `CustomColumns.DeselectForgets` | MyLiteratureApp/app.py:526-534 | A column that was deselected and is selected again, with no values entered, gets the default configuration back, not its earlier one. |
| `CustomColumns.StoreSelected` | MyLiteratureApp/app.py:519-571 | The pass over the selected columns leaves the stored entries in place, with the form's values for the selected ones. It appends the selected columns that were not stored, in selection order. |
| `CustomColumns.DeleteUnselected` | MyLiteratureApp/app.py:574-577 | Deleting the unselected names one at a time leaves exactly the selected entries, in their order. |
| `CustomColumns.Reconcile` | MyLiteratureApp/app.py:519-579 | The form's update of the registry copy equals `Reconciled`: stored entries still selected come first, in their old order, followed by the new selections in selection order. |
| `CustomColumns.ZoneLayoutSpec` | MyLiteratureApp/app.py:943-960 | A zone's display order is a permutation of the registry entries placed in that zone, and contains no entry of another zone. Every non-collapsed column comes before every collapsed one. |
| `CustomColumns.ZoneLayoutOrder` | MyLiteratureApp/app.py:943-960 | With distinct registry names, the plain group and the collapsed group of a zone each list their columns in registry (insertion) order. |
| `CustomColumns.ZoneExpander` | MyLiteratureApp/app.py:970-971 | The "更多信息" disclosure element is drawn iff the zone has a collapsed entry, whether or not any of those entries has a value for the record. |
| `CustomColumns.RenderedMembers` | MyLiteratureApp/app.py:962-978 | A zone shows exactly the registry entries placed in it whose column exists in the table and whose cell for the current record is not missing. After a collapsed column, only collapsed columns are shown. |
| `CustomColumns.RenderedOrder` | MyLiteratureApp/app.py:962-978 | With distinct registry names, two shown columns with the same collapse flag appear in registry order. Together with `RenderedMembers`, this fixes the whole display order of a zone. |
| `Export.IndicesWithSpec` | MyLiteratureApp/app.py:232-241 | Each status list holds exactly the rows whose selection is that status, in strictly increasing order. |
| `Export.PartitionDisjoint` | MyLiteratureApp/app.py:233-241 | The include, pending and exclude lists are pairwise disjoint. |
| `Export.PartitionSizes` | MyLiteratureApp/app.py:228-246 | The three list sizes add up to the number of selected rows, which is at most the row count. |
| `Export.ProcessedBounded` | MyLiteratureApp/app.py:652-653 | When every selection key is a row, the processed count `len(selections)` equals the number of selected rows and is at most the row count. |
| `Export.ExportDefined` | MyLiteratureApp/app.py:207-209 | Export yields nothing exactly when no table is loaded. An empty table still exports. |
| `Export.AllSheetSpec` | MyLiteratureApp/app.py:215-225 | The full sheet has every record in order. A row's first cell is FFFF0000 iff excluded, FFFFFF00 iff pending, FF90EE90 iff included, and unfilled iff unselected (app.py:286-301). Each row's note is the session note, else the table's own `备注` cell, else the empty text. |
| `Export.FilteredSheetSpec` | MyLiteratureApp/app.py:244-262 | A filtered sheet holds exactly the rows of its status, in increasing order. Every first cell has the sheet's fixed colour (app.py:303-318). The sheet is header-only iff no row has that status. Each row's session note is found by the row's original index. |
| `Export.ThreeRecordScenario` | MyLiteratureApp/app.py:228-318 | Three records, with record 1 included, record 2 excluded and record 3 unset, give: the full sheet (rows 0,1,2; green, red, unfilled), an included sheet with row 0 in green, a header-only pending sheet, and an excluded sheet with row 1 in FFFFCCCC. |
| `Export.FullNoteColumn` | MyLiteratureApp/app.py:217-225 | The loop writing session notes into the full sheet's `备注` column yields the session note where there is one and the base note elsewhere. |
| `Export.Partition` | MyLiteratureApp/app.py:227-241 | The single append loop over the rows yields the three status lists of `IndicesWith`. |
| `Export.FilteredNoteColumn` | MyLiteratureApp/app.py:244-262 | Writing each row's note into a filtered sheet yields `FilteredNotes`. The column is added only when the table lacks it and some row has a note, and rows without a note are missing. |
| `Export.StatusFills` | MyLiteratureApp/app.py:286-301 | The fill loop over the full sheet yields the status colour for each selected row and no fill otherwise. |
| `Export.FilteredFills` | MyLiteratureApp/app.py:304-318 | A filtered sheet's fill loop colours every row's first cell with the sheet's colour, and does nothing on a header-only sheet. |
| `Export.SaveResults` | MyLiteratureApp/app.py:205-262 | Saving yields exactly `ExportSpec`: no workbook without a table. Otherwise the full sheet plus the three filtered sheets, with their note columns and fills. |
| `Session.InitialNote` | MyLiteratureApp/app.py:820-825 | A record's starting note is never missing. It is the empty text when there is no `备注` column or the cell is missing, and the cell itself otherwise. |
| `Session.Session.constructor` | MyLiteratureApp/app.py:146-168 | A new session has no table, an empty mapping, cursor 0, no selections, notes or extra columns, auto-advance on, nothing confirmed, and is valid. |
| `Session.Session.Upload` | MyLiteratureApp/app.py:425-447 | A new, readable file replaces the table (with `序号` ensured). It resets the cursor to 0, clears the selections, notes and extra columns, and unsets the mapping confirmation. A failed read, or the file already loaded, changes nothing. |
| `Session.Session.ConfigureExtraColumns` | MyLiteratureApp/app.py:501-582 | With no selectable column the registry becomes empty. Otherwise it becomes `Reconciled`, unless a registered column is no longer selectable, in which case nothing changes. Validity is kept: registered names stay distinct and are never `序号`, `备注` or a non-column. |
| `Session.Session.ConfirmMapping` | MyLiteratureApp/app.py:589-601 | Confirmation succeeds iff the title and abstract choices are both non-empty. It then stores the mapping with empty translation choices as None and ends the mapping step. On failure nothing changes. The button is reached only after the extra-column part of the form accepted the registry for the same four choices (app.py:501-582), so every registered column is selectable for them. A confirmed mapping therefore never uses a registered extra column, and `Valid()` keeps this. |
| `Session.Session.ResetMapping` | MyLiteratureApp/app.py:604-607 | Reset empties the mapping and the whole extra-column registry. |
| `Session.Session.SetAutoAdvance` | MyLiteratureApp/app.py:616-620 | The checkbox sets auto-advance. Nothing else can change (frame). |
| `Session.Session.ToggleAutoAdvance` | MyLiteratureApp/app.py:801-805 | The pause button flips auto-advance and changes no selection, note or cursor (frame). |
| `Session.Session.Previous` | MyLiteratureApp/app.py:627-629 | The cursor moves back by one only when it is past the first record, and stays in bounds. |
| `Session.Session.Next` | MyLiteratureApp/app.py:631-634 | The cursor moves forward by one only when it is before the last record, and stays in bounds. |
| `Session.Session.Jump` | MyLiteratureApp/app.py:636-647 | Jumping to record number t in 1..N sets the cursor to t-1. |
| `Session.Session.Classify` | MyLiteratureApp/app.py:328-344 | It sets the selection of the current record to the choice and leaves every other selection unchanged. It stores the current note text under the current record when there is one. It advances the cursor by exactly one iff auto-advance is on and the record is not the last. The cursor stays in bounds. |
| `Session.Session.InitNote` | MyLiteratureApp/app.py:819-825 | A current record without a note gets `InitialNote`; one that has a note keeps it. |
| `Session.Session.EditNote` | MyLiteratureApp/app.py:827-840 | The note box's text becomes the current record's note and the current note. |
| `Session.Session.PreviousSavingNote` | MyLiteratureApp/app.py:848-853 | Past the first record, it saves the note box's text under the current record and moves back one. On the first record it does nothing. |
| `Session.Session.NextSavingNote` | MyLiteratureApp/app.py:858-863 | Before the last record, it saves the note box's text under the current record and moves on one. On the last record it does nothing. |
| `Session.Session.Progress` | MyLiteratureApp/app.py:652-653 | The progress figures are `len(selections)` and the record count, and the first is at most the second. |
| `Session.Session.Save` | MyLiteratureApp/app.py:678-679 | The export button yields `ExportSpec` of the session's table, selections and notes. |

## Left out

- All rendering is left out, because it has no logic to model: the page
  layout, CSS (app.py:23-143), headings, status badges, info boxes, the
  welcome screen and example table, the reruns, and
  `display_custom_column_value` (which only picks a widget by text length).
- File upload and spreadsheet parsing are I/O and are not modelled. The
  parsed table, or None for a read failure, is a parameter of `Upload`.
- Temporary files, workbook writing and saving, the download button and
  deleting the file are I/O and are not modelled. A write that raises
  (app.py:324-326) is not modelled either: `SaveResults` always yields a
  workbook once a table is loaded.
- The progress ratio and percentage (app.py:654-657) are floating point.
  Only the integer bound `len(selections) <= len(df)` is stated.
- The per-status counters (app.py:660-670) only display values and are not
  modelled.
- The font-size settings (app.py:361-403) and the `show_extra_columns` flag
  (never read) are presentation-only.
- `ColumnDetection.Lower`: lower-cases ASCII letters only. Python's
  `str.lower` also folds other scripts, and can change a string's length.
  The keyword lists are lower-case ASCII or Chinese, so only non-ASCII
  capitals in a column name are treated differently.
- Column names are always strings in the model. The `str(col)` conversion of
  non-string headers is not modelled.
- Table rows are addressed by position 0..N-1. This is the index the
  spreadsheet reader gives a freshly read table, and the one the code relies on.
- Cell values are missing, text or integers. Other cell types (floats, dates)
  are not distinguished.
- Streamlit's own widget state is not modelled. For example, a text input
  keyed by column name can keep a value across reruns. Such values are
  abstracted as the `edits` parameter of the registry reconciliation.
