/** The registry of extra columns a reviewer chose to show beside the title
    and abstract: for each column a display name, a zone of the page and a
    collapse flag. The registry is an insertion-ordered dictionary, so it is
    modelled as a sequence of entries with distinct names; the order decides
    the order in which the columns are shown. */
module CustomColumns {

  import opened Records

  /** The three page zones: 原文信息栏 (original), 翻译信息栏 (translation),
      分类选择后 (after the classification buttons). */
  datatype Zone = Original | Translation | AfterClassification

  datatype ColumnConfig = ColumnConfig(displayName: string, position: Zone, collapsed: bool)

  datatype Entry = Entry(name: string, config: ColumnConfig)

  /** The configuration a newly selected column starts with. */
  function DefaultConfig(col: string): ColumnConfig {
    ColumnConfig(col, Original, true)
  }

  function Names(d: seq<Entry>): (r: seq<string>)
    ensures |r| == |d| && forall i :: 0 <= i < |d| ==> r[i] == d[i].name
  {
    seq(|d|, i requires 0 <= i < |d| => d[i].name)
  }

  predicate Distinct(s: seq<string>) {
    forall i, j :: 0 <= i < j < |s| ==> s[i] != s[j]
  }

  lemma NamesConcat(a: seq<Entry>, b: seq<Entry>)
    ensures Names(a + b) == Names(a) + Names(b)
  {
  }

  /** The configuration stored under `k`, if any. */
  function Lookup(d: seq<Entry>, k: string): Option<ColumnConfig> {
    if d == [] then None
    else if d[0].name == k then Some(d[0].config)
    else Lookup(d[1..], k)
  }

  lemma {:induction false} LookupAt(d: seq<Entry>, k: string)
    requires Distinct(Names(d))
    ensures Lookup(d, k).Some? <==> k in Names(d)
    ensures forall j :: 0 <= j < |d| && d[j].name == k ==> Lookup(d, k) == Some(d[j].config)
  {
    if d != [] {
      assert Names(d[1..]) == Names(d)[1..];
      LookupAt(d[1..], k);
      if d[0].name != k {
        assert k in Names(d) ==> k in Names(d[1..]);
        forall j | 0 <= j < |d| && d[j].name == k ensures Lookup(d, k) == Some(d[j].config) {
          assert d[1..][j - 1] == d[j];
        }
      } else {
        forall j | 0 < j < |d| ensures d[j].name != k {
          assert Names(d)[0] != Names(d)[j];
        }
      }
    }
  }

  /** The columns that may be chosen as extra columns: the table's columns
      other than the four chosen mapping columns, `序号` and `备注`, in table
      order. */
  function Available(columns: seq<string>, reserved: seq<string>): (r: seq<string>)
    ensures |r| <= |columns|
    ensures forall x :: x in r <==> x in columns && x !in reserved
    ensures Distinct(columns) ==> Distinct(r)
  {
    if columns == [] then []
    else
      var rest := Available(columns[1..], reserved);
      if columns[0] in reserved then rest
      else
        assert Distinct(columns) ==> columns[0] !in columns[1..] by {
          if Distinct(columns) {
            forall j | 0 < j < |columns| ensures columns[j] != columns[0] { }
          }
        }
        [columns[0]] + rest
  }

  function AvailableColumns(columns: seq<string>, title: string, titleTrans: string,
                            abstractCol: string, abstractTrans: string): seq<string>
  {
    Available(columns, [title, titleTrans, abstractCol, abstractTrans, SerialColumn, NoteColumn])
  }

  lemma AvailableExcludesReserved(columns: seq<string>, title: string, titleTrans: string,
                                  abstractCol: string, abstractTrans: string, x: string)
    requires x in AvailableColumns(columns, title, titleTrans, abstractCol, abstractTrans)
    ensures x in columns
    ensures x != title && x != titleTrans && x != abstractCol && x != abstractTrans
    ensures x != SerialColumn && x != NoteColumn
  {
  }

  // ---------------------------------------------------------------------
  // Reconciliation of the registry with the current multiselect choice.
  // ---------------------------------------------------------------------

  /** The configuration the form holds for a selected column once its
      widgets are read: values the reviewer entered (`edits`) win; otherwise
      the widgets show the stored configuration, or the default one. */
  function WidgetConfig(current: seq<Entry>, edits: map<string, ColumnConfig>, col: string): ColumnConfig {
    if col in edits then edits[col]
    else match Lookup(current, col)
      case Some(c) => c
      case None => DefaultConfig(col)
  }

  /** An entry after the form pass over `done`: selected entries take the
      form's values, others stay. */
  function Refresh(e: Entry, done: seq<string>, edits: map<string, ColumnConfig>): Entry {
    if e.name in done then Entry(e.name, if e.name in edits then edits[e.name] else e.config) else e
  }

  /** The stored entries after the form pass over `done`, in place. */
  function Updated(current: seq<Entry>, done: seq<string>, edits: map<string, ColumnConfig>): (r: seq<Entry>)
    ensures |r| == |current| && forall j :: 0 <= j < |current| ==> r[j] == Refresh(current[j], done, edits)
  {
    seq(|current|, j requires 0 <= j < |current| => Refresh(current[j], done, edits))
  }

  /** The entries the form pass over `done` appends: the columns not yet
      stored, in selection order. */
  function Added(done: seq<string>, stored: seq<string>, edits: map<string, ColumnConfig>): seq<Entry> {
    if done == [] then []
    else
      var col := done[|done| - 1];
      Added(done[..|done| - 1], stored, edits) +
      (if col in stored then [] else [Entry(col, if col in edits then edits[col] else DefaultConfig(col))])
  }

  /** The entries whose names are selected. */
  function Keep(d: seq<Entry>, selected: seq<string>): seq<Entry> {
    if d == [] then []
    else (if d[0].name in selected then [d[0]] else []) + Keep(d[1..], selected)
  }

  /** The registry after reconciliation: the stored entries still selected,
      in their old order and with the form's values, followed by the newly
      selected columns in selection order. */
  function Reconciled(current: seq<Entry>, selected: seq<string>, edits: map<string, ColumnConfig>): seq<Entry> {
    Keep(Updated(current, selected, edits), selected) + Added(selected, Names(current), edits)
  }

  lemma {:induction false} AddedNames(done: seq<string>, stored: seq<string>, edits: map<string, ColumnConfig>)
    ensures forall k :: k in Names(Added(done, stored, edits)) <==> k in done && k !in stored
    ensures Distinct(done) ==> Distinct(Names(Added(done, stored, edits)))
  {
    if done != [] {
      var init, col := done[..|done| - 1], done[|done| - 1];
      assert done == init + [col];
      AddedNames(init, stored, edits);
      var tail := if col in stored then [] else [Entry(col, if col in edits then edits[col] else DefaultConfig(col))];
      NamesConcat(Added(init, stored, edits), tail);
      assert Names(tail) == if col in stored then [] else [col];
      forall k ensures k in Names(Added(done, stored, edits)) <==> k in done && k !in stored {
        assert k in done <==> k in init || k == col;
      }
      if Distinct(done) {
        assert Distinct(init) by {
          forall i, j | 0 <= i < j < |init| ensures init[i] != init[j] {
            assert init[i] == done[i] && init[j] == done[j];
          }
        }
        assert col !in init by {
          forall i | 0 <= i < |init| ensures init[i] != col {
            assert init[i] == done[i];
          }
        }
      }
    }
  }

  lemma {:induction false} KeepNames(d: seq<Entry>, selected: seq<string>)
    ensures forall k :: k in Names(Keep(d, selected)) <==> k in Names(d) && k in selected
    ensures Distinct(Names(d)) ==> Distinct(Names(Keep(d, selected)))
  {
    if d != [] {
      KeepNames(d[1..], selected);
      assert Names(d) == [d[0].name] + Names(d[1..]);
      var head := if d[0].name in selected then [d[0]] else [];
      NamesConcat(head, Keep(d[1..], selected));
      assert Names(head) == if d[0].name in selected then [d[0].name] else [];
      forall k ensures k in Names(Keep(d, selected)) <==> k in Names(d) && k in selected {
        assert k in Names(d) <==> k == d[0].name || k in Names(d[1..]);
      }
      if Distinct(Names(d)) {
        assert Distinct(Names(d[1..])) by {
          forall i, j | 0 <= i < j < |d[1..]| ensures Names(d[1..])[i] != Names(d[1..])[j] {
            assert Names(d)[i + 1] != Names(d)[j + 1];
          }
        }
        assert d[0].name !in Names(d[1..]) by {
          forall j | 0 <= j < |d[1..]| ensures Names(d[1..])[j] != d[0].name {
            assert Names(d)[0] != Names(d)[j + 1];
          }
        }
      }
    }
  }

  lemma {:induction false} KeepLookup(d: seq<Entry>, selected: seq<string>, k: string)
    requires k in selected
    ensures Lookup(Keep(d, selected), k) == Lookup(d, k)
  {
    if d != [] {
      KeepLookup(d[1..], selected, k);
      var head := if d[0].name in selected then [d[0]] else [];
      if head != [] {
        assert (head + Keep(d[1..], selected))[0] == d[0];
        assert (head + Keep(d[1..], selected))[1..] == Keep(d[1..], selected);
      } else {
        assert head + Keep(d[1..], selected) == Keep(d[1..], selected);
      }
    }
  }

  lemma {:induction false} AddedLookup(done: seq<string>, stored: seq<string>, edits: map<string, ColumnConfig>, k: string)
    requires k in done && k !in stored
    ensures Lookup(Added(done, stored, edits), k) == Some(if k in edits then edits[k] else DefaultConfig(k))
  {
    var init, col := done[..|done| - 1], done[|done| - 1];
    assert done == init + [col];
    var tail := if col in stored then [] else [Entry(col, if col in edits then edits[col] else DefaultConfig(col))];
    if k in init {
      AddedLookup(init, stored, edits, k);
      LookupConcatLeft(Added(init, stored, edits), tail, k);
    } else {
      AddedNames(init, stored, edits);
      LookupConcatRight(Added(init, stored, edits), tail, k);
    }
  }

  lemma {:induction false} LookupConcatLeft(a: seq<Entry>, b: seq<Entry>, k: string)
    requires Lookup(a, k).Some?
    ensures Lookup(a + b, k) == Lookup(a, k)
  {
    if a[0].name != k {
      assert (a + b)[1..] == a[1..] + b;
      LookupConcatLeft(a[1..], b, k);
    }
  }

  lemma {:induction false} LookupConcatRight(a: seq<Entry>, b: seq<Entry>, k: string)
    requires k !in Names(a)
    ensures Lookup(a + b, k) == Lookup(b, k)
  {
    if a != [] {
      assert a[0].name == Names(a)[0];
      assert (a + b)[1..] == a[1..] + b;
      assert Names(a[1..]) == Names(a)[1..];
      LookupConcatRight(a[1..], b, k);
    } else {
      assert a + b == b;
    }
  }

  lemma UpdatedNames(current: seq<Entry>, done: seq<string>, edits: map<string, ColumnConfig>)
    ensures Names(Updated(current, done, edits)) == Names(current)
  {
  }

  lemma {:induction false} UpdatedLookup(current: seq<Entry>, done: seq<string>, edits: map<string, ColumnConfig>, k: string)
    requires Distinct(Names(current)) && k in done && k in Names(current)
    ensures Lookup(Updated(current, done, edits), k) == Some(WidgetConfig(current, edits, k))
  {
    var u := Updated(current, done, edits);
    UpdatedNames(current, done, edits);
    LookupAt(current, k);
    LookupAt(u, k);
    var j :| 0 <= j < |current| && Names(current)[j] == k;
    assert u[j].name == k;
  }

  /** After reconciliation the registry holds exactly the selected columns,
      each once; a selected column keeps its stored configuration unless the
      reviewer changed it, a newly selected one starts from the default, and
      a deselected one is gone. */
  lemma ReconciledSpec(current: seq<Entry>, selected: seq<string>, edits: map<string, ColumnConfig>)
    requires Distinct(Names(current)) && Distinct(selected)
    ensures var r := Reconciled(current, selected, edits);
      Distinct(Names(r)) &&
      (forall k :: k in Names(r) <==> k in selected) &&
      (forall k :: k in selected ==> Lookup(r, k) == Some(WidgetConfig(current, edits, k))) &&
      (forall k :: k !in selected ==> Lookup(r, k).None?)
  {
    var u := Updated(current, selected, edits);
    var kept, added := Keep(u, selected), Added(selected, Names(current), edits);
    var r := kept + added;
    UpdatedNames(current, selected, edits);
    KeepNames(u, selected);
    AddedNames(selected, Names(current), edits);
    NamesConcat(kept, added);
    assert Distinct(Names(r)) by {
      forall i, j | 0 <= i < j < |r| ensures Names(r)[i] != Names(r)[j] {
        if j < |kept| {
          assert Names(r)[i] == Names(kept)[i] && Names(r)[j] == Names(kept)[j];
        } else if i >= |kept| {
          assert Names(r)[i] == Names(added)[i - |kept|] && Names(r)[j] == Names(added)[j - |kept|];
        } else {
          assert Names(r)[i] == Names(kept)[i] && Names(r)[j] == Names(added)[j - |kept|];
          assert Names(r)[i] in Names(kept) && Names(r)[j] in Names(added);
        }
      }
    }
    forall k | k in selected ensures Lookup(r, k) == Some(WidgetConfig(current, edits, k)) {
      if k in Names(current) {
        UpdatedLookup(current, selected, edits, k);
        KeepLookup(u, selected, k);
        LookupConcatLeft(kept, added, k);
      } else {
        LookupConcatRight(kept, added, k);
        AddedLookup(selected, Names(current), edits, k);
        LookupAt(current, k);
      }
    }
    forall k | k !in selected ensures Lookup(r, k).None? {
      LookupAt(r, k);
    }
  }

  /** A column that is deselected loses its configuration: selecting it
      again without entering values gives it the default configuration back. */
  lemma DeselectForgets(current: seq<Entry>, first: seq<string>, second: seq<string>,
                        edits1: map<string, ColumnConfig>, edits2: map<string, ColumnConfig>, col: string)
    requires Distinct(Names(current)) && Distinct(first) && Distinct(second)
    requires col !in first && col in second && col !in edits2
    ensures Lookup(Reconciled(Reconciled(current, first, edits1), second, edits2), col) == Some(DefaultConfig(col))
  {
    var mid := Reconciled(current, first, edits1);
    ReconciledSpec(current, first, edits1);
    ReconciledSpec(mid, second, edits2);
  }

  function Elements(s: seq<string>): set<string> {
    set x | x in s
  }

  /** Dropping every entry whose name is in `s`. */
  function Drop(d: seq<Entry>, s: set<string>): seq<Entry> {
    if d == [] then []
    else (if d[0].name in s then [] else [d[0]]) + Drop(d[1..], s)
  }

  lemma {:induction false} DropNothing(d: seq<Entry>)
    ensures Drop(d, {}) == d
  {
    if d != [] {
      DropNothing(d[1..]);
    }
  }

  lemma {:induction false} DropTwice(d: seq<Entry>, s: set<string>, x: string)
    ensures Drop(Drop(d, s), {x}) == Drop(d, s + {x})
  {
    if d != [] {
      DropTwice(d[1..], s, x);
      var head := if d[0].name in s then [] else [d[0]];
      DropConcat(head, Drop(d[1..], s), {x});
    }
  }

  lemma {:induction false} DropConcat(a: seq<Entry>, b: seq<Entry>, s: set<string>)
    ensures Drop(a + b, s) == Drop(a, s) + Drop(b, s)
  {
    if a != [] {
      assert (a + b)[1..] == a[1..] + b;
      DropConcat(a[1..], b, s);
    } else {
      assert a + b == b;
    }
  }

  /** Dropping the names outside the selection is keeping the selected ones. */
  lemma {:induction false} DropIsKeep(d: seq<Entry>, s: set<string>, selected: seq<string>)
    requires forall j :: 0 <= j < |d| ==> (d[j].name in s <==> d[j].name !in selected)
    ensures Drop(d, s) == Keep(d, selected)
  {
    if d != [] {
      DropIsKeep(d[1..], s, selected);
    }
  }

  /** The names of `names` that are not selected, in order
      (`[col for col in config if col not in selected]`). */
  function NotSelected(names: seq<string>, selected: seq<string>): (r: seq<string>)
    ensures forall x :: x in r <==> x in names && x !in selected
  {
    if names == [] then []
    else (if names[0] in selected then [] else [names[0]]) + NotSelected(names[1..], selected)
  }

  /** The form pass step for one selected column, shown to agree with the
      description of the intermediate state. */
  lemma StepExisting(current: seq<Entry>, done: seq<string>, edits: map<string, ColumnConfig>, col: string, p: nat)
    requires Distinct(Names(current)) && col !in done
    requires p < |current| && current[p].name == col
    ensures var d := Updated(current, done, edits) + Added(done, Names(current), edits);
      p < |d| && d[p] == current[p] &&
      d[p := Entry(col, if col in edits then edits[col] else current[p].config)] ==
        Updated(current, done + [col], edits) + Added(done + [col], Names(current), edits)
  {
    var d := Updated(current, done, edits) + Added(done, Names(current), edits);
    var init := done + [col];
    assert init[..|init| - 1] == done;
    assert Added(init, Names(current), edits) == Added(done, Names(current), edits);
    var lhs := d[p := Entry(col, if col in edits then edits[col] else current[p].config)];
    var rhs := Updated(current, init, edits) + Added(init, Names(current), edits);
    forall j | 0 <= j < |current| ensures lhs[j] == rhs[j] {
      if j != p {
        assert Names(current)[j] != Names(current)[p];
      }
    }
    assert |lhs| == |rhs|;
    forall j | |current| <= j < |lhs| ensures lhs[j] == rhs[j] { }
  }

  lemma StepNew(current: seq<Entry>, done: seq<string>, edits: map<string, ColumnConfig>, col: string)
    requires col !in done && col !in Names(current)
    ensures var d := Updated(current, done, edits) + Added(done, Names(current), edits);
      col !in Names(d) &&
      d + [Entry(col, if col in edits then edits[col] else DefaultConfig(col))] ==
        Updated(current, done + [col], edits) + Added(done + [col], Names(current), edits)
  {
    var u := Updated(current, done, edits);
    var a := Added(done, Names(current), edits);
    var init := done + [col];
    assert init[..|init| - 1] == done;
    UpdatedNames(current, done, edits);
    AddedNames(done, Names(current), edits);
    NamesConcat(u, a);
    assert Updated(current, init, edits) == u;
  }

  /** The first pass of the form over the selected columns, on a copy of
      the registry: each column's configuration is stored in place when the
      column is present and appended when it is new. */
  method StoreSelected(current: seq<Entry>, selected: seq<string>, edits: map<string, ColumnConfig>)
    returns (config: seq<Entry>)
    requires Distinct(Names(current)) && Distinct(selected)
    ensures config == Updated(current, selected, edits) + Added(selected, Names(current), edits)
  {
    config := current;
    var i := 0;
    while i < |selected|
      invariant 0 <= i <= |selected|
      invariant config == Updated(current, selected[..i], edits) + Added(selected[..i], Names(current), edits)
    {
      var col := selected[i];
      assert selected[..i + 1] == selected[..i] + [col];
      assert col !in selected[..i] by {
        forall j | 0 <= j < i ensures selected[j] != col { }
      }
      StepFacts(current, selected[..i], edits, col);
      var p := IndexOf(Names(config), col);
      if p < |config| {
        StepExisting(current, selected[..i], edits, col, p);
        var colConfig := if col in edits then edits[col] else config[p].config;
        config := config[p := Entry(col, colConfig)];
      } else {
        StepNew(current, selected[..i], edits, col);
        var colConfig := if col in edits then edits[col] else DefaultConfig(col);
        config := config + [Entry(col, colConfig)];
      }
      i := i + 1;
    }
    assert selected[..i] == selected;
  }

  /** Where a column is found in the intermediate registry: when it is
      found, it is at its place among the stored entries. */
  lemma StepFacts(current: seq<Entry>, done: seq<string>, edits: map<string, ColumnConfig>, col: string)
    requires col !in done
    ensures var d := Updated(current, done, edits) + Added(done, Names(current), edits);
      var p := IndexOf(Names(d), col);
      (p < |d| ==> p < |current| && current[p].name == col) &&
      (p == |d| ==> col !in Names(current))
  {
    var u := Updated(current, done, edits);
    var a := Added(done, Names(current), edits);
    UpdatedNames(current, done, edits);
    AddedNames(done, Names(current), edits);
    NamesConcat(u, a);
  }

  /** The second pass: every stored column that is no longer selected is
      deleted, one at a time. */
  method DeleteUnselected(passed: seq<Entry>, selected: seq<string>) returns (config: seq<Entry>)
    ensures config == Keep(passed, selected)
  {
    config := passed;
    var toRemove := NotSelected(Names(passed), selected);
    var j := 0;
    assert Elements(toRemove[..0]) == {};
    DropNothing(passed);
    while j < |toRemove|
      invariant 0 <= j <= |toRemove|
      invariant config == Drop(passed, Elements(toRemove[..j]))
    {
      DropTwice(passed, Elements(toRemove[..j]), toRemove[j]);
      assert Elements(toRemove[..j + 1]) == Elements(toRemove[..j]) + {toRemove[j]} by {
        assert toRemove[..j + 1] == toRemove[..j] + [toRemove[j]];
      }
      config := Drop(config, {toRemove[j]});
      j := j + 1;
    }
    assert toRemove[..j] == toRemove;
    DropIsKeep(passed, Elements(toRemove), selected);
  }

  /** The reconciliation the mapping form performs on a copy of the
      registry each time it is drawn. */
  method Reconcile(current: seq<Entry>, selected: seq<string>, edits: map<string, ColumnConfig>)
    returns (config: seq<Entry>)
    requires Distinct(Names(current)) && Distinct(selected)
    ensures config == Reconciled(current, selected, edits)
  {
    var passed := StoreSelected(current, selected, edits);
    config := DeleteUnselected(passed, selected);
    var u := Updated(current, selected, edits);
    var a := Added(selected, Names(current), edits);
    KeepConcat(u, a, selected);
    AddedNames(selected, Names(current), edits);
    KeepAll(a, selected);
  }

  lemma {:induction false} KeepConcat(a: seq<Entry>, b: seq<Entry>, selected: seq<string>)
    ensures Keep(a + b, selected) == Keep(a, selected) + Keep(b, selected)
  {
    if a != [] {
      assert (a + b)[1..] == a[1..] + b;
      KeepConcat(a[1..], b, selected);
    } else {
      assert a + b == b;
    }
  }

  lemma {:induction false} KeepAll(d: seq<Entry>, selected: seq<string>)
    requires forall j :: 0 <= j < |d| ==> d[j].name in selected
    ensures Keep(d, selected) == d
  {
    if d != [] {
      KeepAll(d[1..], selected);
    }
  }

  // ---------------------------------------------------------------------
  // Grouping for display.
  // ---------------------------------------------------------------------

  /** The registry's entries placed in `zone`, in registry order. */
  function InZone(d: seq<Entry>, zone: Zone): seq<Entry> {
    if d == [] then []
    else (if d[0].config.position == zone then [d[0]] else []) + InZone(d[1..], zone)
  }

  /** The entries whose collapse flag is `flag`, in order. */
  function WithCollapsed(d: seq<Entry>, flag: bool): seq<Entry> {
    if d == [] then []
    else (if d[0].config.collapsed == flag then [d[0]] else []) + WithCollapsed(d[1..], flag)
  }

  /** What one zone shows: first the plain columns, then, under a single
      disclosure element, the collapsed ones. */
  datatype ZoneView = ZoneView(direct: seq<Entry>, collapsed: seq<Entry>)
  {
    /** Whether the disclosure element is drawn. */
    predicate HasExpander() { collapsed != [] }
    function Order(): seq<Entry> { direct + collapsed }
  }

  function ZoneLayout(d: seq<Entry>, zone: Zone): ZoneView {
    var z := InZone(d, zone);
    ZoneView(WithCollapsed(z, false), WithCollapsed(z, true))
  }

  lemma {:induction false} InZoneMembers(d: seq<Entry>, zone: Zone)
    ensures forall e :: e in InZone(d, zone) <==> e in d && e.config.position == zone
  {
    if d != [] {
      InZoneMembers(d[1..], zone);
      assert d == [d[0]] + d[1..];
    }
  }

  lemma {:induction false} WithCollapsedSplit(d: seq<Entry>)
    ensures multiset(WithCollapsed(d, false)) + multiset(WithCollapsed(d, true)) == multiset(d)
    ensures forall e :: e in WithCollapsed(d, false) ==> !e.config.collapsed
    ensures forall e :: e in WithCollapsed(d, true) ==> e.config.collapsed
  {
    if d != [] {
      WithCollapsedSplit(d[1..]);
      assert d == [d[0]] + d[1..];
    }
  }

  /** A zone shows each of its entries exactly once (a permutation of the
      zone's entries), every plain column before every collapsed one, and
      no entry of another zone. */
  lemma ZoneLayoutSpec(d: seq<Entry>, zone: Zone)
    ensures multiset(ZoneLayout(d, zone).Order()) == multiset(InZone(d, zone))
    ensures forall e :: e in ZoneLayout(d, zone).Order() <==> e in d && e.config.position == zone
    ensures forall i, j :: (0 <= i < j < |ZoneLayout(d, zone).Order()| &&
      ZoneLayout(d, zone).Order()[i].config.collapsed) ==> ZoneLayout(d, zone).Order()[j].config.collapsed
  {
    var v := ZoneLayout(d, zone);
    var z := InZone(d, zone);
    WithCollapsedSplit(z);
    InZoneMembers(d, zone);
    assert multiset(v.Order()) == multiset(v.direct) + multiset(v.collapsed);
    forall e ensures e in v.Order() <==> e in z {
      assert e in v.Order() <==> e in multiset(v.Order());
      assert e in z <==> e in multiset(z);
    }
    forall i, j | 0 <= i < j < |v.Order()| && v.Order()[i].config.collapsed
      ensures v.Order()[j].config.collapsed
    {
      assert v.Order()[j] in v.collapsed;
    }
  }

  lemma {:induction false} WithCollapsedMembers(es: seq<Entry>, flag: bool)
    ensures forall e :: e in WithCollapsed(es, flag) <==> e in es && e.config.collapsed == flag
  {
    if es != [] {
      WithCollapsedMembers(es[1..], flag);
      assert es == [es[0]] + es[1..];
    }
  }

  /** The zone draws its disclosure element iff one of its entries is
      collapsed, whether or not those entries have a value. */
  lemma ZoneExpander(d: seq<Entry>, zone: Zone)
    ensures ZoneLayout(d, zone).HasExpander() <==>
      exists e :: e in d && e.config.position == zone && e.config.collapsed
  {
    var v := ZoneLayout(d, zone);
    InZoneMembers(d, zone);
    WithCollapsedMembers(InZone(d, zone), true);
    if v.collapsed != [] {
      assert v.collapsed[0] in v.collapsed;
    }
  }

  /** `r` lists entries in the registry order of `d`. */
  predicate InRegistryOrder(r: seq<Entry>, d: seq<Entry>) {
    forall i, j :: 0 <= i < j < |r| ==> IndexOf(Names(d), r[i].name) < IndexOf(Names(d), r[j].name)
  }

  /** With distinct names, the registry itself is in registry order. */
  lemma RegistryOrder(d: seq<Entry>)
    requires Distinct(Names(d))
    ensures InRegistryOrder(d, d)
  {
    forall i | 0 <= i < |d| ensures IndexOf(Names(d), d[i].name) == i {
      assert Names(d)[i] == d[i].name;
    }
  }

  lemma TailOrder(es: seq<Entry>, d: seq<Entry>)
    requires es != [] && InRegistryOrder(es, d)
    ensures InRegistryOrder(es[1..], d)
    ensures forall e :: e in es[1..] ==> IndexOf(Names(d), es[0].name) < IndexOf(Names(d), e.name)
  {
    forall i, j | 0 <= i < j < |es[1..]|
      ensures IndexOf(Names(d), es[1..][i].name) < IndexOf(Names(d), es[1..][j].name)
    {
      assert es[1..][i] == es[i + 1] && es[1..][j] == es[j + 1];
    }
    forall e | e in es[1..] ensures IndexOf(Names(d), es[0].name) < IndexOf(Names(d), e.name) {
      var k :| 0 <= k < |es[1..]| && es[1..][k] == e;
      assert es[k + 1] == e;
    }
  }

  lemma ConsOrder(x: Entry, r: seq<Entry>, d: seq<Entry>)
    requires InRegistryOrder(r, d)
    requires forall e :: e in r ==> IndexOf(Names(d), x.name) < IndexOf(Names(d), e.name)
    ensures InRegistryOrder([x] + r, d)
  {
    var c := [x] + r;
    forall i, j | 0 <= i < j < |c| ensures IndexOf(Names(d), c[i].name) < IndexOf(Names(d), c[j].name) {
      assert c[j] == r[j - 1];
      if i > 0 {
        assert c[i] == r[i - 1];
      }
    }
  }

  lemma {:induction false} InZoneOrder(es: seq<Entry>, zone: Zone, d: seq<Entry>)
    requires InRegistryOrder(es, d)
    ensures InRegistryOrder(InZone(es, zone), d)
  {
    if es != [] {
      TailOrder(es, d);
      InZoneOrder(es[1..], zone, d);
      InZoneMembers(es[1..], zone);
      if es[0].config.position == zone {
        ConsOrder(es[0], InZone(es[1..], zone), d);
      }
    }
  }

  lemma {:induction false} WithCollapsedOrder(es: seq<Entry>, flag: bool, d: seq<Entry>)
    requires InRegistryOrder(es, d)
    ensures InRegistryOrder(WithCollapsed(es, flag), d)
    ensures forall e :: e in WithCollapsed(es, flag) ==> e in es
  {
    if es != [] {
      TailOrder(es, d);
      WithCollapsedOrder(es[1..], flag, d);
      if es[0].config.collapsed == flag {
        ConsOrder(es[0], WithCollapsed(es[1..], flag), d);
      }
    }
  }

  /** Both groups of a zone keep the registry order: the columns are shown
      in the order in which they were added to the registry. */
  lemma ZoneLayoutOrder(d: seq<Entry>, zone: Zone)
    requires Distinct(Names(d))
    ensures InRegistryOrder(ZoneLayout(d, zone).direct, d)
    ensures InRegistryOrder(ZoneLayout(d, zone).collapsed, d)
  {
    RegistryOrder(d);
    InZoneOrder(d, zone, d);
    WithCollapsedOrder(InZone(d, zone), false, d);
    WithCollapsedOrder(InZone(d, zone), true, d);
  }

  /** The entries that produce output for record `row`: their column is in
      the table and the record's cell there is not missing. */
  function Visible(es: seq<Entry>, t: Table, row: nat): seq<Entry>
    requires t.WellFormed() && row < |t.rows|
  {
    if es == [] then []
    else
      (if es[0].name in t.columns && CellAt(t, row, es[0].name) != Missing then [es[0]] else []) +
      Visible(es[1..], t, row)
  }

  /** The extra columns a zone displays for record `row`, in display order. */
  function Rendered(d: seq<Entry>, zone: Zone, t: Table, row: nat): seq<Entry>
    requires t.WellFormed() && row < |t.rows|
  {
    var v := ZoneLayout(d, zone);
    Visible(v.direct, t, row) + Visible(v.collapsed, t, row)
  }

  lemma {:induction false} VisibleMembers(es: seq<Entry>, t: Table, row: nat)
    requires t.WellFormed() && row < |t.rows|
    ensures forall e :: e in Visible(es, t, row) <==>
      e in es && e.name in t.columns && CellAt(t, row, e.name) != Missing
  {
    if es != [] {
      VisibleMembers(es[1..], t, row);
      assert es == [es[0]] + es[1..];
    }
  }

  lemma {:induction false} VisibleOrder(es: seq<Entry>, t: Table, row: nat, d: seq<Entry>)
    requires t.WellFormed() && row < |t.rows|
    requires InRegistryOrder(es, d)
    ensures InRegistryOrder(Visible(es, t, row), d)
  {
    if es != [] {
      TailOrder(es, d);
      VisibleOrder(es[1..], t, row, d);
      VisibleMembers(es[1..], t, row);
      if es[0].name in t.columns && CellAt(t, row, es[0].name) != Missing {
        ConsOrder(es[0], Visible(es[1..], t, row), d);
      }
    }
  }

  /** Plain entries followed by collapsed ones: a collapsed entry is only
      ever followed by collapsed ones. */
  lemma PlainThenCollapsed(a: seq<Entry>, b: seq<Entry>)
    requires forall e :: e in a ==> !e.config.collapsed
    requires forall e :: e in b ==> e.config.collapsed
    ensures forall i, j :: 0 <= i < j < |a + b| && (a + b)[i].config.collapsed ==> (a + b)[j].config.collapsed
  {
    forall i, j | 0 <= i < j < |a + b| && (a + b)[i].config.collapsed ensures (a + b)[j].config.collapsed {
      if i >= |a| {
        assert (a + b)[j] == b[j - |a|];
      }
    }
  }

  /** Two groups, each in registry order and with its own collapse flag:
      entries with the same flag keep the registry order. */
  lemma GroupsInOrder(a: seq<Entry>, b: seq<Entry>, d: seq<Entry>)
    requires forall e :: e in a ==> !e.config.collapsed
    requires forall e :: e in b ==> e.config.collapsed
    requires InRegistryOrder(a, d) && InRegistryOrder(b, d)
    ensures forall i, j :: 0 <= i < j < |a + b| && (a + b)[i].config.collapsed == (a + b)[j].config.collapsed ==>
      IndexOf(Names(d), (a + b)[i].name) < IndexOf(Names(d), (a + b)[j].name)
  {
    var r := a + b;
    forall i, j | 0 <= i < j < |r| && r[i].config.collapsed == r[j].config.collapsed
      ensures IndexOf(Names(d), r[i].name) < IndexOf(Names(d), r[j].name)
    {
      if j < |a| {
        assert r[i] == a[i] && r[j] == a[j];
      } else if i >= |a| {
        assert r[i] == b[i - |a|] && r[j] == b[j - |a|];
      }
    }
  }

  /** A zone displays exactly those registry entries placed in it whose
      value is present for the record, every plain column before every
      collapsed one. */
  lemma RenderedMembers(d: seq<Entry>, zone: Zone, t: Table, row: nat)
    requires t.WellFormed() && row < |t.rows|
    ensures forall e :: e in Rendered(d, zone, t, row) <==>
      e in d && e.config.position == zone && e.name in t.columns && CellAt(t, row, e.name) != Missing
    ensures forall i, j :: (0 <= i < j < |Rendered(d, zone, t, row)| &&
      Rendered(d, zone, t, row)[i].config.collapsed) ==> Rendered(d, zone, t, row)[j].config.collapsed
  {
    var v := ZoneLayout(d, zone);
    ZoneLayoutSpec(d, zone);
    VisibleMembers(v.direct, t, row);
    VisibleMembers(v.collapsed, t, row);
    forall e ensures e in v.Order() <==> e in v.direct || e in v.collapsed { }
    WithCollapsedMembers(InZone(d, zone), false);
    WithCollapsedMembers(InZone(d, zone), true);
    PlainThenCollapsed(Visible(v.direct, t, row), Visible(v.collapsed, t, row));
  }

  /** Within each group the displayed columns keep the registry order, so
      two displayed columns with the same collapse flag appear in the order
      in which they were added to the registry. */
  lemma RenderedOrder(d: seq<Entry>, zone: Zone, t: Table, row: nat)
    requires t.WellFormed() && row < |t.rows|
    requires Distinct(Names(d))
    ensures forall i, j :: (0 <= i < j < |Rendered(d, zone, t, row)| &&
      Rendered(d, zone, t, row)[i].config.collapsed == Rendered(d, zone, t, row)[j].config.collapsed) ==>
      IndexOf(Names(d), Rendered(d, zone, t, row)[i].name) < IndexOf(Names(d), Rendered(d, zone, t, row)[j].name)
  {
    var v := ZoneLayout(d, zone);
    ZoneLayoutOrder(d, zone);
    WithCollapsedMembers(InZone(d, zone), false);
    WithCollapsedMembers(InZone(d, zone), true);
    VisibleMembers(v.direct, t, row);
    VisibleMembers(v.collapsed, t, row);
    VisibleOrder(v.direct, t, row, d);
    VisibleOrder(v.collapsed, t, row, d);
    GroupsInOrder(Visible(v.direct, t, row), Visible(v.collapsed, t, row), d);
  }
}
