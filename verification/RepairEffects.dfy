/** What the planned statements are, and what executing them does to each column and index. */
module RepairEffects {
  import opened Wrappers
  import opened RepairPlan

  /** What the pinned migrations guarantee about the manifest. */
  ghost predicate ManifestOk(m: Manifest) {
    && (forall i, j :: 0 <= i < |m.tables| && 0 <= j < |m.tables| && m.tables[i].name == m.tables[j].name ==> i == j)
    && (forall i :: 0 <= i < |m.tables| ==> ColumnsDistinct(m.tables[i]))
    && (forall i, j :: 0 <= i < |m.indexes| && 0 <= j < |m.indexes| && m.indexes[i].name == m.indexes[j].name ==>
            i == j)
    && (forall i :: 0 <= i < |m.indexes| ==> IndexOk(m, m.indexes[i]))
    && SeedsDistinct(m.seeds)
  }

  ghost predicate ColumnsDistinct(t: TableSpec) {
    forall i, j :: 0 <= i < |t.columns| && 0 <= j < |t.columns| && t.columns[i].name == t.columns[j].name ==> i == j
  }

  ghost predicate IndexOk(m: Manifest, spec: IndexSpec) {
    && (Repairable(spec.name) ==> !spec.unique && spec.filter == "")
    && spec.table != USERS && exists t :: t in m.tables && t.name == spec.table
  }

  ghost predicate SeedsDistinct(seeds: seq<Seed>) {
    forall i, j :: 0 <= i < |seeds| && 0 <= j < |seeds|
                   && (SameKey(seeds[i], seeds[j]) || seeds[i].id == seeds[j].id) ==>
      i == j
  }

  // ---------- every planned statement is called for by the manifest ----------

  ghost predicate ColumnIn(m: Manifest, table: string, c: ColumnSpec) {
    exists t :: t in m.tables && t.name == table && c in t.columns
  }

  ghost predicate Wanted(m: Manifest, s: Statement) {
    match s
    case WidenIcon(table) =>
      table == ICON_TABLE && exists c :: ColumnIn(m, table, c) && c.name == ICON && c.kind == WIDE
    case SetDefault(table, column, value) =>
      exists c :: ColumnIn(m, table, c) && c.name == column && c.preset == Some(value)
    case CreateIndex(name, table, columns) =>
      exists x :: x in m.indexes && x.name == name && x.table == table && x.columns == columns && Repairable(name)
  }

  ghost predicate AllWanted(m: Manifest, ss: seq<Statement>) {
    forall s :: s in ss ==> Wanted(m, s)
  }

  lemma ColumnWanted(m: Manifest, t: TableSpec, strict: bool, c: ColumnSpec, actual: Column)
    requires t in m.tables && c in t.columns && PlanColumn(t.name, strict, c, actual).Ok?
    ensures AllWanted(m, PlanColumn(t.name, strict, c, actual).value)
  {
    assert ColumnIn(m, t.name, c);
  }

  lemma {:induction false} GatherFrom(parts: seq<Statements>, s: Statement) returns (k: nat)
    requires Gather(parts).Ok? && s in Gather(parts).value
    ensures k < |parts| && parts[k].Ok? && s in parts[k].value
  {
    var n := |parts| - 1;
    if s in Gather(parts[..n]).value {
      k := GatherFrom(parts[..n], s);
    } else {
      k := n;
    }
  }

  lemma {:induction false} GatherCovers(parts: seq<Statements>, k: nat)
    requires Gather(parts).Ok? && k < |parts|
    ensures parts[k].Ok? && forall s :: s in parts[k].value ==> s in Gather(parts).value
  {
    if k < |parts| - 1 { GatherCovers(parts[..|parts| - 1], k); }
  }

  lemma {:induction false} GatherQuiet(parts: seq<Statements>)
    requires forall k :: 0 <= k < |parts| ==> parts[k] == Ok([])
    ensures Gather(parts) == Ok([])
  {
    if parts != [] {
      GatherQuiet(parts[..|parts| - 1]);
      var none: seq<Statement> := [];
      assert none + none == none;
    }
  }

  lemma TableWanted(m: Manifest, t: TableSpec, actual: Table, valid: set<string>)
    requires t in m.tables && PlanTable(m, t, actual, valid).Ok?
    ensures AllWanted(m, PlanTable(m, t, actual, valid).value)
  {
    var parts := ColumnParts(t, t.name in m.strict, actual);
    forall s | s in Gather(parts).value ensures Wanted(m, s) {
      var k := GatherFrom(parts, s);
      var c := t.columns[k];
      assert c.name in ColumnNames(t);
      ColumnWanted(m, t, t.name in m.strict, c, actual.columns[c.name]);
    }
  }

  lemma TablesWanted(m: Manifest, db: Db)
    requires TablesPresent(m, db) && Gather(TableParts(m, db)).Ok?
    ensures AllWanted(m, Gather(TableParts(m, db)).value)
  {
    var parts := TableParts(m, db);
    forall s | s in Gather(parts).value ensures Wanted(m, s) {
      var k := GatherFrom(parts, s);
      var t := m.tables[k];
      TableWanted(m, t, db.tables[t.name], db.valid);
    }
  }

  lemma IndexesWanted(m: Manifest, db: Db)
    requires Gather(IndexParts(m, db)).Ok?
    ensures AllWanted(m, Gather(IndexParts(m, db)).value)
  {
    var parts := IndexParts(m, db);
    forall s | s in Gather(parts).value ensures Wanted(m, s) {
      var k := GatherFrom(parts, s);
      assert m.indexes[k] in m.indexes;
    }
  }

  // ---------- every difference has its statement ----------

  lemma ColumnCovered(m: Manifest, t: TableSpec, actual: Table, valid: set<string>, k: nat)
    requires k < |t.columns| && PlanTable(m, t, actual, valid).Ok?
    ensures var c := t.columns[k];
            && c.name in actual.columns && PlanColumn(t.name, t.name in m.strict, c, actual.columns[c.name]).Ok?
            && forall s :: s in PlanColumn(t.name, t.name in m.strict, c, actual.columns[c.name]).value ==>
                 s in PlanTable(m, t, actual, valid).value
  {
    var parts := ColumnParts(t, t.name in m.strict, actual);
    assert t.columns[k].name in ColumnNames(t);
    assert parts[k] == ColumnPart(t, t.name in m.strict, actual, k);
    GatherCovers(parts, k);
  }

  // ---------- what execution changes, and what it leaves alone ----------

  /** Everything but column types, column defaults and added indexes is as before. */
  ghost predicate TableFrame(a: Table, b: Table) {
    && a.columns.Keys == b.columns.Keys
    && a.(columns := b.columns, indexes := b.indexes) == b
    && a.indexes <= b.indexes
    && (forall c :: c in a.columns ==>
            a.columns[c].(kind := b.columns[c].kind, preset := b.columns[c].preset) == b.columns[c])
  }

  ghost predicate Frame(a: Db, b: Db) {
    && a.tables.Keys == b.tables.Keys && a.valid <= b.valid && a.relations <= b.relations
    && a.templates == b.templates && a.versions == b.versions
    && (forall t :: t in a.tables ==> TableFrame(a.tables[t], b.tables[t]))
  }

  lemma ExecuteFrame(db: Db, s: Statement)
    requires Execute(db, s).Some?
    ensures Frame(db, Execute(db, s).value)
  {
    var after := Execute(db, s).value;
    forall t | t in db.tables ensures TableFrame(db.tables[t], after.tables[t]) {
      if t != s.table { assert after.tables[t] == db.tables[t]; }
    }
  }

  lemma TableFrameThrough(a: Table, b: Table, c: Table)
    requires TableFrame(a, b) && TableFrame(b, c)
    ensures TableFrame(a, c)
  {
  }

  lemma {:induction false} ExecuteAllFrame(db: Db, ss: seq<Statement>)
    requires ExecuteAll(db, ss).Some?
    ensures Frame(db, ExecuteAll(db, ss).value)
  {
    if ss != [] {
      var n := |ss| - 1;
      ExecuteAllFrame(db, ss[..n]);
      var mid := ExecuteAll(db, ss[..n]).value;
      ExecuteFrame(mid, ss[n]);
      var after := ExecuteAll(db, ss).value;
      forall t | t in db.tables ensures TableFrame(db.tables[t], after.tables[t]) {
        TableFrameThrough(db.tables[t], mid.tables[t], after.tables[t]);
      }
    }
  }

  lemma InFront<T>(ss: seq<T>, s: T)
    requires ss != []
    ensures s in ss <==> s in ss[..|ss| - 1] || s == ss[|ss| - 1]
  {
    assert ss == ss[..|ss| - 1] + [ss[|ss| - 1]];
  }

  predicate HasColumn(db: Db, table: string, column: string) {
    table in db.tables && column in db.tables[table].columns
  }

  function ColumnOf(db: Db, table: string, column: string): Column
    requires HasColumn(db, table, column)
  {
    db.tables[table].columns[column]
  }

  /** A column's type changes exactly when the list widens it. */
  lemma {:induction false} KindAfter(db: Db, ss: seq<Statement>, table: string, column: string)
    requires ExecuteAll(db, ss).Some? && HasColumn(db, table, column)
    ensures var after := ExecuteAll(db, ss).value;
            HasColumn(after, table, column)
            && ColumnOf(after, table, column).kind ==
               if column == ICON && WidenIcon(table) in ss then WIDE else ColumnOf(db, table, column).kind
  {
    if ss != [] {
      var n := |ss| - 1;
      KindAfter(db, ss[..n], table, column);
      InFront(ss, WidenIcon(table));
    }
  }

  /** A column's default changes exactly when the list sets it, here to the one value the list may set it to. */
  lemma {:induction false} PresetAfter(db: Db, ss: seq<Statement>, table: string, column: string, value: string)
    requires ExecuteAll(db, ss).Some? && HasColumn(db, table, column)
    requires forall v :: SetDefault(table, column, v) in ss ==> v == value
    ensures var after := ExecuteAll(db, ss).value;
            HasColumn(after, table, column)
            && ColumnOf(after, table, column).preset ==
               if SetDefault(table, column, value) in ss then Some(value) else ColumnOf(db, table, column).preset
  {
    if ss != [] {
      var n := |ss| - 1;
      forall v | SetDefault(table, column, v) in ss[..n] ensures v == value {
        InFront(ss, SetDefault(table, column, v));
      }
      PresetAfter(db, ss[..n], table, column, value);
      InFront(ss, SetDefault(table, column, value));
      if ss[n].SetDefault? && ss[n].table == table && ss[n].column == column {
        assert ss[n] in ss;
        assert ss[n] == SetDefault(table, column, ss[n].value);
      }
    }
  }

  function Created(name: string, columns: seq<string>): Index {
    Index(name, columns, false, "", true, false)
  }

  /** Every created index is there and ready. */
  lemma {:induction false} CreatedThere(db: Db, ss: seq<Statement>, name: string, table: string, columns: seq<string>)
    requires ExecuteAll(db, ss).Some? && CreateIndex(name, table, columns) in ss
    ensures var after := ExecuteAll(db, ss).value;
            table in after.tables && Created(name, columns) in after.tables[table].indexes && name in after.valid
  {
    var n := |ss| - 1;
    InFront(ss, CreateIndex(name, table, columns));
    var mid := ExecuteAll(db, ss[..n]).value;
    ExecuteFrame(mid, ss[n]);
    if CreateIndex(name, table, columns) in ss[..n] {
      CreatedThere(db, ss[..n], name, table, columns);
      assert TableFrame(mid.tables[table], ExecuteAll(db, ss).value.tables[table]);
    }
  }

  /** An index that was not there before was created by the list. */
  lemma {:induction false} NewIsCreated(db: Db, ss: seq<Statement>, table: string, i: Index)
    requires ExecuteAll(db, ss).Some? && table in db.tables
    requires i in IndexesOf(ExecuteAll(db, ss).value, table) && i !in db.tables[table].indexes
    ensures i == Created(i.name, i.columns) && CreateIndex(i.name, table, i.columns) in ss
  {
    if ss != [] {
      var n := |ss| - 1;
      var mid := ExecuteAll(db, ss[..n]).value;
      ExecuteAllFrame(db, ss[..n]);
      if i in IndexesOf(mid, table) {
        NewIsCreated(db, ss[..n], table, i);
        InFront(ss, CreateIndex(i.name, table, i.columns));
      }
    }
  }
}
