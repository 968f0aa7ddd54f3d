/** Planning again after the planned statements ran finds nothing left to do. */
module RepairConvergence {
  import opened Wrappers
  import opened RepairPlan
  import opened RepairEffects

  ghost predicate TableCovered(m: Manifest, db: Db, ss: seq<Statement>, t: TableSpec) {
    && t.name in db.tables && PlanTable(m, t, db.tables[t.name], db.valid).Ok?
    && forall s :: s in PlanTable(m, t, db.tables[t.name], db.valid).value ==> s in ss
  }

  ghost predicate IndexCovered(db: Db, ss: seq<Statement>, x: IndexSpec) {
    && PlanIndex(x, IndexesOf(db, x.table), db.valid).Ok?
    && forall s :: s in PlanIndex(x, IndexesOf(db, x.table), db.valid).value ==> s in ss
  }

  /** `ss` is a complete list of statements for `db`, and running it gave `after`. */
  ghost predicate Executed(m: Manifest, db: Db, ss: seq<Statement>, after: Db) {
    && ManifestOk(m) && AllWanted(m, ss) && ExecuteAll(db, ss) == Some(after)
    && (forall t :: t in m.tables ==> TableCovered(m, db, ss, t))
    && (forall x :: x in m.indexes ==> IndexCovered(db, ss, x))
  }

  function AllStatements(m: Manifest, db: Db): seq<Statement>
    requires TablesPresent(m, db) && Gather(TableParts(m, db)).Ok? && Gather(IndexParts(m, db)).Ok?
  {
    Gather(TableParts(m, db)).value + Gather(IndexParts(m, db)).value
  }

  lemma PlanIsComplete(m: Manifest, db: Db, after: Db)
    requires ManifestOk(m) && TablesPresent(m, db) && Gather(TableParts(m, db)).Ok? && Gather(IndexParts(m, db)).Ok?
    requires ExecuteAll(db, AllStatements(m, db)) == Some(after)
    ensures Executed(m, db, AllStatements(m, db), after)
  {
    TablesWanted(m, db);
    IndexesWanted(m, db);
    var ss := AllStatements(m, db);
    forall t | t in m.tables ensures TableCovered(m, db, ss, t) {
      var k := TableIndex(m, t);
      assert TableParts(m, db)[k] == PlanTable(m, t, db.tables[t.name], db.valid);
      GatherCovers(TableParts(m, db), k);
    }
    forall x | x in m.indexes ensures IndexCovered(db, ss, x) {
      var k :| 0 <= k < |m.indexes| && m.indexes[k] == x;
      assert IndexParts(m, db)[k] == PlanIndex(x, IndexesOf(db, x.table), db.valid);
      GatherCovers(IndexParts(m, db), k);
    }
  }

  lemma TableIndex(m: Manifest, t: TableSpec) returns (k: nat)
    requires t in m.tables
    ensures k < |m.tables| && m.tables[k] == t
  {
    k :| 0 <= k < |m.tables| && m.tables[k] == t;
  }

  lemma SameTable(m: Manifest, a: TableSpec, b: TableSpec)
    requires ManifestOk(m) && a in m.tables && b in m.tables && a.name == b.name
    ensures a == b
  {
    var i := TableIndex(m, a);
    var j := TableIndex(m, b);
  }

  lemma SameColumn(m: Manifest, t: TableSpec, a: ColumnSpec, b: ColumnSpec)
    requires ManifestOk(m) && t in m.tables && a in t.columns && ColumnIn(m, t.name, b) && a.name == b.name
    ensures a == b
  {
    var u :| u in m.tables && u.name == t.name && b in u.columns;
    SameTable(m, t, u);
    var k := TableIndex(m, t);
    assert ColumnsDistinct(m.tables[k]);
    var i :| 0 <= i < |t.columns| && t.columns[i] == a;
    var j :| 0 <= j < |t.columns| && t.columns[j] == b;
  }

  /** The only value a column's default may be set to is the one its spec gives. */
  lemma DefaultsAgree(m: Manifest, ss: seq<Statement>, t: TableSpec, c: ColumnSpec, v: string)
    requires ManifestOk(m) && AllWanted(m, ss) && t in m.tables && c in t.columns
    requires SetDefault(t.name, c.name, v) in ss
    ensures c.preset == Some(v)
  {
    assert Wanted(m, SetDefault(t.name, c.name, v));
    var d :| ColumnIn(m, t.name, d) && d.name == c.name && d.preset == Some(v);
    SameColumn(m, t, c, d);
  }

  lemma WideningAgrees(m: Manifest, ss: seq<Statement>, t: TableSpec, c: ColumnSpec)
    requires ManifestOk(m) && AllWanted(m, ss) && t in m.tables && c in t.columns
    requires c.name == ICON && WidenIcon(t.name) in ss
    ensures c.kind == WIDE
  {
    assert Wanted(m, WidenIcon(t.name));
    var d :| ColumnIn(m, t.name, d) && d.name == ICON && d.kind == WIDE;
    SameColumn(m, t, c, d);
  }

  /** The statements planned for a table's k-th column run as part of the list. */
  lemma ColumnPlanned(m: Manifest, db: Db, ss: seq<Statement>, after: Db, t: TableSpec, k: nat)
    requires Executed(m, db, ss, after) && t in m.tables && k < |t.columns|
    ensures var c := t.columns[k];
            HasColumn(db, t.name, c.name)
            && var own := PlanColumn(t.name, t.name in m.strict, c, ColumnOf(db, t.name, c.name));
               own.Ok? && forall s :: s in own.value ==> s in ss
  {
    assert TableCovered(m, db, ss, t);
    ColumnCovered(m, t, db.tables[t.name], db.valid, k);
  }

  /** A planned column fits its spec afterwards. */
  lemma ColumnRepaired(m: Manifest, db: Db, ss: seq<Statement>, after: Db, t: TableSpec, k: nat)
    requires Executed(m, db, ss, after) && t in m.tables && k < |t.columns|
    ensures var c := t.columns[k];
            HasColumn(after, t.name, c.name)
            && PlanColumn(t.name, t.name in m.strict, c, ColumnOf(after, t.name, c.name)) == Ok([])
  {
    var c := t.columns[k];
    ColumnPlanned(m, db, ss, after, t, k);
    ExecuteAllFrame(db, ss);
    assert TableFrame(db.tables[t.name], after.tables[t.name]);
    var (before, now) := (ColumnOf(db, t.name, c.name), ColumnOf(after, t.name, c.name));
    var own := PlanColumn(t.name, t.name in m.strict, c, before).value;
    KindRepaired(m, db, ss, after, t, c, own);
    PresetRepaired(m, db, ss, after, t, c, own);
    assert before.(kind := now.kind, preset := now.preset) == now;
    NothingTwice();
  }

  lemma KindRepaired(m: Manifest, db: Db, ss: seq<Statement>, after: Db, t: TableSpec, c: ColumnSpec,
                     own: seq<Statement>)
    requires ManifestOk(m) && AllWanted(m, ss) && ExecuteAll(db, ss) == Some(after)
    requires t in m.tables && c in t.columns && HasColumn(db, t.name, c.name)
    requires PlanColumn(t.name, t.name in m.strict, c, ColumnOf(db, t.name, c.name)) == Ok(own)
    requires forall s :: s in own ==> s in ss
    ensures HasColumn(after, t.name, c.name) && ColumnOf(after, t.name, c.name).kind == c.kind
  {
    KindAfter(db, ss, t.name, c.name);
    var before := ColumnOf(db, t.name, c.name);
    if before.kind != c.kind {
      assert WidenIcon(t.name) in own;
    } else if c.name == ICON && WidenIcon(t.name) in ss {
      WideningAgrees(m, ss, t, c);
    }
  }

  lemma PresetRepaired(m: Manifest, db: Db, ss: seq<Statement>, after: Db, t: TableSpec, c: ColumnSpec,
                       own: seq<Statement>)
    requires ManifestOk(m) && AllWanted(m, ss) && ExecuteAll(db, ss) == Some(after)
    requires t in m.tables && c in t.columns && HasColumn(db, t.name, c.name)
    requires PlanColumn(t.name, t.name in m.strict, c, ColumnOf(db, t.name, c.name)) == Ok(own)
    requires forall s :: s in own ==> s in ss
    ensures HasColumn(after, t.name, c.name) && ColumnOf(after, t.name, c.name).preset == c.preset
  {
    var value := c.preset.GetOr("");
    forall v | SetDefault(t.name, c.name, v) in ss ensures c.preset == Some(v) {
      DefaultsAgree(m, ss, t, c, v);
    }
    PresetAfter(db, ss, t.name, c.name, value);
    var before := ColumnOf(db, t.name, c.name);
    if before.preset != c.preset {
      assert SetDefault(t.name, c.name, value) in own;
    }
  }

  lemma ColumnsRepaired(m: Manifest, db: Db, ss: seq<Statement>, after: Db, t: TableSpec)
    requires Executed(m, db, ss, after) && t in m.tables
    requires t.name in after.tables && ColumnsFit(t, after.tables[t.name])
    ensures Gather(ColumnParts(t, t.name in m.strict, after.tables[t.name])) == Ok([])
  {
    var parts := ColumnParts(t, t.name in m.strict, after.tables[t.name]);
    forall k | 0 <= k < |parts| ensures parts[k] == Ok([]) {
      ColumnRepaired(m, db, ss, after, t, k);
    }
    GatherQuiet(parts);
  }

  /** A planned table passes the same checks afterwards, with nothing left to state. */
  lemma TableRepaired(m: Manifest, db: Db, ss: seq<Statement>, after: Db, t: TableSpec)
    requires Executed(m, db, ss, after) && t in m.tables
    ensures t.name in after.tables && PlanTable(m, t, after.tables[t.name], after.valid) == Ok([])
  {
    assert TableCovered(m, db, ss, t);
    ExecuteAllFrame(db, ss);
    var (a, b) := (db.tables[t.name], after.tables[t.name]);
    assert TableFrame(a, b);
    ColumnsRepaired(m, db, ss, after, t);
    if t.name != USERS {
      forall i | i in b.indexes ensures UniqueKnown(i, t.name, m.indexes) {
        if i !in a.indexes {
          NewIsCreated(db, ss, t.name, i);
        }
      }
    }
  }

  lemma TablesRepaired(m: Manifest, db: Db, ss: seq<Statement>, after: Db)
    requires Executed(m, db, ss, after) && TablesPresent(m, after)
    ensures Gather(TableParts(m, after)) == Ok([])
  {
    var parts := TableParts(m, after);
    forall k | 0 <= k < |parts| ensures parts[k] == Ok([]) {
      TableRepaired(m, db, ss, after, m.tables[k]);
    }
    GatherQuiet(parts);
  }

  lemma NothingTwice()
    ensures var none: seq<Statement> := []; none + none == none
  {
  }

  // ---------- indexes ----------

  lemma SameIndex(m: Manifest, a: IndexSpec, b: IndexSpec)
    requires ManifestOk(m) && a in m.indexes && b in m.indexes && a.name == b.name
    ensures a == b
  {
    var i :| 0 <= i < |m.indexes| && m.indexes[i] == a;
    var j :| 0 <= j < |m.indexes| && m.indexes[j] == b;
  }

  /** An index created under a spec's name is what the spec asks for. */
  lemma CreatedMatches(m: Manifest, ss: seq<Statement>, table: string, i: Index, spec: IndexSpec)
    requires ManifestOk(m) && AllWanted(m, ss) && spec in m.indexes
    requires i == Created(spec.name, i.columns) && CreateIndex(spec.name, table, i.columns) in ss
    ensures IndexMatches(i, spec)
  {
    assert Wanted(m, CreateIndex(spec.name, table, i.columns));
    var x :| x in m.indexes && x.name == spec.name && x.table == table && x.columns == i.columns && Repairable(x.name);
    SameIndex(m, spec, x);
    var k :| 0 <= k < |m.indexes| && m.indexes[k] == spec;
    assert IndexOk(m, m.indexes[k]);
  }

  lemma {:induction false} FirstNamedStays(a: seq<Index>, b: seq<Index>, name: string)
    requires a <= b && FirstNamed(a, name).Some?
    ensures FirstNamed(b, name) == FirstNamed(a, name)
  {
    if !Named(a[0], name) { FirstNamedStays(a[1..], b[1..], name); }
  }

  lemma IndexRepaired(m: Manifest, db: Db, ss: seq<Statement>, after: Db, k: nat)
    requires Executed(m, db, ss, after) && k < |m.indexes|
    ensures var x := m.indexes[k]; PlanIndex(x, IndexesOf(after, x.table), after.valid) == Ok([])
  {
    var x := m.indexes[k];
    assert IndexOk(m, x);
    assert IndexCovered(db, ss, x);
    ExecuteAllFrame(db, ss);
    var (a, b) := (IndexesOf(db, x.table), IndexesOf(after, x.table));
    assert TableFrame(db.tables[x.table], after.tables[x.table]);
    var own := PlanIndex(x, a, db.valid).value;
    if own != [] {
      assert CreateIndex(x.name, x.table, x.columns) in own;
      CreatedThere(db, ss, x.name, x.table, x.columns);
      var i := Created(x.name, x.columns);
      CreatedMatches(m, ss, x.table, i, x);
      assert i in b && IndexMatches(i, x) && i.name in after.valid;
    }
    assert ReadyMatch(b, x, after.valid);
    NamedMatches(m, db, ss, after, x);
  }

  lemma NamedMatches(m: Manifest, db: Db, ss: seq<Statement>, after: Db, x: IndexSpec)
    requires ManifestOk(m) && AllWanted(m, ss) && ExecuteAll(db, ss) == Some(after) && x in m.indexes
             && x.table in db.tables
    requires FirstNamed(IndexesOf(db, x.table), x.name).Some? ==>
               IndexMatches(FirstNamed(IndexesOf(db, x.table), x.name).value, x)
    ensures FirstNamed(IndexesOf(after, x.table), x.name).Some? ==>
              IndexMatches(FirstNamed(IndexesOf(after, x.table), x.name).value, x)
  {
    ExecuteAllFrame(db, ss);
    var (a, b) := (IndexesOf(db, x.table), IndexesOf(after, x.table));
    assert TableFrame(db.tables[x.table], after.tables[x.table]);
    if FirstNamed(a, x.name).Some? {
      FirstNamedStays(a, b, x.name);
    } else if FirstNamed(b, x.name).Some? {
      var i := FirstNamed(b, x.name).value;
      NewIsCreated(db, ss, x.table, i);
      CreatedMatches(m, ss, x.table, i, x);
    }
  }

  lemma IndexesRepaired(m: Manifest, db: Db, ss: seq<Statement>, after: Db)
    requires Executed(m, db, ss, after)
    ensures Gather(IndexParts(m, after)) == Ok([])
  {
    var parts := IndexParts(m, after);
    forall k | 0 <= k < |parts| ensures parts[k] == Ok([]) {
      IndexRepaired(m, db, ss, after, k);
    }
    GatherQuiet(parts);
  }

  // ---------- seeds ----------

  lemma {:induction false} MissingMembers(templates: seq<Seed>, seeds: seq<Seed>, s: Seed)
    ensures s in MissingSeeds(templates, seeds) <==> s in seeds && !Present(s, templates)
  {
    if seeds != [] {
      MissingMembers(templates, seeds[..|seeds| - 1], s);
      InFront(seeds, s);
    }
  }

  /** All missing seeds go in, one new row each. */
  lemma {:induction false} MissingInserted(templates: seq<Seed>, seeds: seq<Seed>)
    requires SeedsDistinct(seeds) && !IdClash(templates, seeds)
    ensures InsertSeeds(templates, MissingSeeds(templates, seeds)) == Some(templates + MissingSeeds(templates, seeds))
  {
    if seeds != [] {
      var n := |seeds| - 1;
      var front := seeds[..n];
      assert forall s :: s in front ==> s in seeds;
      MissingInserted(templates, front);
      if !Present(seeds[n], templates) {
        OneMoreInserted(templates, seeds);
      } else {
        assert MissingSeeds(templates, front) + [] == MissingSeeds(templates, front);
      }
    } else {
      assert templates + [] == templates;
    }
  }

  lemma OneMoreInserted(templates: seq<Seed>, seeds: seq<Seed>)
    requires seeds != [] && SeedsDistinct(seeds) && !IdClash(templates, seeds)
             && !Present(seeds[|seeds| - 1], templates)
    requires var front := seeds[..|seeds| - 1];
             InsertSeeds(templates, MissingSeeds(templates, front)) == Some(templates + MissingSeeds(templates, front))
    ensures InsertSeeds(templates, MissingSeeds(templates, seeds)) == Some(templates + MissingSeeds(templates, seeds))
  {
    var n := |seeds| - 1;
    var (front, s) := (seeds[..n], seeds[n]);
    var missing := MissingSeeds(templates, front);
    forall t | t in templates + missing ensures !SameKey(t, s) && t.id != s.id {
      if t in templates {
        assert !SameKey(t, s);
        assert t.id == s.id ==> s in seeds;
      } else {
        MissingMembers(templates, front, t);
        var i :| 0 <= i < n && front[i] == t;
        assert !SameKey(seeds[i], seeds[n]);
      }
    }
    assert !Present(s, templates + missing);
    assert (missing + [s])[..|missing|] == missing;
    assert templates + missing + [s] == templates + (missing + [s]);
  }

  lemma {:induction false} NothingMissing(templates: seq<Seed>, seeds: seq<Seed>)
    requires forall s :: s in seeds ==> Present(s, templates)
    ensures MissingSeeds(templates, seeds) == []
  {
    if seeds != [] {
      assert forall s :: s in seeds[..|seeds| - 1] ==> s in seeds;
      NothingMissing(templates, seeds[..|seeds| - 1]);
    }
  }

  lemma SeedsRepaired(templates: seq<Seed>, seeds: seq<Seed>)
    requires SeedsDistinct(seeds) && !IdClash(templates, seeds)
    ensures var now := templates + MissingSeeds(templates, seeds);
            MissingSeeds(now, seeds) == [] && !IdClash(now, seeds)
  {
    var missing := MissingSeeds(templates, seeds);
    var now := templates + missing;
    forall s | s in seeds ensures Present(s, now) {
      MissingMembers(templates, seeds, s);
      if s in missing {
        assert s in now && SameKey(s, s);
      } else {
        var t :| t in templates && SameKey(t, s);
        assert t in now;
      }
    }
    NothingMissing(now, seeds);
    forall t, s | t in now && s in seeds && t.id == s.id ensures SameKey(t, s) {
      if t in templates {
        assert t.id == s.id;
      } else {
        MissingMembers(templates, seeds, t);
        var i :| 0 <= i < |seeds| && seeds[i] == t;
        var j :| 0 <= j < |seeds| && seeds[j] == s;
        assert i == j;
      }
    }
  }

  // ---------- the whole plan ----------

  /** Inspection finds the same tables and the same sound constraints as before. */
  lemma SchemaStays(m: Manifest, db: Db, after: Db)
    requires TablesPresent(m, db) && Frame(db, after)
    ensures TablesPresent(m, after)
    ensures AllValidated(m, db) ==> AllValidated(m, after)
    ensures ConstraintsFit(m, db) ==> ConstraintsFit(m, after)
  {
    forall t | t in m.tables ensures TableFrame(db.tables[t.name], after.tables[t.name]) {
    }
  }

  /** Neither the version rows nor the templates enter the comparison of tables and indexes. */
  lemma PartsIgnoreData(m: Manifest, a: Db, b: Db)
    requires TablesPresent(m, a) && a.tables == b.tables && a.valid == b.valid
    ensures TableParts(m, a) == TableParts(m, b) && IndexParts(m, a) == IndexParts(m, b)
  {
  }

  /** The schema part of a plan, which the data does not enter. */
  ghost predicate Settled(m: Manifest, db: Db) {
    && TablesPresent(m, db) && AllValidated(m, db) && ConstraintsFit(m, db)
    && Gather(TableParts(m, db)) == Ok([]) && Gather(IndexParts(m, db)) == Ok([])
  }

  lemma SchemaSettles(m: Manifest, db: Db, plan: Plan, after: Db)
    requires ManifestOk(m) && PlanRepair(m, db) == Ok(plan) && ExecuteAll(db, plan.statements) == Some(after)
    ensures Settled(m, after) && Frame(db, after)
  {
    var ss := plan.statements;
    PlanIsComplete(m, db, after);
    ExecuteAllFrame(db, ss);
    SchemaStays(m, db, after);
    TablesRepaired(m, db, ss, after);
    IndexesRepaired(m, db, ss, after);
  }

  lemma SettledWithData(m: Manifest, db: Db, templates: seq<Seed>, versions: seq<string>)
    requires Settled(m, db)
    ensures Settled(m, db.(templates := templates, versions := versions))
  {
    var b := db.(templates := templates, versions := versions);
    PartsIgnoreData(m, db, b);
  }

  /** With the schema settled and no seed missing, the plan is empty at either revision. */
  lemma EmptyPlan(m: Manifest, db: Db)
    requires Settled(m, db) && MissingSeeds(db.templates, m.seeds) == [] && !IdClash(db.templates, m.seeds)
    requires db.versions == [BASE] || db.versions == [TARGET]
    ensures PlanRepair(m, db) == Ok(Plan([], [], db.versions[0]))
  {
    NothingTwice();
  }

  // ---------- when the statements run ----------

  /** Every planned statement finds its table and column. */
  ghost predicate Runnable(db: Db, s: Statement) {
    match s
    case WidenIcon(t) => HasColumn(db, t, ICON)
    case SetDefault(t, c, _) => HasColumn(db, t, c)
    case CreateIndex(_, t, _) => t in db.tables
  }

  /** No index is created twice. */
  ghost predicate CreatedOnce(ss: seq<Statement>) {
    forall i, j :: 0 <= i < |ss| && 0 <= j < |ss| && ss[i].CreateIndex? && ss[j].CreateIndex?
                   && ss[i].name == ss[j].name ==>
      i == j
  }

  /** No relation of the schema has the name of an index that is to be created. */
  predicate NamesFree(ss: seq<Statement>, relations: set<string>) {
    forall s :: s in ss && s.CreateIndex? ==> s.name !in relations
  }

  lemma {:induction false} RelationsAfter(db: Db, ss: seq<Statement>, name: string)
    requires ExecuteAll(db, ss).Some?
    ensures name in ExecuteAll(db, ss).value.relations
            <==> name in db.relations || exists s :: s in ss && s.CreateIndex? && s.name == name
  {
    if ss != [] {
      var n := |ss| - 1;
      RelationsAfter(db, ss[..n], name);
      forall s ensures s in ss <==> s in ss[..n] || s == ss[n] { InFront(ss, s); }
    }
  }

  /** The list runs to its end exactly when the names of the new indexes are free. */
  lemma {:induction false} RunsWhenNamesFree(db: Db, ss: seq<Statement>)
    requires CreatedOnce(ss) && forall s :: s in ss ==> Runnable(db, s)
    ensures ExecuteAll(db, ss).Some? <==> NamesFree(ss, db.relations)
  {
    if ss != [] {
      var n := |ss| - 1;
      var front := ss[..n];
      forall s ensures s in ss <==> s in front || s == ss[n] { InFront(ss, s); }
      RunsWhenNamesFree(db, front);
      if ExecuteAll(db, front).Some? { LastRuns(db, ss); }
    }
  }

  lemma LastRuns(db: Db, ss: seq<Statement>)
    requires ss != [] && CreatedOnce(ss) && Runnable(db, ss[|ss| - 1])
    requires ExecuteAll(db, ss[..|ss| - 1]).Some?
    ensures var s := ss[|ss| - 1]; ExecuteAll(db, ss).Some? <==> (s.CreateIndex? ==> s.name !in db.relations)
  {
    var n := |ss| - 1;
    var (front, s) := (ss[..n], ss[n]);
    var mid := ExecuteAll(db, front).value;
    ExecuteAllFrame(db, front);
    assert s.table in db.tables && TableFrame(db.tables[s.table], mid.tables[s.table]);
    if s.CreateIndex? {
      RelationsAfter(db, front, s.name);
      forall i | 0 <= i < n && front[i].CreateIndex? ensures front[i].name != s.name {
        assert ss[i] == front[i];
      }
    }
  }
}
