/** Applying the repair: when it succeeds, what it leaves behind, and that a second run has nothing to do. */
module RepairRuns {
  import opened Wrappers
  import opened RepairPlan
  import opened RepairEffects
  import opened RepairConvergence

  // ---------- the planned list can run ----------

  lemma TableCreatesNothing(m: Manifest, t: TableSpec, actual: Table, valid: set<string>)
    requires PlanTable(m, t, actual, valid).Ok?
    ensures forall s :: s in PlanTable(m, t, actual, valid).value ==> !s.CreateIndex?
  {
    var parts := ColumnParts(t, t.name in m.strict, actual);
    forall s | s in Gather(parts).value ensures !s.CreateIndex? {
      var k := GatherFrom(parts, s);
      assert parts[k] == ColumnPart(t, t.name in m.strict, actual, k);
    }
  }

  lemma TablesCreateNothing(m: Manifest, db: Db)
    requires TablesPresent(m, db) && Gather(TableParts(m, db)).Ok?
    ensures forall s :: s in Gather(TableParts(m, db)).value ==> !s.CreateIndex?
  {
    var parts := TableParts(m, db);
    forall s | s in Gather(parts).value ensures !s.CreateIndex? {
      var k := GatherFrom(parts, s);
      TableCreatesNothing(m, m.tables[k], db.tables[m.tables[k].name], db.valid);
    }
  }

  /** Parts that create at most the index of their own name, all names different. */
  lemma {:induction false} GatherCreatedOnce(parts: seq<Statements>, names: seq<string>)
    requires |parts| == |names| && Gather(parts).Ok?
    requires forall i, j :: 0 <= i < |names| && 0 <= j < |names| && names[i] == names[j] ==> i == j
    requires forall k :: 0 <= k < |parts| && parts[k].Ok? ==>
                 |parts[k].value| <= 1 && CreatesOnly(parts[k].value, names[k])
    ensures CreatedOnce(Gather(parts).value)
  {
    if parts != [] {
      var n := |parts| - 1;
      GatherCreatedOnce(parts[..n], names[..n]);
      forall s | s in Gather(parts[..n]).value ensures s.CreateIndex? && s.name != names[n] {
        var k := GatherFrom(parts[..n], s);
        assert CreatesOnly(parts[k].value, names[k]);
      }
      AppendCreated(Gather(parts[..n]).value, parts[n].value, names[n]);
    }
  }

  ghost predicate CreatesOnly(ss: seq<Statement>, name: string) {
    forall s :: s in ss ==> s.CreateIndex? && s.name == name
  }

  lemma IndexesCreatedOnce(m: Manifest, db: Db)
    requires ManifestOk(m) && Gather(IndexParts(m, db)).Ok?
    ensures CreatedOnce(Gather(IndexParts(m, db)).value)
  {
    var names := seq(|m.indexes|, k requires 0 <= k < |m.indexes| => m.indexes[k].name);
    GatherCreatedOnce(IndexParts(m, db), names);
  }

  lemma AppendCreated(before: seq<Statement>, own: seq<Statement>, name: string)
    requires CreatedOnce(before) && |own| <= 1 && CreatesOnly(own, name)
    requires forall s :: s in before ==> s.CreateIndex? && s.name != name
    ensures CreatedOnce(before + own)
  {
    var all := before + own;
    forall i | 0 <= i < |all|
      ensures all[i].CreateIndex? && (i < |before| ==> all[i].name != name) && (i >= |before| ==> all[i].name == name)
    {
      if i < |before| { assert all[i] in before; } else { assert all[i] in own; }
    }
  }

  lemma ConcatCreated(a: seq<Statement>, b: seq<Statement>)
    requires CreatedOnce(b) && forall s :: s in a ==> !s.CreateIndex?
    ensures CreatedOnce(a + b)
  {
    forall i | 0 <= i < |a| ensures (a + b)[i] in a {
    }
    forall i | |a| <= i < |a + b| ensures (a + b)[i] == b[i - |a|] {
    }
  }

  lemma ColumnThere(m: Manifest, db: Db, table: string, c: ColumnSpec)
    requires TablesPresent(m, db) && Gather(TableParts(m, db)).Ok? && ColumnIn(m, table, c)
    ensures HasColumn(db, table, c.name)
  {
    var t :| t in m.tables && t.name == table && c in t.columns;
    var k := TableIndex(m, t);
    assert TableParts(m, db)[k] == PlanTable(m, t, db.tables[t.name], db.valid);
    GatherCovers(TableParts(m, db), k);
    assert c.name in ColumnNames(t);
  }

  lemma WantedRunnable(m: Manifest, db: Db, s: Statement)
    requires ManifestOk(m) && TablesPresent(m, db) && Gather(TableParts(m, db)).Ok? && Wanted(m, s)
    ensures Runnable(db, s)
  {
    match s
    case WidenIcon(table) =>
      var c :| ColumnIn(m, table, c) && c.name == ICON && c.kind == WIDE;
      ColumnThere(m, db, table, c);
    case SetDefault(table, column, value) =>
      var c :| ColumnIn(m, table, c) && c.name == column && c.preset == Some(value);
      ColumnThere(m, db, table, c);
    case CreateIndex(name, table, columns) =>
      var x :| x in m.indexes && x.name == name && x.table == table && x.columns == columns && Repairable(name);
      var k :| 0 <= k < |m.indexes| && m.indexes[k] == x;
      assert IndexOk(m, m.indexes[k]);
  }

  /** A planned list runs to its end exactly when the names of its new indexes are free in the whole schema. */
  lemma PlanRuns(m: Manifest, db: Db, plan: Plan)
    requires ManifestOk(m) && PlanRepair(m, db) == Ok(plan)
    ensures ExecuteAll(db, plan.statements).Some? <==> NamesFree(plan.statements, db.relations)
  {
    TablesWanted(m, db);
    IndexesWanted(m, db);
    TablesCreateNothing(m, db);
    IndexesCreatedOnce(m, db);
    ConcatCreated(Gather(TableParts(m, db)).value, Gather(IndexParts(m, db)).value);
    forall s | s in plan.statements ensures Runnable(db, s) {
      WantedRunnable(m, db, s);
    }
    RunsWhenNamesFree(db, plan.statements);
  }

  // ---------- the theorem ----------

  /** Nothing is planned any more, and the version is the target. */
  ghost predicate Finished(m: Manifest, db: Db) {
    PlanRepair(m, db) == Ok(Plan([], [], TARGET))
  }

  lemma AfterStatements(m: Manifest, db: Db, plan: Plan, altered: Db)
    requires ManifestOk(m) && PlanRepair(m, db) == Ok(plan) && ExecuteAll(db, plan.statements) == Some(altered)
    ensures InsertSeeds(altered.templates, plan.seeds) == Some(db.templates + plan.seeds)
    ensures var seeded := altered.(templates := db.templates + plan.seeds);
            PlanRepair(m, seeded) == Ok(Plan([], [], plan.revision)) && Finished(m, seeded.(versions := [TARGET]))
  {
    SchemaSettles(m, db, plan, altered);
    MissingInserted(db.templates, m.seeds);
    SeedsRepaired(db.templates, m.seeds);
    var templates := db.templates + plan.seeds;
    SettledWithData(m, altered, templates, altered.versions);
    SettledWithData(m, altered, templates, [TARGET]);
    var seeded := altered.(templates := templates);
    assert seeded == altered.(templates := templates, versions := altered.versions);
    assert seeded.(versions := [TARGET]) == altered.(templates := templates, versions := [TARGET]);
    EmptyPlan(m, seeded);
    EmptyPlan(m, seeded.(versions := [TARGET]));
  }

  /** What applying an accepted plan at the base revision gives. */
  lemma ApplyAtBase(m: Manifest, db: Db, plan: Plan)
    requires ManifestOk(m) && PlanRepair(m, db) == Ok(plan) && plan.revision == BASE
    ensures var r := Repair(m, db, true);
            if NamesFree(plan.statements, db.relations)
            then && ExecuteAll(db, plan.statements).Some?
                 && (var altered := ExecuteAll(db, plan.statements).value;
                     r == Ok(altered.(templates := db.templates + plan.seeds, versions := [TARGET])))
                 && Finished(m, r.value)
            else r == Err(NameTaken)
  {
    PlanRuns(m, db, plan);
    if NamesFree(plan.statements, db.relations) {
      var altered := ExecuteAll(db, plan.statements).value;
      AfterStatements(m, db, plan, altered);
      var done := altered.(templates := db.templates + plan.seeds, versions := [TARGET]);
      assert altered.(templates := db.templates + plan.seeds).(versions := [TARGET]) == done;
    }
  }

  /** Applying touches nothing but what the planner listed: constraints, nullability, existing indexes and existing
      template rows stay. */
  lemma ApplyKeepsTheRest(m: Manifest, db: Db, plan: Plan)
    requires ManifestOk(m) && PlanRepair(m, db) == Ok(plan) && plan.revision == BASE
    requires NamesFree(plan.statements, db.relations)
    ensures Repair(m, db, true).Ok?
    ensures var done := Repair(m, db, true).value;
            Frame(db, done.(templates := db.templates, versions := db.versions))
            && done.templates == db.templates + plan.seeds && done.versions == [TARGET]
  {
    ApplyAtBase(m, db, plan);
    ExecuteAllFrame(db, plan.statements);
  }

  /** For every schema the planner accepts, applying succeeds exactly when it is already at the target or the names of
      the indexes to create are free. Then it ends at the target with an empty plan, and a second apply changes
      nothing. */
  lemma RepairConverges(m: Manifest, db: Db)
    requires ManifestOk(m) && PlanRepair(m, db).Ok?
    ensures var plan := PlanRepair(m, db).value;
            var r := Repair(m, db, true);
            && (r.Ok? <==> plan.revision == TARGET || NamesFree(plan.statements, db.relations))
            && (r.Ok? ==> Finished(m, r.value) && Repair(m, r.value, true) == Ok(r.value))
            && (plan.revision == TARGET ==> r == Ok(db))
            && Repair(m, db, false) == Ok(db)
  {
    var plan := PlanRepair(m, db).value;
    if plan.revision == BASE {
      ApplyAtBase(m, db, plan);
    } else {
      assert plan == Plan([], [], TARGET);
    }
  }

  lemma PartsIgnoreRelations(m: Manifest, db: Db, other: Db)
    requires other == db.(relations := other.relations) && TablesPresent(m, db)
    ensures TableParts(m, other) == TableParts(m, db) && IndexParts(m, other) == IndexParts(m, db)
  {
  }

  /** The planner looks for a planned index only on its own table. So for every manifest and every schema at the base
      revision that needs one, it accepts the same schema with a relation of that name elsewhere, plans the same, and
      applying the plan fails. */
  lemma TakenNameIsAccepted(m: Manifest, db: Db, plan: Plan, s: Statement)
    requires ManifestOk(m) && PlanRepair(m, db) == Ok(plan) && plan.revision == BASE
    requires s in plan.statements && s.CreateIndex?
    ensures var taken := db.(relations := db.relations + {s.name});
            PlanRepair(m, taken) == Ok(plan) && Repair(m, taken, true) == Err(NameTaken)
  {
    var taken := db.(relations := db.relations + {s.name});
    PartsIgnoreRelations(m, db, taken);
    ApplyAtBase(m, taken, plan);
  }
}
