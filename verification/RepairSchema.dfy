/** When a schema is what the migrations describe, and when it differs from that only by what the repair may change. */
module RepairSchema {
  import opened Wrappers
  import opened RepairPlan
  import opened RepairEffects
  import opened RepairConvergence
  import opened RepairRuns

  // ---------- conforming, up to the differences that may be repaired ----------

  /** A narrow icon column may be widened. */
  predicate KindFits(table: string, c: ColumnSpec, a: Column, drift: bool) {
    || a.kind == c.kind
    || (drift && table == "ledger_mate_categories" && c.name == "icon" && c.kind == "VARCHAR(500)"
        && a.kind == "VARCHAR(50)")
  }

  /** In the tables of the first two migrations the audit columns may be stricter than described. */
  predicate NullFits(strict: bool, c: ColumnSpec, a: Column) {
    || a.nullable == c.nullable
    || (strict && c.name in ["created_at", "updated_at"] && c.nullable && !a.nullable)
  }

  predicate DefaultListed(table: string, column: string) {
    || column == "is_deleted"
    || (table, column) in [("core_user_identities", "provider"), ("ledger_mate_category_templates", "sort_order"),
                           ("ledger_mate_category_templates", "is_enabled")]
  }

  /** A missing default may be added to the listed columns. */
  predicate PresetFits(table: string, c: ColumnSpec, a: Column, drift: bool) {
    a.preset == c.preset || (drift && a.preset.None? && DefaultListed(table, c.name))
  }

  predicate ColumnConforms(table: string, strict: bool, c: ColumnSpec, a: Column, drift: bool) {
    KindFits(table, c, a, drift) && NullFits(strict, c, a) && !a.generated && PresetFits(table, c, a, drift)
  }

  predicate Describes(s: IndexSpec, i: Index) {
    i.columns == s.columns && i.unique == s.unique && i.filter == s.filter && i.plain
  }

  /** No column, constraint or unique index beyond those described, and all of those. */
  ghost predicate KeysConform(m: Manifest, t: TableSpec, a: Table, valid: set<string>) {
    && (forall n :: n in a.columns ==> exists c :: c in t.columns && c.name == n)
    && a.primary == t.primary && a.uniques == t.uniques && !a.nullsNotDistinct
    && (forall u :: u in t.uniques ==> u.0 in valid)
    && |a.foreign| == |t.foreign| && (forall f :: f in t.foreign ==> f in a.foreign)
    && (forall i :: i in a.indexes && i.unique && !i.backing ==>
          exists s :: s in m.indexes && s.table == t.name && s.unique && Describes(s, i))
  }

  ghost predicate ColumnsConform(m: Manifest, t: TableSpec, a: Table, drift: bool) {
    forall c :: c in t.columns ==>
      c.name in a.columns && ColumnConforms(t.name, t.name in m.strict, c, a.columns[c.name], drift)
  }

  /** Of the users' table only the described columns count. */
  ghost predicate TableConforms(m: Manifest, t: TableSpec, db: Db, drift: bool) {
    && t.name in db.tables && !db.tables[t.name].unvalidated
    && ColumnsConform(m, t, db.tables[t.name], drift)
    && (t.name != "core_users" ==> !db.tables[t.name].unusual && KeysConform(m, t, db.tables[t.name], db.valid))
  }

  ghost predicate FirstCalled(indexes: seq<Index>, name: string, k: int) {
    0 <= k < |indexes| && indexes[k].name == name && forall j :: 0 <= j < k ==> indexes[j].name != name
  }

  /** The first index of that name is as described, and an index as described is ready; two of them may be missing. */
  ghost predicate IndexConforms(x: IndexSpec, indexes: seq<Index>, valid: set<string>, drift: bool) {
    && (forall k :: FirstCalled(indexes, x.name, k) ==> Describes(x, indexes[k]))
    && (if exists i :: i in indexes && Describes(x, i)
        then exists i :: i in indexes && Describes(x, i) && i.name in valid
        else drift && x.name in ["ix_lm_ai_messages_session_user", "ix_lm_ai_refs_lookup"])
  }

  /** No template's id belongs to another template, and every template is there; any may be missing. */
  ghost predicate TemplatesConform(templates: seq<Seed>, seeds: seq<Seed>, drift: bool) {
    && (forall t, s :: t in templates && s in seeds && t.id == s.id ==> t.kind == s.kind && t.name == s.name)
    && (drift || forall s :: s in seeds ==> exists t :: t in templates && t.kind == s.kind && t.name == s.name)
  }

  function IndexesOn(db: Db, table: string): seq<Index> {
    if table in db.tables then db.tables[table].indexes else []
  }

  /** What the migrations describe is there; with `drift`, except for what may be repaired. */
  ghost predicate Conforms(m: Manifest, db: Db, drift: bool) {
    && "alembic_version" in db.tables
    && (forall t :: t in m.tables ==> TableConforms(m, t, db, drift))
    && (forall x :: x in m.indexes ==>
          IndexConforms(x, IndexesOn(db, x.table), db.valid, drift))
    && TemplatesConform(db.templates, m.seeds, drift)
  }

  // ---------- the planner, part by part ----------

  /** A part of the plan is accepted, or even empty. */
  predicate Passes(r: Statements, drift: bool) {
    if drift then r.Ok? else r == Ok([])
  }

  /** One part after another passes exactly when both do. */
  lemma BothPass(a: Statements, b: Statements, drift: bool)
    ensures var both := if a.Err? then a else if b.Err? then b else Ok(a.value + b.value);
            Passes(both, drift) <==> Passes(a, drift) && Passes(b, drift)
  {
    if a.Ok? && b.Ok? { assert a.value + b.value == [] <==> a.value == [] && b.value == []; }
  }

  lemma {:induction false} GatherPasses(parts: seq<Statements>, drift: bool)
    ensures Passes(Gather(parts), drift) <==> forall k :: 0 <= k < |parts| ==> Passes(parts[k], drift)
  {
    if parts != [] {
      var n := |parts| - 1;
      GatherPasses(parts[..n], drift);
      BothPass(Gather(parts[..n]), parts[n], drift);
      assert forall k :: 0 <= k < n ==> parts[..n][k] == parts[k];
    }
  }

  lemma KindExactly(table: string, c: ColumnSpec, a: Column, drift: bool)
    ensures Passes(PlanType(table, c, a), drift) <==> KindFits(table, c, a, drift)
  {
  }

  lemma PresetExactly(table: string, c: ColumnSpec, a: Column, drift: bool)
    ensures Passes(PlanDefault(table, c, a), drift) <==> PresetFits(table, c, a, drift)
  {
    assert CanSetDefault(table, c.name) <==> DefaultListed(table, c.name);
  }

  lemma ColumnExactly(table: string, strict: bool, c: ColumnSpec, a: Column, drift: bool)
    ensures Passes(PlanColumn(table, strict, c, a), drift) <==> ColumnConforms(table, strict, c, a, drift)
  {
    KindExactly(table, c, a, drift);
    PresetExactly(table, c, a, drift);
    BothPass(PlanType(table, c, a), PlanDefault(table, c, a), drift);
    assert NullAccepted(strict, c, a) <==> NullFits(strict, c, a);
  }

  lemma ColumnsExactly(m: Manifest, t: TableSpec, a: Table, drift: bool)
    requires ColumnsFit(t, a)
    ensures Passes(Gather(ColumnParts(t, t.name in m.strict, a)), drift) <==> ColumnsConform(m, t, a, drift)
  {
    var parts := ColumnParts(t, t.name in m.strict, a);
    GatherPasses(parts, drift);
    forall k | 0 <= k < |t.columns|
      ensures t.columns[k].name in a.columns
      ensures Passes(parts[k], drift)
              <==> ColumnConforms(t.name, t.name in m.strict, t.columns[k], a.columns[t.columns[k].name], drift)
    {
      assert t.columns[k].name in ColumnNames(t);
      ColumnExactly(t.name, t.name in m.strict, t.columns[k], a.columns[t.columns[k].name], drift);
    }
    if ColumnsConform(m, t, a, drift) {
      forall k | 0 <= k < |parts| ensures Passes(parts[k], drift) {
        assert t.columns[k] in t.columns;
      }
    }
  }

  lemma NamesExactly(t: TableSpec, a: Table)
    ensures ColumnNames(t) <= a.columns.Keys <==> forall c :: c in t.columns ==> c.name in a.columns
    ensures a.columns.Keys <= ColumnNames(t)
            <==> forall n :: n in a.columns ==> exists c :: c in t.columns && c.name == n
  {
    forall c | c in t.columns ensures c.name in ColumnNames(t) {
    }
  }

  lemma KeysExactly(m: Manifest, t: TableSpec, a: Table, valid: set<string>)
    ensures KeysConform(m, t, a, valid)
            <==> a.columns.Keys <= ColumnNames(t) && KeysFit(t, a, valid) && UniquesKnown(t.name, a, m.indexes)
  {
    NamesExactly(t, a);
    if UniquesKnown(t.name, a, m.indexes) {
      forall i | i in a.indexes && i.unique && !i.backing
        ensures exists s :: s in m.indexes && s.table == t.name && s.unique && Describes(s, i)
      {
        assert UniqueKnown(i, t.name, m.indexes);
        var s :| s in m.indexes && s.table == t.name && s.unique && IndexMatches(i, s);
        assert Describes(s, i);
      }
    }
    if KeysConform(m, t, a, valid) {
      forall i | i in a.indexes ensures UniqueKnown(i, t.name, m.indexes) {
        if i.unique && !i.backing {
          var s :| s in m.indexes && s.table == t.name && s.unique && Describes(s, i);
          assert IndexMatches(i, s);
        }
      }
    }
  }

  lemma TableExactly(m: Manifest, t: TableSpec, a: Table, valid: set<string>, drift: bool)
    ensures Passes(PlanTable(m, t, a, valid), drift)
            <==> ColumnsConform(m, t, a, drift) && (t.name != "core_users" ==> KeysConform(m, t, a, valid))
  {
    NamesExactly(t, a);
    KeysExactly(m, t, a, valid);
    if ColumnsFit(t, a) { ColumnsExactly(m, t, a, drift); }
  }

  lemma {:induction false} FirstOfName(indexes: seq<Index>, name: string)
    ensures var found := FirstNamed(indexes, name);
            && (found.None? <==> forall k :: 0 <= k < |indexes| ==> indexes[k].name != name)
            && (found.Some? ==> exists k :: FirstCalled(indexes, name, k) && indexes[k] == found.value)
  {
    if indexes != [] && indexes[0].name != name {
      FirstOfName(indexes[1..], name);
      var found := FirstNamed(indexes[1..], name);
      if found.Some? {
        var k :| FirstCalled(indexes[1..], name, k) && indexes[1..][k] == found.value;
        forall j | 0 <= j < k + 1 ensures indexes[j].name != name {
          if j > 0 { assert indexes[1..][j - 1] == indexes[j]; }
        }
        assert FirstCalled(indexes, name, k + 1);
      }
    }
  }

  lemma MatchExactly(x: IndexSpec, indexes: seq<Index>, valid: set<string>)
    ensures AnyMatch(indexes, x) <==> exists i :: i in indexes && Describes(x, i)
    ensures ReadyMatch(indexes, x, valid) <==> exists i :: i in indexes && Describes(x, i) && i.name in valid
  {
    forall i | i in indexes ensures Describes(x, i) <==> IndexMatches(i, x) {
    }
  }

  lemma IndexExactly(x: IndexSpec, indexes: seq<Index>, valid: set<string>, drift: bool)
    ensures Passes(PlanIndex(x, indexes, valid), drift) <==> IndexConforms(x, indexes, valid, drift)
  {
    MatchExactly(x, indexes, valid);
    FirstOfName(indexes, x.name);
    var found := FirstNamed(indexes, x.name);
    if found.Some? {
      var k :| FirstCalled(indexes, x.name, k) && indexes[k] == found.value;
      assert Describes(x, indexes[k]) <==> IndexMatches(found.value, x);
    }
  }

  lemma TemplatesExactly(templates: seq<Seed>, seeds: seq<Seed>, drift: bool)
    ensures TemplatesConform(templates, seeds, drift)
            <==> !IdClash(templates, seeds) && (drift || MissingSeeds(templates, seeds) == [])
  {
    forall s ensures s in MissingSeeds(templates, seeds) <==> s in seeds && !Present(s, templates) {
      MissingMembers(templates, seeds, s);
    }
    if MissingSeeds(templates, seeds) != [] {
      assert MissingSeeds(templates, seeds)[0] in MissingSeeds(templates, seeds);
    }
  }

  // ---------- the whole plan ----------

  lemma TablesExactly(m: Manifest, db: Db, drift: bool)
    requires TablesPresent(m, db) && AllValidated(m, db) && ConstraintsFit(m, db)
    ensures Passes(Gather(TableParts(m, db)), drift) <==> forall t :: t in m.tables ==> TableConforms(m, t, db, drift)
  {
    var parts := TableParts(m, db);
    GatherPasses(parts, drift);
    forall k | 0 <= k < |m.tables|
      ensures Passes(parts[k], drift) <==> TableConforms(m, m.tables[k], db, drift)
    {
      var t := m.tables[k];
      assert t in m.tables;
      TableExactly(m, t, db.tables[t.name], db.valid, drift);
    }
    if forall t :: t in m.tables ==> TableConforms(m, t, db, drift) {
      forall k | 0 <= k < |parts| ensures Passes(parts[k], drift) { assert m.tables[k] in m.tables; }
    }
  }

  ghost predicate IndexesConform(m: Manifest, db: Db, drift: bool) {
    forall x :: x in m.indexes ==>
      IndexConforms(x, IndexesOn(db, x.table), db.valid, drift)
  }

  lemma IndexesExactly(m: Manifest, db: Db, drift: bool)
    ensures Passes(Gather(IndexParts(m, db)), drift) <==> IndexesConform(m, db, drift)
  {
    var parts := IndexParts(m, db);
    GatherPasses(parts, drift);
    forall k | 0 <= k < |m.indexes|
      ensures Passes(parts[k], drift)
              <==> IndexConforms(m.indexes[k], IndexesOf(db, m.indexes[k].table), db.valid, drift)
    {
      IndexExactly(m.indexes[k], IndexesOf(db, m.indexes[k].table), db.valid, drift);
    }
    if IndexesConform(m, db, drift) {
      forall k | 0 <= k < |parts| ensures Passes(parts[k], drift) { assert m.indexes[k] in m.indexes; }
    }
  }

  /** The three parts of a plan, each accepted or empty. */
  predicate PartsPass(m: Manifest, db: Db, drift: bool) {
    && TablesPresent(m, db) && AllValidated(m, db) && ConstraintsFit(m, db)
    && Passes(Gather(TableParts(m, db)), drift) && Passes(Gather(IndexParts(m, db)), drift)
    && !IdClash(db.templates, m.seeds) && (drift || MissingSeeds(db.templates, m.seeds) == [])
  }

  lemma ConformsExactly(m: Manifest, db: Db, drift: bool)
    ensures PartsPass(m, db, drift) <==> Conforms(m, db, drift)
  {
    TemplatesExactly(db.templates, m.seeds, drift);
    IndexesExactly(m, db, drift);
    if Conforms(m, db, drift) {
      forall t | t in m.tables ensures t.name in db.tables && !db.tables[t.name].unvalidated {
        assert TableConforms(m, t, db, drift);
      }
      assert ConstraintsFit(m, db);
    }
    if TablesPresent(m, db) && AllValidated(m, db) && ConstraintsFit(m, db) { TablesExactly(m, db, drift); }
  }

  lemma PlanParts(m: Manifest, db: Db)
    ensures PlanRepair(m, db).Ok?
            <==> || (db.versions == [BASE] && PartsPass(m, db, true))
                 || (db.versions == [TARGET] && PartsPass(m, db, false))
    ensures PlanRepair(m, db).Ok? ==>
              var plan := PlanRepair(m, db).value;
              [plan.revision] == db.versions && (plan.statements == [] && plan.seeds == [] <==> PartsPass(m, db, false))
  {
  }

  /** The plan is made exactly for a schema at the base revision that differs from the migrations by nothing but what
      may be repaired, or at the target revision that does not differ at all; and it is empty exactly when nothing
      differs. */
  lemma PlanExactly(m: Manifest, db: Db)
    ensures PlanRepair(m, db).Ok?
            <==> || (db.versions == ["0015_aurakey_gallery_edit"] && Conforms(m, db, true))
                 || (db.versions == ["0020_ledger_mate_cat_templates"] && Conforms(m, db, false))
    ensures PlanRepair(m, db).Ok? ==>
              var plan := PlanRepair(m, db).value;
              [plan.revision] == db.versions && (plan.statements == [] && plan.seeds == [] <==> Conforms(m, db, false))
  {
    PlanParts(m, db);
    ConformsExactly(m, db, true);
    ConformsExactly(m, db, false);
  }

  /** No relation of the schema has the name of an index that is missing on its table. */
  ghost predicate NewNamesFree(m: Manifest, db: Db) {
    forall x :: x in m.indexes && x.name in db.relations ==> exists i :: i in IndexesOn(db, x.table) && Describes(x, i)
  }

  lemma CreatesWhenMissing(x: IndexSpec, indexes: seq<Index>, valid: set<string>, relations: set<string>)
    requires PlanIndex(x, indexes, valid).Ok?
    ensures NamesFree(PlanIndex(x, indexes, valid).value, relations)
            <==> (x.name in relations ==> exists i :: i in indexes && Describes(x, i))
  {
    MatchExactly(x, indexes, valid);
  }

  lemma PartFree(m: Manifest, db: Db, k: nat)
    requires Gather(IndexParts(m, db)).Ok? && k < |m.indexes|
    ensures IndexParts(m, db)[k].Ok?
    ensures var x := m.indexes[k];
            NamesFree(IndexParts(m, db)[k].value, db.relations)
            <==> (x.name in db.relations ==> exists i :: i in IndexesOn(db, x.table) && Describes(x, i))
  {
    var x := m.indexes[k];
    GatherCovers(IndexParts(m, db), k);
    assert IndexParts(m, db)[k] == PlanIndex(x, IndexesOn(db, x.table), db.valid);
    CreatesWhenMissing(x, IndexesOn(db, x.table), db.valid, db.relations);
  }

  lemma IndexesFree(m: Manifest, db: Db)
    requires Gather(IndexParts(m, db)).Ok?
    ensures NamesFree(Gather(IndexParts(m, db)).value, db.relations) <==> NewNamesFree(m, db)
  {
    GatherFree(IndexParts(m, db), db.relations);
    forall k | 0 <= k < |m.indexes|
      ensures IndexParts(m, db)[k].Ok?
      ensures NamesFree(IndexParts(m, db)[k].value, db.relations)
              <==> (m.indexes[k].name in db.relations ==>
                      exists i :: i in IndexesOn(db, m.indexes[k].table) && Describes(m.indexes[k], i))
    {
      PartFree(m, db, k);
    }
    if NewNamesFree(m, db) {
      forall k | 0 <= k < |m.indexes| ensures NamesFree(IndexParts(m, db)[k].value, db.relations) {
        assert m.indexes[k] in m.indexes;
      }
    }
  }

  lemma NamesFreeExactly(m: Manifest, db: Db, plan: Plan)
    requires PlanRepair(m, db) == Ok(plan)
    ensures NamesFree(plan.statements, db.relations) <==> NewNamesFree(m, db)
  {
    var (tables, indexes) := (Gather(TableParts(m, db)).value, Gather(IndexParts(m, db)).value);
    TablesCreateNothing(m, db);
    IndexesFree(m, db);
    FreeTogether(tables, indexes, db.relations);
  }

  lemma FreeTogether(a: seq<Statement>, b: seq<Statement>, relations: set<string>)
    requires forall s :: s in a ==> !s.CreateIndex?
    ensures NamesFree(a + b, relations) <==> NamesFree(b, relations)
  {
    assert forall s :: s in a + b <==> s in a || s in b;
  }

  lemma {:induction false} GatherFree(parts: seq<Statements>, relations: set<string>)
    requires Gather(parts).Ok?
    ensures forall k :: 0 <= k < |parts| ==> parts[k].Ok?
    ensures NamesFree(Gather(parts).value, relations)
            <==> forall k :: 0 <= k < |parts| ==> NamesFree(parts[k].value, relations)
  {
    if parts != [] {
      var n := |parts| - 1;
      GatherFree(parts[..n], relations);
      assert forall k :: 0 <= k < n ==> parts[..n][k] == parts[k];
      var (before, own) := (Gather(parts[..n]).value, parts[n].value);
      assert forall s :: s in before + own <==> s in before || s in own;
      assert NamesFree(before + own, relations) <==> NamesFree(before, relations) && NamesFree(own, relations);
    }
  }

  /** Applying to a schema that differs only by what may be repaired, while the names of the missing indexes are free,
      ends at the target revision with everything the migrations describe; any other schema is refused. */
  lemma RepairEndsConforming(m: Manifest, db: Db)
    requires ManifestOk(m)
    ensures var r := Repair(m, db, true);
            && (r.Ok? ==> r.value.versions == ["0020_ledger_mate_cat_templates"] && Conforms(m, r.value, false))
            && (r.Ok? <==>
                  || (db.versions == ["0020_ledger_mate_cat_templates"] && Conforms(m, db, false))
                  || (db.versions == ["0015_aurakey_gallery_edit"] && Conforms(m, db, true)
                      && NewNamesFree(m, db)))
  {
    PlanExactly(m, db);
    if PlanRepair(m, db).Ok? {
      RepairConverges(m, db);
      NamesFreeExactly(m, db, PlanRepair(m, db).value);
      var r := Repair(m, db, true);
      if r.Ok? { PlanExactly(m, r.value); }
    }
  }
}
