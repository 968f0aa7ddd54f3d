/** The repair script over a live database. */
module RepairService {
  import opened Wrappers
  import opened RepairPlan
  import opened RepairEffects
  import opened RepairConvergence
  import opened RepairSchema

  /** The columns of one table, in order. */
  method StateColumns(spec: TableSpec, strict: bool, actual: Table) returns (r: Statements)
    requires ColumnsFit(spec, actual)
    ensures r == Gather(ColumnParts(spec, strict, actual))
  {
    ghost var parts := ColumnParts(spec, strict, actual);
    var statements: seq<Statement> := [];
    var i := 0;
    while i < |spec.columns|
      invariant 0 <= i <= |spec.columns|
      invariant Gather(parts[..i]) == Ok(statements)
    {
      assert parts[..i + 1][..i] == parts[..i];
      var c := spec.columns[i];
      assert c.name in ColumnNames(spec);
      var own := PlanColumn(spec.name, strict, c, actual.columns[c.name]);
      if own.Err? {
        ErrorSticks(parts, i + 1);
        return own;
      }
      statements := statements + own.value;
      i := i + 1;
    }
    assert parts[..i] == parts;
    return Ok(statements);
  }

  lemma {:induction false} ErrorSticks(parts: seq<Statements>, i: nat)
    requires i <= |parts| && Gather(parts[..i]).Err?
    ensures Gather(parts) == Gather(parts[..i])
  {
    if i == |parts| {
      assert parts[..i] == parts;
    } else {
      var front := parts[..|parts| - 1];
      assert front[..i] == parts[..i];
      ErrorSticks(front, i);
    }
  }

  class Connection {
    var db: Db

    constructor (db: Db)
      ensures this.db == db
    {
      this.db := db;
    }

    method StateTable(m: Manifest, spec: TableSpec, actual: Table) returns (r: Statements)
      ensures r == PlanTable(m, spec, actual, db.valid)
    {
      if !ColumnsFit(spec, actual) {
        return Err(WrongColumns);
      }
      r := StateColumns(spec, spec.name in m.strict, actual);
      if r.Err? || spec.name == USERS {
        return;
      }
      if !KeysFit(spec, actual, db.valid) {
        return Err(WrongKeys);
      }
      if !UniquesKnown(spec.name, actual, m.indexes) {
        return Err(UnknownUnique);
      }
    }

    method StateTables(m: Manifest) returns (r: Statements)
      requires TablesPresent(m, db)
      ensures r == Gather(TableParts(m, db))
    {
      ghost var parts := TableParts(m, db);
      var statements: seq<Statement> := [];
      var i := 0;
      while i < |m.tables|
        invariant 0 <= i <= |m.tables|
        invariant Gather(parts[..i]) == Ok(statements)
      {
        assert parts[..i + 1][..i] == parts[..i];
        var own := StateTable(m, m.tables[i], db.tables[m.tables[i].name]);
        if own.Err? {
          ErrorSticks(parts, i + 1);
          return own;
        }
        statements := statements + own.value;
        i := i + 1;
      }
      assert parts[..i] == parts;
      return Ok(statements);
    }

    method StateIndexes(m: Manifest) returns (r: Statements)
      ensures r == Gather(IndexParts(m, db))
    {
      ghost var parts := IndexParts(m, db);
      var statements: seq<Statement> := [];
      var i := 0;
      while i < |m.indexes|
        invariant 0 <= i <= |m.indexes|
        invariant Gather(parts[..i]) == Ok(statements)
      {
        assert parts[..i + 1][..i] == parts[..i];
        var own := PlanIndex(m.indexes[i], IndexesOf(db, m.indexes[i].table), db.valid);
        if own.Err? {
          ErrorSticks(parts, i + 1);
          return own;
        }
        statements := statements + own.value;
        i := i + 1;
      }
      assert parts[..i] == parts;
      return Ok(statements);
    }

    /** `_missing_seeds`. */
    method FindMissing(seeds: seq<Seed>) returns (missing: seq<Seed>)
      ensures missing == MissingSeeds(db.templates, seeds)
      ensures forall s :: s in missing <==>
                s in seeds && !exists t :: t in db.templates && t.kind == s.kind && t.name == s.name
    {
      forall s ensures s in MissingSeeds(db.templates, seeds) <==> s in seeds && !Present(s, db.templates) {
        MissingMembers(db.templates, seeds, s);
      }
      missing := [];
      var i := 0;
      while i < |seeds|
        invariant 0 <= i <= |seeds|
        invariant missing == MissingSeeds(db.templates, seeds[..i])
      {
        assert seeds[..i + 1][..i] == seeds[..i];
        if !Present(seeds[i], db.templates) {
          missing := missing + [seeds[i]];
        }
        i := i + 1;
      }
      assert seeds[..i] == seeds;
    }

    /** The planner's checks in their order. */
    method StateAll(m: Manifest) returns (r: Result<Plan, PlanError>)
      ensures r == PlanRepair(m, db)
    {
      if !TablesPresent(m, db) {
        return Err(MissingTable);
      }
      if db.versions != [BASE] && db.versions != [TARGET] {
        return Err(WrongRevision);
      }
      if !AllValidated(m, db) {
        return Err(UnvalidatedConstraint);
      }
      if !ConstraintsFit(m, db) {
        return Err(UnusualConstraint);
      }
      var alterations := StateTables(m);
      if alterations.Err? {
        return Err(alterations.error);
      }
      var creations := StateIndexes(m);
      if creations.Err? {
        return Err(creations.error);
      }
      if IdClash(db.templates, m.seeds) {
        return Err(SeedIdTaken);
      }
      var missing := FindMissing(m.seeds);
      var statements := alterations.value + creations.value;
      if db.versions == [TARGET] && (statements != [] || missing != []) {
        return Err(DriftAtTarget);
      }
      return Ok(Plan(statements, missing, db.versions[0]));
    }

    /** `plan_repair`: a plan exactly when the schema differs from the migrations by nothing but what may be repaired,
        and not at all at the target revision; nothing to do exactly when it does not differ. */
    method PlanNow(m: Manifest) returns (r: Result<Plan, PlanError>)
      ensures r == PlanRepair(m, db)
      ensures r.Ok? <==> || (db.versions == ["0015_aurakey_gallery_edit"] && Conforms(m, db, true))
                         || (db.versions == ["0020_ledger_mate_cat_templates"] && Conforms(m, db, false))
      ensures r.Ok? ==> (r.value.statements == [] && r.value.seeds == [] <==> Conforms(m, db, false))
    {
      PlanExactly(m, db);
      r := StateAll(m);
    }

    /** The statements, one after the other; stops at the first that is refused. */
    method ExecuteStatements(ss: seq<Statement>) returns (ok: bool)
      modifies this
      ensures ok <==> ExecuteAll(old(db), ss).Some?
      ensures ok ==> db == ExecuteAll(old(db), ss).value
    {
      var i := 0;
      while i < |ss|
        invariant 0 <= i <= |ss|
        invariant ExecuteAll(old(db), ss[..i]) == Some(db)
      {
        assert ss[..i + 1][..i] == ss[..i];
        var next := Execute(db, ss[i]);
        if next.None? {
          RefusalSticks(old(db), ss, i + 1);
          return false;
        }
        db := next.value;
        i := i + 1;
      }
      assert ss[..i] == ss;
      return true;
    }

    /** The transaction: an error puts the database back. */
    method ApplyPlan(m: Manifest, apply: bool) returns (r: Result<Plan, PlanError>)
      modifies this
      ensures match Repair(m, old(db), apply)
              case Ok(after) => r == PlanRepair(m, old(db)) && db == after
              case Err(e) => r == Err(e) && db == old(db)
    {
      var before := db;
      r := StateAll(m);
      if r.Err? || !apply || r.value.revision == TARGET {
        return;
      }
      var ok := ExecuteStatements(r.value.statements);
      if !ok {
        db := before;
        return Err(NameTaken);
      }
      var templates := InsertSeeds(db.templates, r.value.seeds);
      if templates.None? {
        db := before;
        return Err(SeedIdTaken);
      }
      db := db.(templates := templates.value);
      var check := StateAll(m);
      if check.Err? {
        db := before;
        return check;
      }
      if check.value.statements != [] || check.value.seeds != [] {
        db := before;
        return Err(NotConverged);
      }
      db := db.(versions := [TARGET]);
      check := StateAll(m);
      if check.Err? {
        db := before;
        return check;
      }
    }

    /** `repair`: applying ends with everything the migrations describe, at the target revision, or changes nothing. */
    method Apply(m: Manifest, apply: bool) returns (r: Result<Plan, PlanError>)
      modifies this
      ensures match Repair(m, old(db), apply)
              case Ok(after) => r == PlanRepair(m, old(db)) && db == after
              case Err(e) => r == Err(e) && db == old(db)
      ensures !apply || r.Err? ==> db == old(db)
      ensures apply && r.Ok? && ManifestOk(m) ==>
                db.versions == ["0020_ledger_mate_cat_templates"] && Conforms(m, db, false)
      ensures apply && ManifestOk(m) ==>
                (r.Ok? <==> || (old(db).versions == ["0020_ledger_mate_cat_templates"] && Conforms(m, old(db), false))
                            || (old(db).versions == ["0015_aurakey_gallery_edit"] && Conforms(m, old(db), true)
                                && NewNamesFree(m, old(db))))
    {
      if ManifestOk(m) { RepairEndsConforming(m, db); }
      r := ApplyPlan(m, apply);
    }
  }

  lemma {:induction false} RefusalSticks(db: Db, ss: seq<Statement>, i: nat)
    requires i <= |ss| && ExecuteAll(db, ss[..i]).None?
    ensures ExecuteAll(db, ss).None?
  {
    if i == |ss| {
      assert ss[..i] == ss;
    } else {
      assert ss[..|ss| - 1][..i] == ss[..i];
      RefusalSticks(db, ss[..|ss| - 1], i);
    }
  }
}
