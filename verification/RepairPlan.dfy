/** The planner that compares a live schema with the one the pinned migrations describe, and the statements it emits. */
module RepairPlan {
  import opened Wrappers

  // ---------- what the migrations describe ----------

  /** A column default is kept in normalised form, without casts and outer parentheses. */
  datatype ColumnSpec = ColumnSpec(name: string, kind: string, nullable: bool, preset: Option<string>)

  datatype ForeignKey = ForeignKey(columns: seq<string>, target: seq<string>, plain: bool)

  datatype TableSpec = TableSpec(
    name: string, columns: seq<ColumnSpec>, primary: seq<string>, uniques: set<(string, seq<string>)>,
        foreign: seq<ForeignKey>)

  datatype IndexSpec = IndexSpec(name: string, table: string, columns: seq<string>, unique: bool, filter: string)

  datatype Seed = Seed(id: nat, kind: string, name: string)

  datatype Manifest = Manifest(tables: seq<TableSpec>, indexes: seq<IndexSpec>, seeds: seq<Seed>, strict: set<string>)

  // ---------- what inspection finds ----------

  datatype Column = Column(kind: string, nullable: bool, preset: Option<string>, generated: bool)

  /** `plain` means btree with default operator classes and sort order; `backing` that a constraint owns the index. */
  datatype Index = Index(name: string, columns: seq<string>, unique: bool, filter: string, plain: bool, backing: bool)

  datatype Table = Table(
    columns: map<string, Column>, primary: seq<string>, uniques: set<(string, seq<string>)>, foreign: seq<ForeignKey>,
    unvalidated: bool, unusual: bool, nullsNotDistinct: bool, indexes: seq<Index>)

  /** `relations` holds every relation name in the schema, `valid` the indexes that are valid and ready, `templates` the
      rows of the template table, and `versions` the rows of the version table. */
  datatype Db = Db(tables: map<string, Table>, relations: set<string>, valid: set<string>, templates: seq<Seed>,
                   versions: seq<string>)

  const BASE := "0015_aurakey_gallery_edit"
  const TARGET := "0020_ledger_mate_cat_templates"
  const USERS := "core_users"
  const VERSION_TABLE := "alembic_version"
  const ICON_TABLE := "ledger_mate_categories"
  const ICON := "icon"
  const NARROW := "VARCHAR(50)"
  const WIDE := "VARCHAR(500)"

  predicate Repairable(index: string) {
    index == "ix_lm_ai_messages_session_user" || index == "ix_lm_ai_refs_lookup"
  }

  predicate CanSetDefault(table: string, column: string) {
    || column == "is_deleted"
    || (table == "core_user_identities" && column == "provider")
    || (table == "ledger_mate_category_templates" && (column == "sort_order" || column == "is_enabled"))
  }

  datatype Statement =
    | WidenIcon(table: string)
    | SetDefault(table: string, column: string, value: string)
    | CreateIndex(name: string, table: string, columns: seq<string>)

  datatype PlanError =
    | MissingTable | WrongRevision | UnvalidatedConstraint | UnusualConstraint | WrongColumns | WrongType | WrongNull
    | GeneratedColumn | WrongDefault | WrongKeys | UnknownUnique | WrongIndex | UnreadyIndex | MissingIndex
        | SeedIdTaken
    | DriftAtTarget | NameTaken | NotConverged

  type Statements = Result<seq<Statement>, PlanError>

  // ---------- planning ----------

  function PlanType(table: string, spec: ColumnSpec, actual: Column): Statements {
    if actual.kind == spec.kind then Ok([])
    else if table == ICON_TABLE && spec.name == ICON && actual.kind == NARROW && spec.kind == WIDE
         then Ok([WidenIcon(table)])
    else Err(WrongType)
  }

  predicate NullAccepted(strict: bool, spec: ColumnSpec, actual: Column) {
    || actual.nullable == spec.nullable
    || (strict && (spec.name == "created_at" || spec.name == "updated_at") && spec.nullable && !actual.nullable)
  }

  function PlanDefault(table: string, spec: ColumnSpec, actual: Column): Statements {
    if actual.preset == spec.preset then Ok([])
    else if actual.preset.Some? || spec.preset.None? || !CanSetDefault(table, spec.name) then Err(WrongDefault)
    else Ok([SetDefault(table, spec.name, spec.preset.value)])
  }

  function PlanColumn(table: string, strict: bool, spec: ColumnSpec, actual: Column): Statements {
    match PlanType(table, spec, actual)
    case Err(e) => Err(e)
    case Ok(kind) =>
      if !NullAccepted(strict, spec, actual) then Err(WrongNull)
      else if actual.generated then Err(GeneratedColumn)
      else
        match PlanDefault(table, spec, actual)
        case Err(e) => Err(e)
        case Ok(preset) => Ok(kind + preset)
  }

  function ColumnNames(spec: TableSpec): set<string> {
    set c | c in spec.columns :: c.name
  }

  predicate ColumnsFit(spec: TableSpec, actual: Table) {
    && ColumnNames(spec) <= actual.columns.Keys
    && (spec.name != USERS ==> actual.columns.Keys == ColumnNames(spec))
  }

  /** All parts one after the other, or the first error. */
  function Gather(parts: seq<Statements>): Statements {
    if parts == [] then Ok([])
    else
      match Gather(parts[..|parts| - 1])
      case Err(e) => Err(e)
      case Ok(before) =>
        match parts[|parts| - 1]
        case Err(e) => Err(e)
        case Ok(own) => Ok(before + own)
  }

  function ColumnPart(spec: TableSpec, strict: bool, actual: Table, k: nat): Statements
    requires k < |spec.columns| && ColumnsFit(spec, actual)
  {
    var c := spec.columns[k];
    assert c.name in ColumnNames(spec);
    PlanColumn(spec.name, strict, c, actual.columns[c.name])
  }

  function ColumnParts(spec: TableSpec, strict: bool, actual: Table): seq<Statements>
    requires ColumnsFit(spec, actual)
  {
    seq(|spec.columns|, k requires 0 <= k < |spec.columns| => ColumnPart(spec, strict, actual, k))
  }

  predicate KeysFit(spec: TableSpec, actual: Table, valid: set<string>) {
    && actual.primary == spec.primary
    && actual.uniques == spec.uniques && !actual.nullsNotDistinct && (forall u :: u in actual.uniques ==> u.0 in valid)
    && |actual.foreign| == |spec.foreign| && (forall f :: f in spec.foreign ==> f in actual.foreign)
  }

  predicate IndexMatches(actual: Index, expected: IndexSpec) {
    actual.columns == expected.columns && actual.unique == expected.unique && actual.filter == expected.filter
    && actual.plain
  }

  predicate UniqueKnown(index: Index, table: string, specs: seq<IndexSpec>) {
    index.unique && !index.backing ==> exists s :: s in specs && s.table == table && s.unique && IndexMatches(index, s)
  }

  predicate UniquesKnown(table: string, actual: Table, specs: seq<IndexSpec>) {
    forall i :: i in actual.indexes ==> UniqueKnown(i, table, specs)
  }

  function PlanTable(m: Manifest, spec: TableSpec, actual: Table, valid: set<string>): Statements {
    if !ColumnsFit(spec, actual) then Err(WrongColumns)
    else
      match Gather(ColumnParts(spec, spec.name in m.strict, actual))
      case Err(e) => Err(e)
      case Ok(statements) =>
        if spec.name == USERS then Ok(statements)
        else if !KeysFit(spec, actual, valid) then Err(WrongKeys)
        else if !UniquesKnown(spec.name, actual, m.indexes) then Err(UnknownUnique)
        else Ok(statements)
  }

  predicate TablesPresent(m: Manifest, db: Db) {
    VERSION_TABLE in db.tables && forall t :: t in m.tables ==> t.name in db.tables
  }

  function TableParts(m: Manifest, db: Db): seq<Statements>
    requires TablesPresent(m, db)
  {
    seq(|m.tables|, k requires 0 <= k < |m.tables| => PlanTable(m, m.tables[k], db.tables[m.tables[k].name], db.valid))
  }

  predicate Named(index: Index, name: string) {
    index.name == name
  }

  function FirstNamed(indexes: seq<Index>, name: string): (i: Option<Index>)
    ensures i.Some? ==> i.value in indexes && Named(i.value, name)
    ensures i.None? ==> forall x :: x in indexes ==> !Named(x, name)
  {
    if indexes == [] then None else if Named(indexes[0], name) then Some(indexes[0]) else FirstNamed(indexes[1..], name)
  }

  predicate AnyMatch(indexes: seq<Index>, spec: IndexSpec) {
    exists i :: i in indexes && IndexMatches(i, spec)
  }

  predicate ReadyMatch(indexes: seq<Index>, spec: IndexSpec, valid: set<string>) {
    exists i :: i in indexes && IndexMatches(i, spec) && i.name in valid
  }

  function PlanIndex(spec: IndexSpec, indexes: seq<Index>, valid: set<string>): Statements {
    var sameName := FirstNamed(indexes, spec.name);
    if sameName.Some? && !IndexMatches(sameName.value, spec) then Err(WrongIndex)
    else if AnyMatch(indexes, spec) then if ReadyMatch(indexes, spec, valid) then Ok([]) else Err(UnreadyIndex)
    else if Repairable(spec.name) then Ok([CreateIndex(spec.name, spec.table, spec.columns)])
    else Err(MissingIndex)
  }

  function IndexesOf(db: Db, table: string): seq<Index> {
    if table in db.tables then db.tables[table].indexes else []
  }

  function IndexParts(m: Manifest, db: Db): seq<Statements> {
    seq(|m.indexes|, k requires 0 <= k < |m.indexes| =>
          PlanIndex(m.indexes[k], IndexesOf(db, m.indexes[k].table), db.valid))
  }

  predicate SameKey(a: Seed, b: Seed) {
    a.kind == b.kind && a.name == b.name
  }

  predicate IdClash(templates: seq<Seed>, seeds: seq<Seed>) {
    exists t, s :: t in templates && s in seeds && t.id == s.id && !SameKey(t, s)
  }

  predicate Present(seed: Seed, templates: seq<Seed>) {
    exists t :: t in templates && SameKey(t, seed)
  }

  function MissingSeeds(templates: seq<Seed>, seeds: seq<Seed>): seq<Seed> {
    if seeds == [] then []
    else
      var n := |seeds| - 1;
      MissingSeeds(templates, seeds[..n]) + if Present(seeds[n], templates) then [] else [seeds[n]]
  }

  datatype Plan = Plan(statements: seq<Statement>, seeds: seq<Seed>, revision: string)

  predicate ConstraintsFit(m: Manifest, db: Db)
    requires TablesPresent(m, db)
  {
    forall t :: t in m.tables ==> t.name == USERS || !db.tables[t.name].unusual
  }

  predicate AllValidated(m: Manifest, db: Db)
    requires TablesPresent(m, db)
  {
    forall t :: t in m.tables ==> !db.tables[t.name].unvalidated
  }

  /** `plan_repair`. */
  function PlanRepair(m: Manifest, db: Db): Result<Plan, PlanError> {
    if !TablesPresent(m, db) then Err(MissingTable)
    else if db.versions != [BASE] && db.versions != [TARGET] then Err(WrongRevision)
    else if !AllValidated(m, db) then Err(UnvalidatedConstraint)
    else if !ConstraintsFit(m, db) then Err(UnusualConstraint)
    else
      match Gather(TableParts(m, db))
      case Err(e) => Err(e)
      case Ok(alterations) =>
        match Gather(IndexParts(m, db))
        case Err(e) => Err(e)
        case Ok(creations) =>
          if IdClash(db.templates, m.seeds) then Err(SeedIdTaken)
          else
            var missing := MissingSeeds(db.templates, m.seeds);
            if db.versions == [TARGET] && (alterations + creations != [] || missing != []) then Err(DriftAtTarget)
            else Ok(Plan(alterations + creations, missing, db.versions[0]))
  }

  // ---------- executing ----------

  function SetColumn(db: Db, table: string, column: string, c: Column): Db
    requires table in db.tables
  {
    db.(tables := db.tables[table := db.tables[table].(columns := db.tables[table].columns[column := c])])
  }

  /** One statement; a statement PostgreSQL would refuse gives nothing. */
  function Execute(db: Db, s: Statement): Option<Db> {
    if s.table !in db.tables then None
    else
      var t := db.tables[s.table];
      match s
      case WidenIcon(_) => if ICON in t.columns then Some(SetColumn(db, s.table, ICON, t.columns[ICON].(kind := WIDE)))
                           else None
      case SetDefault(_, c, v) =>
        if c in t.columns then Some(SetColumn(db, s.table, c, t.columns[c].(preset := Some(v)))) else None
      case CreateIndex(name, _, columns) =>
        if name in db.relations then None
        else
          var indexes := t.indexes + [Index(name, columns, false, "", true, false)];
          Some(db.(tables := db.tables[s.table := t.(indexes := indexes)],
                   relations := db.relations + {name}, valid := db.valid + {name}))
  }

  function ExecuteAll(db: Db, ss: seq<Statement>): Option<Db> {
    if ss == [] then Some(db)
    else
      match ExecuteAll(db, ss[..|ss| - 1])
      case None => None
      case Some(mid) => Execute(mid, ss[|ss| - 1])
  }

  /** Insert with ON CONFLICT (kind, name) DO NOTHING; a clash of ids alone is an error. */
  function InsertSeeds(templates: seq<Seed>, seeds: seq<Seed>): Option<seq<Seed>> {
    if seeds == [] then Some(templates)
    else
      match InsertSeeds(templates, seeds[..|seeds| - 1])
      case None => None
      case Some(mid) =>
        var s := seeds[|seeds| - 1];
        if Present(s, mid) then Some(mid) else if exists t :: t in mid && t.id == s.id then None else Some(mid + [s])
  }

  /** `repair`: the new database, or an error that rolls everything back. */
  function Repair(m: Manifest, db: Db, apply: bool): Result<Db, PlanError> {
    match PlanRepair(m, db)
    case Err(e) => Err(e)
    case Ok(plan) =>
      if !apply || plan.revision == TARGET then Ok(db)
      else
        match ExecuteAll(db, plan.statements)
        case None => Err(NameTaken)
        case Some(altered) =>
          match InsertSeeds(altered.templates, plan.seeds)
          case None => Err(SeedIdTaken)
          case Some(templates) =>
            var seeded := altered.(templates := templates);
            match PlanRepair(m, seeded)
            case Err(e) => Err(e)
            case Ok(check) =>
              if check.statements != [] || check.seeds != [] then Err(NotConverged)
              else
                var done := seeded.(versions := [TARGET]);
                match PlanRepair(m, done)
                case Err(e) => Err(e)
                case Ok(_) => Ok(done)
  }
}
