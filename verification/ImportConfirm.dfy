/** Confirming an import batch: every row that is no duplicate becomes one record, all in one transaction. */
module ImportConfirm {
  import opened Wrappers
  import opened Records
  import opened NoteTags
  import opened Amounts
  import opened ImportRows

  predicate IsCategory(c: CategoryRow, kind: Kind, name: string) {
    c.kind == kind && c.name == name
  }

  /** The category of that name, enabled or not. */
  function CategoryNamed(cs: seq<CategoryRow>, kind: Kind, name: string): (found: Option<nat>)
    ensures found.Some? ==> found.value < |cs| && IsCategory(cs[found.value], kind, name)
    ensures found.None? ==> forall i :: 0 <= i < |cs| ==> !IsCategory(cs[i], kind, name)
  {
    if cs == [] then None
    else if IsCategory(cs[|cs| - 1], kind, name) then Some(|cs| - 1)
    else CategoryNamed(cs[..|cs| - 1], kind, name)
  }

  function MethodNamed(ms: seq<MethodRow>, name: string): (found: Option<nat>)
    ensures found.Some? ==> found.value < |ms| && ms[found.value].name == name
    ensures found.None? ==> forall i :: 0 <= i < |ms| ==> ms[i].name != name
  {
    if ms == [] then None
    else if ms[|ms| - 1].name == name then Some(|ms| - 1)
    else MethodNamed(ms[..|ms| - 1], name)
  }

  /** `_get_or_create_import_category`. */
  function GetOrCreateCategory(l: Listing, kind: Kind, name: string): (r: (Listing, nat))
    ensures r.1 < |r.0.categories| && r.0.categories[r.1] == CategoryRow(kind, name, true)
  {
    match CategoryNamed(l.categories, kind, name)
    case Some(i) => (l.(categories := l.categories[i := l.categories[i].(enabled := true)]), i)
    case None => (l.(categories := l.categories + [CategoryRow(kind, name, true)]), |l.categories|)
  }

  /** `_get_or_create_import_method`. */
  function GetOrCreateMethod(l: Listing, name: string): (r: (Listing, nat))
    ensures r.1 < |r.0.methods| && r.0.methods[r.1] == MethodRow(name, true)
  {
    match MethodNamed(l.methods, name)
    case Some(i) => (l.(methods := l.methods[i := l.methods[i].(enabled := true)]), i)
    case None => (l.(methods := l.methods + [MethodRow(name, true)]), |l.methods|)
  }

  /** What may be used by new records. */
  function Usable(l: Listing): Catalog {
    Catalog(map i: nat | i < |l.categories| && l.categories[i].enabled :: l.categories[i].kind,
            set i: nat | i < |l.methods| && l.methods[i].enabled)
  }

  datatype ConfirmError = NoBatch | HasErrors | HasDuplicates | InvalidRow | Refused(reason: CreateError)

  function StoredNote(row: Row): Option<string> {
    var note := Expand(row.note, row.ledger, row.second);
    if note == "" then None else Some(note)
  }

  /** What the record schema accepts. */
  predicate ValidRow(row: Row) {
    && row.kind.Some? && row.day.Some? && row.cents.Some? && 1 <= row.cents.value <= MAX_CENTS
    && |StoredNote(row).GetOr("")| <= NOTE_LIMIT
  }

  function ResolveCategory(l: Listing, row: Row): (Listing, nat)
    requires row.kind.Some?
  {
    if row.categoryId.Some? then (l, row.categoryId.value) else GetOrCreateCategory(l, row.kind.value, row.categoryName)
  }

  function ResolveMethod(l: Listing, row: Row): (Listing, Option<nat>) {
    if row.methodId.Some? then (l, row.methodId)
    else if row.methodName == "" then (l, None)
    else var (l', m) := GetOrCreateMethod(l, row.methodName); (l', Some(m))
  }

  function DraftOf(row: Row, category: nat, payment: Option<nat>): Draft
    requires ValidRow(row)
  {
    Draft(row.kind.value, row.cents.value, category, payment, row.day.value, StoredNote(row))
  }

  /** The tables a confirmation writes to. */
  datatype Tables = Tables(listing: Listing, records: seq<Record>)

  function ConfirmRow(t: Tables, user: nat, batch: nat, row: Row): Result<(Tables, nat), ConfirmError> {
    if !ValidRow(row) then Err(InvalidRow)
    else
      var (l1, category) := ResolveCategory(t.listing, row);
      var (l2, payment) := ResolveMethod(l1, row);
      match Create(t.records, user, Some(ImportKey(batch, row.number)), DraftOf(row, category, payment), FromImport,
                   Usable(l2))
      case Err(e) => Err(Refused(e))
      case Ok((rs, id)) => Ok((Tables(l2, rs), id))
  }

  function ConfirmRows(t: Tables, user: nat, batch: nat, rows: seq<Row>): Result<(Tables, seq<nat>), ConfirmError> {
    if rows == [] then Ok((t, []))
    else
      var n := |rows| - 1;
      match ConfirmRows(t, user, batch, rows[..n])
      case Err(e) => Err(e)
      case Ok((t', ids)) =>
        if rows[n].duplicate then Ok((t', ids))
        else
          match ConfirmRow(t', user, batch, rows[n])
          case Err(e) => Err(e)
          case Ok((t'', id)) => Ok((t'', ids + [id]))
  }

  /** The rows a confirmation imports. */
  function Imported(rows: seq<Row>): (kept: seq<Row>)
    ensures |kept| <= |rows|
  {
    if rows == [] then []
    else
      var n := |rows| - 1;
      Imported(rows[..n]) + if rows[n].duplicate then [] else [rows[n]]
  }

  datatype Receipt = Receipt(total: nat, imported: nat, skipped: nat, ids: seq<nat>)

  function ReceiptOf(rows: seq<Row>, ids: seq<nat>): Receipt
    requires |ids| <= |rows|
  {
    Receipt(|rows|, |ids|, |rows| - |Imported(rows)|, ids)
  }

  // ---------- what one confirmation does ----------

  /** Names, kinds and positions stay; only the flags move. */
  ghost predicate Extends(l: Listing, l': Listing) {
    && |l.categories| <= |l'.categories| && |l.methods| <= |l'.methods|
    && (forall i :: 0 <= i < |l.categories| ==> SameName(l.categories[i], l'.categories[i]))
    && (forall i :: 0 <= i < |l.methods| ==> l.methods[i].name == l'.methods[i].name)
  }

  /** What was enabled stays enabled. */
  ghost predicate KeepsEnabled(l: Listing, l': Listing) {
    && |l.categories| <= |l'.categories| && |l.methods| <= |l'.methods|
    && (forall i :: 0 <= i < |l.categories| && l.categories[i].enabled ==> l'.categories[i].enabled)
    && (forall i :: 0 <= i < |l.methods| && l.methods[i].enabled ==> l'.methods[i].enabled)
  }

  lemma CategoryStep(l: Listing, kind: Kind, name: string)
    requires Tidy(l) && TidyName(name)
    ensures var l' := GetOrCreateCategory(l, kind, name).0; Tidy(l') && Extends(l, l') && KeepsEnabled(l, l')
  {
  }

  lemma MethodStep(l: Listing, name: string)
    requires Tidy(l) && TidyName(name)
    ensures var l' := GetOrCreateMethod(l, name).0; Tidy(l') && Extends(l, l') && KeepsEnabled(l, l')
  {
  }

  lemma ExtendsThrough(a: Listing, b: Listing, c: Listing)
    requires Extends(a, b) && Extends(b, c)
    ensures Extends(a, c)
  {
  }

  lemma EnabledThrough(a: Listing, b: Listing, c: Listing)
    requires KeepsEnabled(a, b) && KeepsEnabled(b, c)
    ensures KeepsEnabled(a, c)
  {
  }

  /** What a row names, where it names anything, fits the tables. */
  predicate TidyRow(row: Row) {
    && (row.categoryId.Some? || TidyName(row.categoryName))
    && (row.methodId.Some? || row.methodName == "" || TidyName(row.methodName))
  }

  lemma ResolveStep(l: Listing, row: Row)
    requires Tidy(l) && TidyRow(row) && row.kind.Some?
    ensures var l2 := ResolveMethod(ResolveCategory(l, row).0, row).0; Tidy(l2) && Extends(l, l2) && KeepsEnabled(l, l2)
  {
    var l1 := ResolveCategory(l, row).0;
    if row.categoryId.None? { CategoryStep(l, row.kind.value, row.categoryName); }
    if row.methodId.None? && row.methodName != "" {
      MethodStep(l1, row.methodName);
      var l2 := ResolveMethod(l1, row).0;
      ExtendsThrough(l, l1, l2);
      EnabledThrough(l, l1, l2);
    }
  }

  /** The k-th id names the record that holds the k-th imported row's key. */
  ghost predicate IdsMatch(rs: seq<Record>, user: nat, batch: nat, rows: seq<Row>, ids: seq<nat>) {
    && |ids| == |rows|
    && forall k :: 0 <= k < |ids| ==> ids[k] < |rs| && HasKey(rs[ids[k]], user, ImportKey(batch, rows[k].number))
  }

  lemma {:induction false} ConfirmKeeps(t: Tables, user: nat, batch: nat, rows: seq<Row>)
    requires Tidy(t.listing) && UniqueKeys(t.records)
    requires forall k :: 0 <= k < |rows| ==> TidyRow(rows[k])
    requires ConfirmRows(t, user, batch, rows).Ok?
    ensures var (t', ids) := ConfirmRows(t, user, batch, rows).value;
            && Tidy(t'.listing) && Extends(t.listing, t'.listing) && KeepsEnabled(t.listing, t'.listing)
            && t.records <= t'.records && UniqueKeys(t'.records)
            && IdsMatch(t'.records, user, batch, Imported(rows), ids)
  {
    if rows != [] {
      var n := |rows| - 1;
      forall k | 0 <= k < n ensures TidyRow(rows[..n][k]) {
        assert rows[..n][k] == rows[k];
      }
      ConfirmKeeps(t, user, batch, rows[..n]);
      var (t1, ids) := ConfirmRows(t, user, batch, rows[..n]).value;
      if !rows[n].duplicate {
        ConfirmRowKeeps(t1, user, batch, rows[n]);
        var (t2, id) := ConfirmRow(t1, user, batch, rows[n]).value;
        ExtendsThrough(t.listing, t1.listing, t2.listing);
        EnabledThrough(t.listing, t1.listing, t2.listing);
        IdsMatchGrows(t1.records, t2.records, user, batch, Imported(rows[..n]), ids, rows[n], id);
      }
    }
  }

  lemma IdsMatchGrows(rs: seq<Record>, rs': seq<Record>, user: nat, batch: nat, rows: seq<Row>, ids: seq<nat>, row: Row,
                      id: nat)
    requires IdsMatch(rs, user, batch, rows, ids) && rs <= rs'
    requires id < |rs'| && HasKey(rs'[id], user, ImportKey(batch, row.number))
    ensures IdsMatch(rs', user, batch, rows + [row], ids + [id])
  {
    forall k | 0 <= k < |ids| ensures rs'[ids[k]] == rs[ids[k]] {
    }
  }

  lemma ConfirmRowKeeps(t: Tables, user: nat, batch: nat, row: Row)
    requires Tidy(t.listing) && UniqueKeys(t.records) && TidyRow(row)
    requires ConfirmRow(t, user, batch, row).Ok?
    ensures var (t', id) := ConfirmRow(t, user, batch, row).value;
            && Tidy(t'.listing) && Extends(t.listing, t'.listing) && KeepsEnabled(t.listing, t'.listing)
            && t.records <= t'.records && UniqueKeys(t'.records)
            && id < |t'.records| && HasKey(t'.records[id], user, ImportKey(batch, row.number))
            && !t'.records[id].deleted
  {
    ResolveStep(t.listing, row);
    var (l1, category) := ResolveCategory(t.listing, row);
    var (l2, payment) := ResolveMethod(l1, row);
    CreateKeepsUniqueKeys(t.records, user, Some(ImportKey(batch, row.number)), DraftOf(row, category, payment),
                          FromImport, Usable(l2));
  }

  /** Ids are determined by the rows' keys. */
  lemma IdsAgree(rs: seq<Record>, user: nat, batch: nat, rows: seq<Row>, a: seq<nat>, b: seq<nat>)
    requires UniqueKeys(rs) && IdsMatch(rs, user, batch, rows, a) && IdsMatch(rs, user, batch, rows, b)
    ensures a == b
  {
    forall k | 0 <= k < |a| ensures a[k] == b[k] {
      UniqueKeyHolder(rs, user, ImportKey(batch, rows[k].number), a[k]);
      UniqueKeyHolder(rs, user, ImportKey(batch, rows[k].number), b[k]);
    }
  }
}
