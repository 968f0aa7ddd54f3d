/** Import batches of one user under concurrent and repeated confirmation: a confirmation reads the batch without a
    lock, and later writes under the batch's advisory lock without reading the status again. */
module ImportRuns {
  import opened Wrappers
  import opened Records
  import opened Amounts
  import opened ImportRows
  import opened ImportConfirm

  datatype Batch = Batch(rows: seq<Row>, receipt: Option<Receipt>)

  /** `pending` holds the confirmations between their unlocked read and their locked write; `answers` logs every
      success that was returned. */
  datatype World = World(tables: Tables, batches: seq<Batch>, pending: map<nat, nat>, answers: seq<(nat, Receipt)>)

  function Relist(w: World, listing: Listing): World {
    w.(tables := w.tables.(listing := listing))
  }

  function AddRows(w: World, user: nat, raws: seq<Raw>, first: nat): World {
    var existing := AllPrints(w.tables.records, user, w.tables.listing);
    w.(batches := w.batches + [Batch(Preview(raws, w.tables.listing, existing, first), None)])
  }

  /** `preview_import`: one transaction that brings the default categories and methods up to date and adds the batch; a
      row that raises rolls both back. */
  function AddBatch(w: World, user: nat, raws: seq<Raw>, first: nat, synced: Listing): World {
    if AnyRaises(raws) then w else AddRows(Relist(w, synced), user, raws, first)
  }

  predicate AnyErrors(rows: seq<Row>) {
    exists k :: 0 <= k < |rows| && rows[k].errors != []
  }

  predicate AnyDuplicates(rows: seq<Row>) {
    exists k :: 0 <= k < |rows| && rows[k].duplicate
  }

  /** The unlocked first half of `confirm_import`: an answer, an error, or permission to go on. */
  function Guard(batches: seq<Batch>, batch: nat, skip: bool): Result<Option<Receipt>, ConfirmError> {
    if batch >= |batches| then Err(NoBatch)
    else if batches[batch].receipt.Some? then Ok(batches[batch].receipt)
    else if AnyErrors(batches[batch].rows) then Err(HasErrors)
    else if AnyDuplicates(batches[batch].rows) && !skip then Err(HasDuplicates)
    else Ok(None)
  }

  function Begin(w: World, worker: nat, batch: nat, skip: bool): World {
    match Guard(w.batches, batch, skip)
    case Err(_) => w
    case Ok(Some(receipt)) => w.(answers := w.answers + [(batch, receipt)])
    case Ok(None) => w.(pending := w.pending[worker := batch])
  }

  /** The locked second half: all rows and the receipt, or nothing. */
  function Commit(w: World, user: nat, worker: nat): World
    requires worker in w.pending && w.pending[worker] < |w.batches|
  {
    var batch := w.pending[worker];
    var rows := w.batches[batch].rows;
    var done := w.(pending := w.pending - {worker});
    match ConfirmRows(w.tables, user, batch, rows)
    case Err(_) => done
    case Ok((t, ids)) =>
      if |ids| > |rows| then done
      else
        var receipt := ReceiptOf(rows, ids);
        done.(tables := t, batches := w.batches[batch := Batch(rows, Some(receipt))],
              answers := w.answers + [(batch, receipt)])
  }

  datatype Action =
    | DoPreview(raws: seq<Raw>, first: nat, synced: Listing)
    | DoBegin(worker: nat, batch: nat, skip: bool)
    | DoCommit(worker: nat)
    | DoCrash(worker: nat)
    | DoCreate(owner: nat, key: Option<RecordKey>, draft: Draft, source: Source, catalog: Catalog)
    | DoUpdate(id: nat, draft: Draft)
    | DoDelete(id: nat)
    | DoRelist(listing: Listing)

  /** Other writers may create, change or delete any record, and enable, disable or add categories and methods. */
  ghost predicate Enabled(w: World, a: Action) {
    match a
    case DoPreview(_, _, synced) => Tidy(synced) && Extends(w.tables.listing, synced)
    case DoBegin(worker, _, _) => worker !in w.pending
    case DoCommit(worker) => worker in w.pending && w.pending[worker] < |w.batches|
    case DoCrash(worker) => worker in w.pending
    case DoCreate(_, _, _, _, _) => true
    case DoUpdate(id, _) => id < |w.tables.records|
    case DoDelete(id) => id < |w.tables.records|
    case DoRelist(listing) => Tidy(listing) && Extends(w.tables.listing, listing)
  }

  function SetRecords(w: World, rs: seq<Record>): World {
    w.(tables := w.tables.(records := rs))
  }

  ghost function Step(w: World, user: nat, a: Action): World
    requires Enabled(w, a)
  {
    match a
    case DoPreview(raws, first, synced) => AddBatch(w, user, raws, first, synced)
    case DoBegin(worker, batch, skip) => Begin(w, worker, batch, skip)
    case DoCommit(worker) => Commit(w, user, worker)
    case DoCrash(worker) => w.(pending := w.pending - {worker})
    case DoCreate(owner, key, draft, source, catalog) =>
      (match Create(w.tables.records, owner, key, draft, source, catalog)
       case Ok((rs, _)) => SetRecords(w, rs)
       case Err(_) => w)
    case DoUpdate(id, draft) => SetRecords(w, w.tables.records[id := w.tables.records[id].(draft := draft)])
    case DoDelete(id) => SetRecords(w, w.tables.records[id := w.tables.records[id].(deleted := true)])
    case DoRelist(listing) => Relist(w, listing)
  }

  ghost function Run(w: World, user: nat, actions: seq<Action>): World {
    if actions == [] then w
    else
      var mid := Run(w, user, actions[..|actions| - 1]);
      if Enabled(mid, actions[|actions| - 1]) then Step(mid, user, actions[|actions| - 1]) else mid
  }

  ghost predicate Start(w: World) {
    Tidy(w.tables.listing) && UniqueKeys(w.tables.records) && w.batches == [] && w.pending == map[] && w.answers == []
  }

  // ---------- the invariant ----------

  /** A receipt adds up, and its ids are the records that hold the imported rows' keys. */
  ghost predicate Settled(rs: seq<Record>, user: nat, batch: nat, rows: seq<Row>, r: Receipt) {
    && r.total == |rows| && r.imported == |r.ids| && r.imported + r.skipped == r.total
    && IdsMatch(rs, user, batch, Imported(rows), r.ids)
  }

  /** Rows without errors are fit to be stored; a row's number is its place in the file. */
  ghost predicate RowOk(row: Row) {
    row.errors == [] ==> TidyRow(row) && ValidRow(row)
  }

  ghost predicate RowsOk(rows: seq<Row>) {
    && (forall k :: 0 <= k < |rows| ==> RowOk(rows[k]))
    && (forall j, k :: 0 <= j < k < |rows| ==> rows[j].number < rows[k].number)
  }

  ghost predicate BatchOk(w: World, user: nat, b: nat)
    requires b < |w.batches|
  {
    && RowsOk(w.batches[b].rows)
    && (w.batches[b].receipt.Some? ==>
          Settled(w.tables.records, user, b, w.batches[b].rows, w.batches[b].receipt.value))
  }

  ghost predicate AnswerOk(w: World, user: nat, answer: (nat, Receipt)) {
    answer.0 < |w.batches| && Settled(w.tables.records, user, answer.0, w.batches[answer.0].rows, answer.1)
  }

  ghost predicate Inv(w: World, user: nat) {
    && Tidy(w.tables.listing) && UniqueKeys(w.tables.records)
    && (forall b :: 0 <= b < |w.batches| ==> BatchOk(w, user, b))
    && (forall p :: p in w.pending ==> w.pending[p] < |w.batches| && !AnyErrors(w.batches[w.pending[p]].rows))
    && (forall i :: 0 <= i < |w.answers| ==> AnswerOk(w, user, w.answers[i]))
  }

  /** Rows keep their place, owner and key. */
  ghost predicate KeysStay(rs: seq<Record>, rs': seq<Record>) {
    |rs| <= |rs'| && forall i :: 0 <= i < |rs| ==> rs'[i].user == rs[i].user && rs'[i].key == rs[i].key
  }

  lemma SettledStays(rs: seq<Record>, rs': seq<Record>, user: nat, batch: nat, rows: seq<Row>, r: Receipt)
    requires Settled(rs, user, batch, rows, r) && KeysStay(rs, rs')
    ensures Settled(rs', user, batch, rows, r)
  {
    forall k | 0 <= k < |r.ids|
      ensures r.ids[k] < |rs'| && HasKey(rs'[r.ids[k]], user, ImportKey(batch, Imported(rows)[k].number))
    {
    }
  }

  /** A step that only moves the tables along keeps everything. */
  lemma TablesStep(w: World, user: nat, t: Tables)
    requires Inv(w, user)
    requires Tidy(t.listing) && UniqueKeys(t.records) && KeysStay(w.tables.records, t.records)
    ensures Inv(w.(tables := t), user)
  {
    var v := w.(tables := t);
    forall b | 0 <= b < |v.batches| ensures BatchOk(v, user, b) {
      assert BatchOk(w, user, b);
      if v.batches[b].receipt.Some? {
        SettledStays(w.tables.records, t.records, user, b, v.batches[b].rows, v.batches[b].receipt.value);
      }
    }
    forall i | 0 <= i < |v.answers| ensures AnswerOk(v, user, v.answers[i]) {
      assert AnswerOk(w, user, w.answers[i]);
      SettledStays(w.tables.records, t.records, user, v.answers[i].0, v.batches[v.answers[i].0].rows, v.answers[i].1);
    }
  }

  lemma SetRecordKeepsKeys(rs: seq<Record>, id: nat, r: Record)
    requires UniqueKeys(rs) && id < |rs| && r.user == rs[id].user && r.key == rs[id].key
    ensures UniqueKeys(rs[id := r]) && KeysStay(rs, rs[id := r])
  {
    var rs' := rs[id := r];
    forall i, j | 0 <= i < j < |rs'| && rs'[i].key.Some? ensures !HasKey(rs'[j], rs'[i].user, rs'[i].key.value) {
      assert rs[i].key == rs'[i].key && rs[j].key == rs'[j].key;
      assert !HasKey(rs[j], rs[i].user, rs[i].key.value);
    }
  }

  // ---------- previewed rows are fit to be stored ----------

  lemma ChoicesTidy(f: Fields, kind: Option<Kind>, l: Listing)
    ensures var c := ChooseCategory(f, kind, l); c.errors == [] ==> c.id.Some? || TidyName(c.name)
    ensures var m := ChooseMethod(f, l); m.errors == [] ==> m.id.Some? || m.name == "" || TidyName(m.name)
  {
  }

  lemma NormalizedRowOk(raw: Raw, l: Listing, number: nat)
    ensures RowOk(Normalize(raw, l, number)) && Normalize(raw, l, number).number == number
  {
    if raw.Object? {
      var f := raw.fields;
      var row := Normalize(raw, l, number);
      if row.errors == [] {
        NoErrors(f, l, number);
        AmountInRange(f);
        ChoicesTidy(f, CellValue(f.kind), l);
      }
    }
  }

  lemma AmountInRange(f: Fields)
    requires AmountOf(f).Ok?
    ensures 1 <= AmountOf(f).value <= MAX_CENTS
  {
    var cents := Present(f.amountCent);
    var cell := if cents.Some? then cents else Present(f.amount);
    if cell.Some? { AcceptedAmountIsExact(cell.value, cents.Some?); }
  }

  lemma FlagKeeps(row: Row, seen: set<Fingerprint>, existing: set<Fingerprint>)
    requires RowOk(row)
    ensures RowOk(Flag(row, seen, existing)) && Flag(row, seen, existing).number == row.number
  {
  }

  lemma AppendRow(rows: seq<Row>, row: Row, first: nat)
    requires RowsOk(rows) && RowOk(row) && row.number == first + |rows|
    requires forall k :: 0 <= k < |rows| ==> rows[k].number == first + k
    ensures RowsOk(rows + [row]) && forall k :: 0 <= k <= |rows| ==> (rows + [row])[k].number == first + k
  {
  }

  lemma {:induction false} FlagRowsOk(rows: seq<Row>, existing: set<Fingerprint>, first: nat)
    requires forall k :: 0 <= k < |rows| ==> RowOk(rows[k]) && rows[k].number == first + k
    ensures var r := FlagRows(rows, existing).rows; RowsOk(r) && forall k :: 0 <= k < |r| ==> r[k].number == first + k
  {
    if rows != [] {
      var n := |rows| - 1;
      FlagRowsOk(rows[..n], existing, first);
      var before := FlagRows(rows[..n], existing);
      FlagKeeps(rows[n], before.seen, existing);
      AppendRow(before.rows, Flag(rows[n], before.seen, existing), first);
    }
  }

  lemma PreviewRowsOk(raws: seq<Raw>, l: Listing, existing: set<Fingerprint>, first: nat)
    ensures var rows := Preview(raws, l, existing, first);
            RowsOk(rows) && forall k :: 0 <= k < |rows| ==> rows[k].number == first + k
  {
    var rows := NormalizeAll(raws, l, first);
    forall k | 0 <= k < |rows| ensures RowOk(rows[k]) && rows[k].number == first + k {
      NormalizedRowOk(raws[k], l, first + k);
      NormalizeAllAt(raws, l, first, k);
    }
    FlagRowsOk(rows, existing, first);
  }

  // ---------- every step keeps the invariant ----------

  lemma RowsKeep(w: World, user: nat, raws: seq<Raw>, first: nat)
    requires Inv(w, user)
    ensures Inv(AddRows(w, user, raws, first), user)
  {
    var v := AddRows(w, user, raws, first);
    PreviewRowsOk(raws, w.tables.listing, AllPrints(w.tables.records, user, w.tables.listing), first);
    forall b | 0 <= b < |w.batches| ensures v.batches[b] == w.batches[b] && BatchOk(v, user, b) {
      assert BatchOk(w, user, b);
    }
    forall i | 0 <= i < |v.answers| ensures AnswerOk(v, user, v.answers[i]) {
      assert AnswerOk(w, user, w.answers[i]);
    }
  }

  lemma PreviewKeeps(w: World, user: nat, raws: seq<Raw>, first: nat, synced: Listing)
    requires Inv(w, user) && Tidy(synced) && Extends(w.tables.listing, synced)
    ensures Inv(AddBatch(w, user, raws, first, synced), user)
  {
    TablesStep(w, user, w.tables.(listing := synced));
    RowsKeep(Relist(w, synced), user, raws, first);
  }

  lemma BeginKeeps(w: World, user: nat, worker: nat, batch: nat, skip: bool)
    requires Inv(w, user)
    ensures Inv(Begin(w, worker, batch, skip), user)
  {
    var v := Begin(w, worker, batch, skip);
    assert v.batches == w.batches && v.tables == w.tables;
    forall b | 0 <= b < |v.batches| ensures BatchOk(v, user, b) {
      assert BatchOk(w, user, b);
    }
    forall i | 0 <= i < |v.answers| ensures AnswerOk(v, user, v.answers[i]) {
      if i < |w.answers| {
        assert AnswerOk(w, user, w.answers[i]);
      } else {
        assert BatchOk(w, user, batch);
      }
    }
  }

  lemma {:induction false} ImportedCount(rows: seq<Row>, t: Tables, user: nat, batch: nat)
    requires ConfirmRows(t, user, batch, rows).Ok?
    ensures |ConfirmRows(t, user, batch, rows).value.1| == |Imported(rows)|
  {
    if rows != [] { ImportedCount(rows[..|rows| - 1], t, user, batch); }
  }

  lemma ConfirmedSettles(w: World, user: nat, batch: nat)
    requires Inv(w, user) && batch < |w.batches| && !AnyErrors(w.batches[batch].rows)
    requires ConfirmRows(w.tables, user, batch, w.batches[batch].rows).Ok?
    ensures var rows := w.batches[batch].rows;
            var (t, ids) := ConfirmRows(w.tables, user, batch, rows).value;
            && Tidy(t.listing) && UniqueKeys(t.records) && KeysStay(w.tables.records, t.records)
            && |ids| <= |rows| && Settled(t.records, user, batch, rows, ReceiptOf(rows, ids))
  {
    var rows := w.batches[batch].rows;
    assert BatchOk(w, user, batch);
    forall k | 0 <= k < |rows| ensures TidyRow(rows[k]) {
      assert RowOk(rows[k]);
    }
    ConfirmKeeps(w.tables, user, batch, rows);
    ImportedCount(rows, w.tables, user, batch);
  }

  lemma CommitKeeps(w: World, user: nat, worker: nat)
    requires Inv(w, user) && worker in w.pending && w.pending[worker] < |w.batches|
    ensures Inv(Commit(w, user, worker), user)
  {
    var batch := w.pending[worker];
    var rows := w.batches[batch].rows;
    var v := Commit(w, user, worker);
    if ConfirmRows(w.tables, user, batch, rows).Ok? {
      ConfirmedSettles(w, user, batch);
      var (t, ids) := ConfirmRows(w.tables, user, batch, rows).value;
      TablesStep(w, user, t);
      var moved := w.(tables := t);
      forall b | 0 <= b < |v.batches| ensures v.batches[b].rows == w.batches[b].rows && BatchOk(v, user, b) {
        assert BatchOk(moved, user, b);
      }
      forall i | 0 <= i < |v.answers| ensures AnswerOk(v, user, v.answers[i]) {
        if i < |w.answers| { assert AnswerOk(moved, user, moved.answers[i]); }
      }
      assert Inv(v, user);
    } else {
      forall b | 0 <= b < |v.batches| ensures BatchOk(v, user, b) { assert BatchOk(w, user, b); }
      forall i | 0 <= i < |v.answers|
        ensures AnswerOk(v, user, v.answers[i])
      {
        assert AnswerOk(w, user, w.answers[i]);
      }
    }
  }

  lemma CrashKeeps(w: World, user: nat, worker: nat)
    requires Inv(w, user)
    ensures Inv(w.(pending := w.pending - {worker}), user)
  {
    var v := w.(pending := w.pending - {worker});
    forall b | 0 <= b < |v.batches| ensures BatchOk(v, user, b) { assert BatchOk(w, user, b); }
    forall i | 0 <= i < |v.answers| ensures AnswerOk(v, user, v.answers[i]) { assert AnswerOk(w, user, w.answers[i]); }
  }

  lemma StepInv(w: World, user: nat, a: Action)
    requires Inv(w, user) && Enabled(w, a)
    ensures Inv(Step(w, user, a), user)
  {
    var rs := w.tables.records;
    match a
    case DoPreview(raws, first, synced) => PreviewKeeps(w, user, raws, first, synced);
    case DoBegin(worker, batch, skip) => BeginKeeps(w, user, worker, batch, skip);
    case DoCommit(worker) => CommitKeeps(w, user, worker);
    case DoCrash(worker) => CrashKeeps(w, user, worker);
    case DoCreate(owner, key, draft, source, catalog) =>
      CreateKeepsUniqueKeys(rs, owner, key, draft, source, catalog);
      var r := Create(rs, owner, key, draft, source, catalog);
      if r.Ok? { TablesStep(w, user, w.tables.(records := r.value.0)); }
    case DoUpdate(id, draft) =>
      SetRecordKeepsKeys(rs, id, rs[id].(draft := draft));
      TablesStep(w, user, w.tables.(records := rs[id := rs[id].(draft := draft)]));
    case DoDelete(id) =>
      SetRecordKeepsKeys(rs, id, rs[id].(deleted := true));
      TablesStep(w, user, w.tables.(records := rs[id := rs[id].(deleted := true)]));
    case DoRelist(listing) => TablesStep(w, user, w.tables.(listing := listing));
  }

  lemma {:induction false} RunInv(w: World, user: nat, actions: seq<Action>)
    requires Inv(w, user)
    ensures Inv(Run(w, user, actions), user)
  {
    if actions != [] {
      RunInv(w, user, actions[..|actions| - 1]);
      var mid := Run(w, user, actions[..|actions| - 1]);
      if Enabled(mid, actions[|actions| - 1]) { StepInv(mid, user, actions[|actions| - 1]); }
    }
  }

  // ---------- what holds over every run ----------

  /** Every success ever returned for a batch is the same receipt, which accounts for every row; the ids stay the ids of
      the records that hold the rows' keys, whatever happened to those records since. */
  lemma AnswersAgree(w: World, user: nat, actions: seq<Action>, i: nat, j: nat)
    requires Start(w)
    ensures var v := Run(w, user, actions);
            i < |v.answers| && j < |v.answers| && v.answers[i].0 == v.answers[j].0 ==>
              && v.answers[i] == v.answers[j]
              && v.answers[i].0 < |v.batches|
              && Settled(v.tables.records, user, v.answers[i].0, v.batches[v.answers[i].0].rows, v.answers[i].1)
  {
    RunInv(w, user, actions);
    var v := Run(w, user, actions);
    if i < |v.answers| && j < |v.answers| && v.answers[i].0 == v.answers[j].0 {
      assert AnswerOk(v, user, v.answers[i]) && AnswerOk(v, user, v.answers[j]);
      var rows := v.batches[v.answers[i].0].rows;
      IdsAgree(v.tables.records, user, v.answers[i].0, Imported(rows), v.answers[i].1.ids, v.answers[j].1.ids);
    }
  }

  /** No row of a batch ever has two records, however many confirmations ran. */
  lemma OneRecordPerRow(w: World, user: nat, actions: seq<Action>, batch: nat, number: nat, i: nat, j: nat)
    requires Start(w)
    ensures var rs := Run(w, user, actions).tables.records;
            i < |rs| && j < |rs| && HasKey(rs[i], user, ImportKey(batch, number))
            && HasKey(rs[j], user, ImportKey(batch, number))
            ==> i == j
  {
    RunInv(w, user, actions);
  }

  // ---------- repeated confirmations ----------

  ghost predicate AllLive(rs: seq<Record>, ids: seq<nat>) {
    forall k :: 0 <= k < |ids| ==> ids[k] < |rs| && !rs[ids[k]].deleted
  }

  /** Confirming one row again finds its record, unless that was deleted. */
  lemma ReplayRow(t: Tables, user: nat, batch: nat, row: Row, id: nat)
    requires UniqueKeys(t.records) && ValidRow(row)
    requires id < |t.records| && HasKey(t.records[id], user, ImportKey(batch, row.number))
    ensures var r := ConfirmRow(t, user, batch, row);
            if t.records[id].deleted then r == Err(Refused(KeyOfDeletedRecord))
            else r.Ok? && r.value.0.records == t.records && r.value.1 == id
  {
    UniqueKeyHolder(t.records, user, ImportKey(batch, row.number), id);
  }

  /** Every record is found again and nothing is written, or the confirmation is refused. */
  ghost predicate Replayed(t: Tables, ids: seq<nat>, r: Result<(Tables, seq<nat>), ConfirmError>) {
    if AllLive(t.records, ids) then r.Ok? && r.value.0.records == t.records && r.value.1 == ids
    else r == Err(Refused(KeyOfDeletedRecord))
  }

  lemma ReplayLast(t: Tables, user: nat, batch: nat, rows: seq<Row>, ids: seq<nat>)
    requires UniqueKeys(t.records) && rows != [] && ids != [] && !rows[|rows| - 1].duplicate
             && ValidRow(rows[|rows| - 1])
    requires Replayed(t, ids[..|ids| - 1], ConfirmRows(t, user, batch, rows[..|rows| - 1]))
    requires ids[|ids| - 1] < |t.records|
    requires HasKey(t.records[ids[|ids| - 1]], user, ImportKey(batch, rows[|rows| - 1].number))
    ensures Replayed(t, ids, ConfirmRows(t, user, batch, rows))
  {
    var (n, m) := (|rows| - 1, |ids| - 1);
    LiveFront(t.records, ids, m);
    var r := ConfirmRows(t, user, batch, rows[..n]);
    if r.Ok? { ReplayRow(r.value.0, user, batch, rows[n], ids[m]); }
    assert ids == ids[..m] + [ids[m]];
  }

  lemma MatchFront(rs: seq<Record>, user: nat, batch: nat, front: seq<Row>, row: Row, ids: seq<nat>)
    requires IdsMatch(rs, user, batch, front + [row], ids)
    ensures var m := |ids| - 1;
            ids != [] && IdsMatch(rs, user, batch, front, ids[..m])
            && ids[m] < |rs| && HasKey(rs[ids[m]], user, ImportKey(batch, row.number))
  {
    assert (front + [row])[|front|] == row;
    forall k | 0 <= k < |front| ensures (front + [row])[k] == front[k] && ids[..|ids| - 1][k] == ids[k] {
    }
  }

  lemma ConfirmSkips(t: Tables, user: nat, batch: nat, rows: seq<Row>)
    requires rows != [] && rows[|rows| - 1].duplicate
    ensures ConfirmRows(t, user, batch, rows) == ConfirmRows(t, user, batch, rows[..|rows| - 1])
    ensures Imported(rows) == Imported(rows[..|rows| - 1])
  {
  }

  lemma ImportedLast(rows: seq<Row>)
    requires rows != [] && !rows[|rows| - 1].duplicate
    ensures Imported(rows) == Imported(rows[..|rows| - 1]) + [rows[|rows| - 1]]
  {
  }

  lemma ValidFront(rows: seq<Row>, front: seq<Row>)
    requires front <= rows && forall k :: 0 <= k < |rows| ==> ValidRow(rows[k])
    ensures forall k :: 0 <= k < |front| ==> ValidRow(front[k])
  {
  }

  lemma {:induction false} ReplayRows(t: Tables, user: nat, batch: nat, rows: seq<Row>, ids: seq<nat>)
    requires UniqueKeys(t.records) && IdsMatch(t.records, user, batch, Imported(rows), ids)
    requires forall k :: 0 <= k < |rows| ==> ValidRow(rows[k])
    ensures Replayed(t, ids, ConfirmRows(t, user, batch, rows))
  {
    if rows != [] {
      var front := rows[..|rows| - 1];
      ValidFront(rows, front);
      if rows[|rows| - 1].duplicate {
        ConfirmSkips(t, user, batch, rows);
        ReplayRows(t, user, batch, front, ids);
      } else {
        ImportedLast(rows);
        MatchFront(t.records, user, batch, Imported(front), rows[|rows| - 1], ids);
        ReplayRows(t, user, batch, front, ids[..|ids| - 1]);
        ReplayLast(t, user, batch, rows, ids);
      }
    }
  }

  lemma LiveFront(rs: seq<Record>, ids: seq<nat>, m: nat)
    requires |ids| == m + 1 && ids[m] < |rs|
    ensures AllLive(rs, ids) <==> AllLive(rs, ids[..m]) && !rs[ids[m]].deleted
  {
    if AllLive(rs, ids) {
      forall k | 0 <= k < m ensures ids[..m][k] < |rs| && !rs[ids[..m][k]].deleted {
        assert ids[..m][k] == ids[k];
      }
    } else if AllLive(rs, ids[..m]) && !rs[ids[m]].deleted {
      forall k | 0 <= k < |ids| ensures ids[k] < |rs| && !rs[ids[k]].deleted {
        if k < m { assert ids[..m][k] == ids[k]; }
      }
    }
  }

  /** After a batch was confirmed, a confirmation that had already passed the unlocked check succeeds exactly when
      none of the batch's records was deleted. It then writes no record and returns the same receipt; otherwise it
      changes nothing. */
  lemma LateCommitRepeats(w: World, user: nat, worker: nat, receipt: Receipt)
    requires Inv(w, user) && worker in w.pending
    requires var b := w.pending[worker]; b < |w.batches| && w.batches[b].receipt == Some(receipt)
    ensures var v := Commit(w, user, worker);
            var b := w.pending[worker];
            && v.tables.records == w.tables.records
            && (if AllLive(w.tables.records, receipt.ids)
                then v.answers == w.answers + [(b, receipt)] && v.batches == w.batches
                else v == w.(pending := w.pending - {worker}))
  {
    var b := w.pending[worker];
    var rows := w.batches[b].rows;
    LateRowsReplay(w, user, b, receipt);
    if AllLive(w.tables.records, receipt.ids) {
      assert ReceiptOf(rows, receipt.ids) == receipt;
      assert w.batches[b] == Batch(rows, Some(receipt));
    }
  }

  lemma LateRowsReplay(w: World, user: nat, b: nat, receipt: Receipt)
    requires Inv(w, user) && b < |w.batches| && w.batches[b].receipt == Some(receipt)
    requires !AnyErrors(w.batches[b].rows)
    ensures Replayed(w.tables, receipt.ids, ConfirmRows(w.tables, user, b, w.batches[b].rows))
    ensures |receipt.ids| <= |w.batches[b].rows| && ReceiptOf(w.batches[b].rows, receipt.ids) == receipt
  {
    var rows := w.batches[b].rows;
    assert BatchOk(w, user, b);
    forall k | 0 <= k < |rows| ensures ValidRow(rows[k]) {
      assert RowOk(rows[k]);
    }
    ReplayRows(w.tables, user, b, rows, receipt.ids);
  }

  /** A commit is all or nothing: either only the worker is gone, or every imported row has its live record. */
  lemma CommitIsAtomic(w: World, user: nat, worker: nat)
    requires Inv(w, user) && worker in w.pending && w.pending[worker] < |w.batches|
    ensures var v := Commit(w, user, worker);
            var b := w.pending[worker];
            || v == w.(pending := w.pending - {worker})
            || (&& v.batches[b].receipt.Some?
                && Settled(v.tables.records, user, b, w.batches[b].rows, v.batches[b].receipt.value)
                && w.tables.records <= v.tables.records
                && |v.tables.records| <= |w.tables.records| + |w.batches[b].rows|)
  {
    var b := w.pending[worker];
    if ConfirmRows(w.tables, user, b, w.batches[b].rows).Ok? {
      ConfirmedSettles(w, user, b);
      ConfirmGrowth(w.tables, user, b, w.batches[b].rows);
    }
  }

  lemma {:induction false} ConfirmGrowth(t: Tables, user: nat, batch: nat, rows: seq<Row>)
    requires ConfirmRows(t, user, batch, rows).Ok?
    ensures var rs := ConfirmRows(t, user, batch, rows).value.0.records; t.records <= rs && |rs| <= |t.records| + |rows|
  {
    if rows != [] {
      ConfirmGrowth(t, user, batch, rows[..|rows| - 1]);
    }
  }
}
