/** Ledger records and the idempotent insert every writer of the ledger goes through. */
module Records {
  import opened Wrappers

  datatype Kind = Income | Expense

  /** Digest keys are injective, so a key is the tuple it is computed from. */
  datatype RecordKey =
    | AiKey(session: nat, cid: string, index: nat)
    | ImportKey(batch: nat, row: nat)
    | ConfirmKey(request: string, index: nat)
    | ClientKey(text: string)

  datatype Draft = Draft(kind: Kind, amountCent: int, category: nat, payment: Option<nat>, day: int,
                         note: Option<string>)

  datatype Source = Manual | FromAi | FromImport

  /** A stored row; its position in the table is its id. */
  datatype Record = Record(user: nat, key: Option<RecordKey>, draft: Draft, source: Source, deleted: bool)

  /** The categories and payment methods that are enabled for the user while the insert runs. */
  datatype Catalog = Catalog(categories: map<nat, Kind>, methods: set<nat>)

  datatype CreateError = KeyOfDeletedRecord | CategoryUnusable | MethodUnusable

  predicate HasKey(r: Record, user: nat, key: RecordKey) {
    r.user == user && r.key == Some(key)
  }

  /** The row holding a user's key, whether or not it is deleted. */
  function FindKey(rs: seq<Record>, user: nat, key: RecordKey): (found: Option<nat>)
    ensures found.Some? ==> found.value < |rs| && HasKey(rs[found.value], user, key)
    ensures found.None? ==> forall i :: 0 <= i < |rs| ==> !HasKey(rs[i], user, key)
  {
    if rs == [] then None
    else
      var n := |rs| - 1;
      match FindKey(rs[..n], user, key)
      case Some(i) => Some(i)
      case None => if HasKey(rs[n], user, key) then Some(n) else None
  }

  predicate MethodAllowed(d: Draft, catalog: Catalog) {
    d.payment.Some? ==> d.payment.value in catalog.methods
  }

  predicate CategoryAllowed(d: Draft, catalog: Catalog) {
    d.category in catalog.categories && catalog.categories[d.category] == d.kind
  }

  type Created = Result<(seq<Record>, nat), CreateError>
  type Saved = Result<(seq<Record>, seq<nat>), CreateError>

  function Create(rs: seq<Record>, user: nat, key: Option<RecordKey>, d: Draft, source: Source,
                  catalog: Catalog): Created
  {
    var existing := if key.Some? then FindKey(rs, user, key.value) else None;
    match existing
    case Some(i) => if rs[i].deleted then Err(KeyOfDeletedRecord) else Ok((rs, i))
    case None =>
      if !CategoryAllowed(d, catalog) then Err(CategoryUnusable)
      else if !MethodAllowed(d, catalog) then Err(MethodUnusable)
      else Ok((rs + [Record(user, key, d, source, false)], |rs|))
  }

  /** One entry of a batch that is written inside a single transaction. */
  datatype Item = Item(key: RecordKey, draft: Draft)

  function SaveAll(rs: seq<Record>, user: nat, items: seq<Item>, source: Source, catalog: Catalog): Saved {
    if items == [] then Ok((rs, []))
    else
      var n := |items| - 1;
      match SaveAll(rs, user, items[..n], source, catalog)
      case Err(e) => Err(e)
      case Ok((rs', ids)) =>
        match Create(rs', user, Some(items[n].key), items[n].draft, source, catalog)
        case Err(e) => Err(e)
        case Ok((rs'', id)) => Ok((rs'', ids + [id]))
  }

  // ---------- what the insert promises ----------

  ghost predicate UniqueKeys(rs: seq<Record>) {
    forall i, j :: 0 <= i < j < |rs| && rs[i].key.Some? ==> !HasKey(rs[j], rs[i].user, rs[i].key.value)
  }

  ghost predicate DistinctKeys(items: seq<Item>) {
    forall i, j :: 0 <= i < j < |items| ==> items[i].key != items[j].key
  }

  /** Each id names a live row of the user that holds the item's key; a row that was not there before
      holds the item's draft as well. */
  ghost predicate Holds(before: seq<Record>, after: seq<Record>, user: nat, items: seq<Item>, source: Source,
                        ids: seq<nat>)
  {
    && |ids| == |items|
    && forall i :: 0 <= i < |ids| ==>
         && ids[i] < |after|
         && HasKey(after[ids[i]], user, items[i].key)
         && !after[ids[i]].deleted
         && (|before| <= ids[i] ==> after[ids[i]].draft == items[i].draft && after[ids[i]].source == source)
  }

  lemma CreateKeepsUniqueKeys(rs: seq<Record>, user: nat, key: Option<RecordKey>, d: Draft, source: Source,
                              catalog: Catalog)
    requires UniqueKeys(rs)
    ensures var r := Create(rs, user, key, d, source, catalog); r.Ok? ==> rs <= r.value.0 && UniqueKeys(r.value.0)
  {
  }

  lemma HoldsExtends(rs: seq<Record>, mid: seq<Record>, after: seq<Record>, user: nat, items: seq<Item>, source: Source,
                     catalog: Catalog, ids: seq<nat>, id: nat)
    requires DistinctKeys(items) && items != [] && rs <= mid
    requires Holds(rs, mid, user, items[..|items| - 1], source, ids)
    requires forall j :: |rs| <= j < |mid| ==> j in ids
    requires Create(mid, user, Some(items[|items| - 1].key), items[|items| - 1].draft, source,
                    catalog) == Ok((after, id))
    ensures Holds(rs, after, user, items, source, ids + [id])
  {
    var n := |items| - 1;
    forall i | 0 <= i < n ensures items[..n][i].key != items[n].key {
      assert items[..n][i] == items[i];
    }
    assert id < |mid| ==> id !in ids by {
      forall j | 0 <= j < n && id < |mid| ensures ids[j] != id {
        assert items[..n][j].key != items[n].key;
      }
    }
    forall i | 0 <= i < n
      ensures ids[i] < |after| && after[ids[i]] == mid[ids[i]] && items[..n][i] == items[i]
    {
    }
  }

  lemma NewRowsNamed(rs: seq<Record>, mid: seq<Record>, after: seq<Record>, ids: seq<nat>, id: nat)
    requires forall j :: |rs| <= j < |mid| ==> j in ids
    requires |after| <= |mid| || (|after| == |mid| + 1 && id == |mid|)
    ensures forall j :: |rs| <= j < |after| ==> j in ids + [id]
  {
    forall j | |rs| <= j < |after| ensures j in ids + [id] {
      if j < |mid| { assert j in ids; }
    }
  }

  lemma {:induction false} SaveAllHolds(rs: seq<Record>, user: nat, items: seq<Item>, source: Source, catalog: Catalog)
    requires UniqueKeys(rs) && DistinctKeys(items)
    ensures var r := SaveAll(rs, user, items, source, catalog);
            r.Ok? ==> rs <= r.value.0 && UniqueKeys(r.value.0) && Holds(rs, r.value.0, user, items, source, r.value.1)
    ensures var r := SaveAll(rs, user, items, source, catalog);
            r.Ok? ==> forall j :: |rs| <= j < |r.value.0| ==> j in r.value.1
  {
    if items != [] {
      var n := |items| - 1;
      SaveAllHolds(rs, user, items[..n], source, catalog);
      var first := SaveAll(rs, user, items[..n], source, catalog);
      var r := SaveAll(rs, user, items, source, catalog);
      if r.Ok? {
        var (mid, ids) := first.value;
        var last := Create(mid, user, Some(items[n].key), items[n].draft, source, catalog);
        CreateKeepsUniqueKeys(mid, user, Some(items[n].key), items[n].draft, source, catalog);
        HoldsExtends(rs, mid, last.value.0, user, items, source, catalog, ids, last.value.1);
        NewRowsNamed(rs, mid, last.value.0, ids, last.value.1);
      }
    }
  }

  lemma UniqueKeyHolder(rs: seq<Record>, user: nat, key: RecordKey, i: nat)
    requires UniqueKeys(rs) && i < |rs| && HasKey(rs[i], user, key)
    ensures FindKey(rs, user, key) == Some(i)
  {
  }

  /** Replaying a batch whose rows are all still live finds every row again and writes nothing, whatever
      drafts and catalog the replay brings and whatever was appended in between. */
  lemma {:induction false} ReplayFindsSameRows(rs: seq<Record>, user: nat, items: seq<Item>, source: Source,
                                               catalog: Catalog,
                                               ids: seq<nat>)
    requires UniqueKeys(rs) && |ids| == |items|
    requires forall i :: 0 <= i < |ids| ==>
                 ids[i] < |rs| && HasKey(rs[ids[i]], user, items[i].key) && !rs[ids[i]].deleted
    ensures SaveAll(rs, user, items, source, catalog) == Ok((rs, ids))
  {
    if items == [] {
      assert ids == [];
    } else {
      var n := |items| - 1;
      ReplayFindsSameRows(rs, user, items[..n], source, catalog, ids[..n]);
      UniqueKeyHolder(rs, user, items[n].key, ids[n]);
      assert ids == ids[..n] + [ids[n]];
    }
  }

  /** One new row per item, in order. */
  function NewRows(user: nat, items: seq<Item>, source: Source): (rows: seq<Record>)
    ensures |rows| == |items|
    ensures forall i :: 0 <= i < |rows| ==> rows[i] == Record(user, Some(items[i].key), items[i].draft, source, false)
  {
    if items == [] then []
    else
      var n := |items| - 1;
      NewRows(user, items[..n], source) + [Record(user, Some(items[n].key), items[n].draft, source, false)]
  }

  function IdsFrom(first: nat, count: nat): (ids: seq<nat>)
    ensures |ids| == count && forall i :: 0 <= i < count ==> ids[i] == first + i
  {
    if count == 0 then [] else IdsFrom(first, count - 1) + [first + count - 1]
  }

  ghost predicate Unused(rs: seq<Record>, user: nat, key: RecordKey) {
    forall j :: 0 <= j < |rs| ==> !HasKey(rs[j], user, key)
  }

  predicate Allowed(item: Item, catalog: Catalog) {
    CategoryAllowed(item.draft, catalog) && MethodAllowed(item.draft, catalog)
  }

  lemma UnusedAfterOthers(rs: seq<Record>, user: nat, items: seq<Item>, source: Source, key: RecordKey)
    requires Unused(rs, user, key) && forall i :: 0 <= i < |items| ==> items[i].key != key
    ensures Unused(rs + NewRows(user, items, source), user, key)
  {
    var rows := NewRows(user, items, source);
    forall j | 0 <= j < |rs + rows| ensures !HasKey((rs + rows)[j], user, key) {
      if j >= |rs| { assert rows[j - |rs|].key == Some(items[j - |rs|].key); }
    }
  }

  lemma AppendLast(rs: seq<Record>, a: seq<Record>, r: Record)
    ensures (rs + a) + [r] == rs + (a + [r])
  {
  }

  lemma SaveAllStep(rs: seq<Record>, user: nat, items: seq<Item>, source: Source, catalog: Catalog, mid: seq<Record>,
                    ids: seq<nat>)
    requires items != []
    requires var n := |items| - 1; SaveAll(rs, user, items[..n], source, catalog) == Ok((mid, ids))
    requires var last := items[|items| - 1]; Unused(mid, user, last.key) && Allowed(last, catalog)
    ensures var last := items[|items| - 1];
            SaveAll(rs, user, items, source, catalog) ==
            Ok((mid + [Record(user, Some(last.key), last.draft, source, false)], ids + [|mid|]))
  {
    assert FindKey(mid, user, items[|items| - 1].key).None?;
  }

  /** A batch over unused keys whose drafts the catalog allows always succeeds, with exactly one new row per item. */
  lemma {:induction false} FreshBatchSucceeds(rs: seq<Record>, user: nat, items: seq<Item>, source: Source,
                                              catalog: Catalog)
    requires DistinctKeys(items)
    requires forall i :: 0 <= i < |items| ==> Unused(rs, user, items[i].key) && Allowed(items[i], catalog)
    ensures SaveAll(rs, user, items, source, catalog) == Ok((rs + NewRows(user, items, source), IdsFrom(|rs|, |items|)))
  {
    if items == [] {
      assert rs == rs + NewRows(user, items, source);
    } else {
      var n := |items| - 1;
      var front := items[..n];
      FreshBatchSucceeds(rs, user, front, source, catalog);
      UnusedAfterOthers(rs, user, front, source, items[n].key);
      SaveAllStep(rs, user, items, source, catalog, rs + NewRows(user, front, source), IdsFrom(|rs|, n));
      AppendLast(rs, NewRows(user, front, source), Record(user, Some(items[n].key), items[n].draft, source, false));
    }
  }

  // ---------- when an insert succeeds, read off the rows ----------

  /** A row of the user, deleted or not, carries this key. */
  ghost predicate KeyIsTaken(rs: seq<Record>, user: nat, key: Option<RecordKey>) {
    key.Some? && exists i :: 0 <= i < |rs| && rs[i].user == user && rs[i].key == key
  }

  /** The key decides first: a live row that carries it is returned and nothing is written, a deleted one refuses.
      Then the category must be enabled and of the draft's kind, then the payment method, if any, enabled; only then
      is one row with exactly these values added at the end. */
  ghost predicate CreatedAs(rs: seq<Record>, user: nat, key: Option<RecordKey>, d: Draft, source: Source,
                            catalog: Catalog, r: Created)
  {
    var taken := KeyIsTaken(rs, user, key);
    var kindFits := d.category in catalog.categories && catalog.categories[d.category] == d.kind;
    && (r == Err(KeyOfDeletedRecord) <==>
          taken && exists i :: 0 <= i < |rs| && rs[i].user == user && rs[i].key == key && rs[i].deleted)
    && (r == Err(CategoryUnusable) <==> !taken && !kindFits)
    && (r == Err(MethodUnusable) <==> !taken && kindFits && d.payment.Some? && d.payment.value !in catalog.methods)
    && (r.Ok? && taken ==>
          && r.value.0 == rs && r.value.1 < |rs| && !rs[r.value.1].deleted
          && rs[r.value.1].user == user && rs[r.value.1].key == key)
    && (r.Ok? && !taken ==> r.value == (rs + [Record(user, key, d, source, false)], |rs|))
  }

  lemma CreateExactly(rs: seq<Record>, user: nat, key: Option<RecordKey>, d: Draft, source: Source, catalog: Catalog)
    requires UniqueKeys(rs)
    ensures CreatedAs(rs, user, key, d, source, catalog, Create(rs, user, key, d, source, catalog))
  {
    if key.Some? && FindKey(rs, user, key.value).Some? {
      var k := FindKey(rs, user, key.value).value;
      forall i | 0 <= i < |rs| && rs[i].user == user && rs[i].key == key ensures i == k {
        assert HasKey(rs[i], user, key.value);
      }
    }
  }

  /** No deleted row carries the item's key, and unless a live one does, category and payment method are usable. */
  ghost predicate Savable(rs: seq<Record>, user: nat, item: Item, catalog: Catalog) {
    && (forall i :: 0 <= i < |rs| && rs[i].user == user && rs[i].key == Some(item.key) ==> !rs[i].deleted)
    && (KeyIsTaken(rs, user, Some(item.key)) ||
        (&& item.draft.category in catalog.categories && catalog.categories[item.draft.category] == item.draft.kind
         && (item.draft.payment.Some? ==> item.draft.payment.value in catalog.methods)))
  }

  lemma CreateWhenSavable(rs: seq<Record>, user: nat, item: Item, source: Source, catalog: Catalog)
    requires UniqueKeys(rs)
    ensures Create(rs, user, Some(item.key), item.draft, source, catalog).Ok? <==> Savable(rs, user, item, catalog)
  {
    CreateExactly(rs, user, Some(item.key), item.draft, source, catalog);
  }

  /** Rows added under other keys do not matter. */
  lemma SavableLater(rs: seq<Record>, mid: seq<Record>, user: nat, item: Item, catalog: Catalog)
    requires rs <= mid
    requires forall j :: |rs| <= j < |mid| ==> mid[j].key != Some(item.key)
    ensures Savable(mid, user, item, catalog) <==> Savable(rs, user, item, catalog)
  {
    forall i | 0 <= i < |rs| ensures mid[i] == rs[i] {
    }
    if KeyIsTaken(rs, user, Some(item.key)) {
      var i :| 0 <= i < |rs| && rs[i].user == user && rs[i].key == Some(item.key);
      assert mid[i] == rs[i];
    }
  }

  lemma {:induction false} SaveAddsItsKeys(rs: seq<Record>, user: nat, items: seq<Item>, source: Source,
                                           catalog: Catalog, key: RecordKey)
    requires SaveAll(rs, user, items, source, catalog).Ok? && forall i :: 0 <= i < |items| ==> items[i].key != key
    ensures var mid := SaveAll(rs, user, items, source, catalog).value.0;
            rs <= mid && forall j :: |rs| <= j < |mid| ==> mid[j].key != Some(key)
  {
    if items != [] { SaveAddsItsKeys(rs, user, items[..|items| - 1], source, catalog, key); }
  }

  /** A batch is saved exactly when each of its items can be. */
  lemma {:induction false} SaveExactly(rs: seq<Record>, user: nat, items: seq<Item>, source: Source, catalog: Catalog)
    requires UniqueKeys(rs) && DistinctKeys(items)
    ensures SaveAll(rs, user, items, source, catalog).Ok? <==>
            forall i :: 0 <= i < |items| ==> Savable(rs, user, items[i], catalog)
  {
    if items != [] {
      var n := |items| - 1;
      var front := items[..n];
      SaveExactly(rs, user, front, source, catalog);
      assert forall i :: 0 <= i < n ==> front[i] == items[i];
      if SaveAll(rs, user, front, source, catalog).Ok? {
        var mid := SaveAll(rs, user, front, source, catalog).value.0;
        SaveAllHolds(rs, user, front, source, catalog);
        SaveAddsItsKeys(rs, user, front, source, catalog, items[n].key);
        CreateWhenSavable(mid, user, items[n], source, catalog);
        SavableLater(rs, mid, user, items[n], catalog);
      }
    }
  }

  /** The record table, as `create_record` and the batch writers change it. */
  class RecordTable {
    var rows: seq<Record>

    constructor ()
      ensures rows == []
    {
      rows := [];
    }

    /** `create_record`: look the key up under its lock, then validate, then insert. */
    method CreateRecord(user: nat, key: Option<RecordKey>, d: Draft, source: Source, catalog: Catalog)
      returns (r: Result<nat, CreateError>)
      modifies this
      ensures match Create(old(rows), user, key, d, source, catalog)
              case Ok((rs, id)) => r == Ok(id) && rows == rs
              case Err(e) => r == Err(e) && rows == old(rows)
      ensures UniqueKeys(old(rows)) ==>
                CreatedAs(old(rows), user, key, d, source, catalog, if r.Ok? then Ok((rows, r.value)) else Err(r.error))
    {
      if UniqueKeys(rows) { CreateExactly(rows, user, key, d, source, catalog); }
      if key.Some? {
        var i := 0;
        while i < |rows|
          invariant 0 <= i <= |rows| && rows == old(rows)
          invariant FindKey(rows[..i], user, key.value).None?
        {
          assert rows[..i + 1][..i] == rows[..i];
          if HasKey(rows[i], user, key.value) {
            FindKeyFirst(rows, user, key.value, i);
            if rows[i].deleted {
              return Err(KeyOfDeletedRecord);
            }
            return Ok(i);
          }
          i := i + 1;
        }
        assert rows[..i] == rows;
      }
      if d.category !in catalog.categories || catalog.categories[d.category] != d.kind {
        return Err(CategoryUnusable);
      }
      if d.payment.Some? && d.payment.value !in catalog.methods {
        return Err(MethodUnusable);
      }
      rows := rows + [Record(user, key, d, source, false)];
      return Ok(|rows| - 1);
    }

    /** The loop over a batch, rolled back as a whole when one insert raises. */
    method SaveBatch(user: nat, items: seq<Item>, source: Source, catalog: Catalog)
      returns (r: Result<seq<nat>, CreateError>)
      modifies this
      ensures match SaveAll(old(rows), user, items, source, catalog)
              case Ok((rs, ids)) => r == Ok(ids) && rows == rs
              case Err(e) => r == Err(e) && rows == old(rows)
      ensures UniqueKeys(old(rows)) && DistinctKeys(items) ==>
                && (r.Ok? <==> forall i :: 0 <= i < |items| ==> Savable(old(rows), user, items[i], catalog))
                && (r.Ok? ==> Holds(old(rows), rows, user, items, source, r.value))
    {
      if UniqueKeys(rows) && DistinctKeys(items) {
        SaveExactly(rows, user, items, source, catalog);
        SaveAllHolds(rows, user, items, source, catalog);
      }
      var committed := rows;
      var ids: seq<nat> := [];
      var i := 0;
      while i < |items|
        invariant 0 <= i <= |items|
        invariant SaveAll(old(rows), user, items[..i], source, catalog) == Ok((rows, ids))
      {
        var id := CreateRecord(user, Some(items[i].key), items[i].draft, source, catalog);
        assert items[..i + 1][..i] == items[..i];
        if id.Err? {
          SaveAllErrSticks(old(rows), user, items, source, catalog, i + 1);
          rows := committed;
          return Err(id.error);
        }
        ids := ids + [id.value];
        i := i + 1;
      }
      assert items[..i] == items;
      return Ok(ids);
    }
  }

  lemma {:induction false} FindKeyFirst(rs: seq<Record>, user: nat, key: RecordKey, i: nat)
    requires i < |rs| && HasKey(rs[i], user, key) && FindKey(rs[..i], user, key).None?
    ensures FindKey(rs, user, key) == Some(i)
  {
    var n := |rs| - 1;
    if i < n {
      assert rs[..n][..i] == rs[..i];
      FindKeyFirst(rs[..n], user, key, i);
    }
  }

  lemma {:induction false} SaveAllErrSticks(rs: seq<Record>, user: nat, items: seq<Item>, source: Source,
                                            catalog: Catalog, i: nat)
    requires i <= |items| && SaveAll(rs, user, items[..i], source, catalog).Err?
    ensures SaveAll(rs, user, items, source, catalog) == SaveAll(rs, user, items[..i], source, catalog)
  {
    var n := |items| - 1;
    if i == |items| {
      assert items[..i] == items;
    } else {
      assert items[..n][..i] == items[..i];
      SaveAllErrSticks(rs, user, items[..n], source, catalog, i);
    }
  }
}
