/** What a preview and a confirmation leave, read off the cells, the rows and the tables before them. */
module ImportEffects {
  import opened Wrappers
  import opened Records
  import opened NoteTags
  import opened Amounts
  import opened ImportRows
  import opened ImportConfirm
  import opened ImportRuns
  import opened ImportDuplicates

  // ---------- what a row must say ----------

  /** The cents cell counts when it is filled in, the amount cell otherwise. */
  predicate SaysCents(f: Fields, cents: int) {
    if Strip(f.amountCent) != "" then Means(f.amountCent, true, cents) else Means(f.amount, false, cents)
  }

  /** The category a row settles on: the enabled one of its kind with the given id, or the one with the given name,
      or, when there is none, the name alone. */
  ghost predicate SettlesCategory(f: Fields, kind: Kind, l: Listing, id: Option<nat>, name: string) {
    var (cs, text) := (l.categories, Strip(f.category));
    match f.categoryId
    case Garbled => false
    case Is(i) => i < |cs| && cs[i].enabled && cs[i].kind == kind && id == Some(i) && name == cs[i].name
    case Blank =>
      && 1 <= |text| <= 30
      && (if exists i :: 0 <= i < |cs| && cs[i].enabled && cs[i].kind == kind && Strip(cs[i].name) == text
          then && id.Some? && id.value < |cs| && cs[id.value].enabled && cs[id.value].kind == kind
               && Strip(cs[id.value].name) == text && name == cs[id.value].name
          else id.None? && name == text)
  }

  /** The same for the payment method, which may be left out. */
  ghost predicate SettlesMethod(f: Fields, l: Listing, id: Option<nat>, name: string) {
    var (ms, text) := (l.methods, Strip(f.payment));
    match f.methodId
    case Garbled => false
    case Is(i) => i < |ms| && ms[i].enabled && id == Some(i) && name == ms[i].name
    case Blank =>
      if text == "" then id.None? && name == ""
      else
        && |text| <= 30
        && (if exists i :: 0 <= i < |ms| && ms[i].enabled && Strip(ms[i].name) == text
            then && id.Some? && id.value < |ms| && ms[id.value].enabled && Strip(ms[id.value].name) == text
                 && name == ms[id.value].name
            else id.None? && name == text)
  }

  /** Kind, amount, day and category can be read, the payment method when one is given, and the note fits with its
      tags. */
  ghost predicate Acceptable(f: Fields, l: Listing) {
    && f.kind.Is? && f.day.Is? && (exists cents :: SaysCents(f, cents))
    && (match f.categoryId
        case Garbled => false
        case Is(i) => i < |l.categories| && l.categories[i].enabled && l.categories[i].kind == f.kind.value
        case Blank => 1 <= |Strip(f.category)| <= 30)
    && (match f.methodId
        case Garbled => false
        case Is(i) => i < |l.methods| && l.methods[i].enabled
        case Blank => |Strip(f.payment)| <= 30)
    && |Strip(f.note)| <= 500 && |Expand(Strip(f.note), Strip(f.ledger), Strip(f.second))| <= 500
  }

  /** A row is without errors exactly when its cells are acceptable, and then it holds what they say. */
  ghost predicate NormalizedAs(raw: Raw, l: Listing, number: nat, row: Row) {
    && row.number == number
    && (row.errors == [] <==> raw.Object? && Acceptable(raw.fields, l))
    && (row.errors == [] ==>
          var f := raw.fields;
          && row.kind == Some(f.kind.value) && row.day == Some(f.day.value)
          && row.cents.Some? && SaysCents(f, row.cents.value)
          && SettlesCategory(f, f.kind.value, l, row.categoryId, row.categoryName)
          && SettlesMethod(f, l, row.methodId, row.methodName)
          && row.note == Strip(f.note) && row.ledger == Strip(f.ledger) && row.second == Strip(f.second))
  }

  /** The row's amount, which it gives in no other cell, is too long for the decimal context. */
  predicate EndsWith(raw: Raw) {
    raw.Object? && Strip(raw.fields.amountCent) == "" && TooLong(raw.fields.amount)
  }

  /** Such a row ends the whole preview. */
  ghost predicate EndsPreview(raws: seq<Raw>) {
    exists k :: 0 <= k < |raws| && EndsWith(raws[k])
  }

  lemma RowRaisesExactly(raw: Raw)
    ensures Raises(raw) <==> EndsWith(raw)
  {
    if raw.Object? {
      TextRaisesExactly(raw.fields.amount, false);
      TextRaisesExactly(raw.fields.amountCent, true);
    }
  }

  lemma AnyRaisesExactly(raws: seq<Raw>)
    ensures AnyRaises(raws) <==> EndsPreview(raws)
  {
    forall k | 0 <= k < |raws| ensures Raises(raws[k]) <==> EndsWith(raws[k]) {
      RowRaisesExactly(raws[k]);
    }
  }

  lemma AmountSays(f: Fields)
    ensures AmountOf(f).Ok? ==> SaysCents(f, AmountOf(f).value)
    ensures (exists cents :: SaysCents(f, cents)) ==> AmountOf(f).Ok?
  {
    var (text, isCents) := if Strip(f.amountCent) != "" then (f.amountCent, true) else (f.amount, false);
    if AmountOf(f).Ok? { AmountExactly(text, isCents, AmountOf(f).value); }
    if cents :| SaysCents(f, cents) { AmountExactly(text, isCents, cents); }
  }

  lemma CategoryChoice(f: Fields, kind: Kind, l: Listing)
    ensures var c := ChooseCategory(f, Some(kind), l);
            && (c.errors == [] <==>
                  (match f.categoryId
                   case Garbled => false
                   case Is(i) => i < |l.categories| && l.categories[i].enabled && l.categories[i].kind == kind
                   case Blank => 1 <= |Strip(f.category)| <= 30))
            && (c.errors == [] ==> SettlesCategory(f, kind, l, c.id, c.name))
  {
    var found := FindCategory(l.categories, kind, Strip(f.category));
    assert found.None? ==>
          forall i :: 0 <= i < |l.categories| ==> !OpenCategory(l.categories[i], kind, Strip(f.category));
  }

  lemma MethodChoice(f: Fields, l: Listing)
    ensures var c := ChooseMethod(f, l);
            && (c.errors == [] <==>
                  (match f.methodId
                   case Garbled => false
                   case Is(i) => i < |l.methods| && l.methods[i].enabled
                   case Blank => |Strip(f.payment)| <= 30))
            && (c.errors == [] ==> SettlesMethod(f, l, c.id, c.name))
  {
    var found := FindMethod(l.methods, Strip(f.payment));
    assert found.None? ==> forall i :: 0 <= i < |l.methods| ==> !OpenMethod(l.methods[i], Strip(f.payment));
  }

  lemma ErrorsExactly(f: Fields, l: Listing, number: nat)
    ensures Normalize(Object(f), l, number).errors == [] <==> Acceptable(f, l)
  {
    AmountSays(f);
    if f.kind.Is? { CategoryChoice(f, f.kind.value, l); }
    MethodChoice(f, l);
  }

  lemma CleanRowSays(f: Fields, l: Listing, number: nat)
    requires Normalize(Object(f), l, number).errors == []
    ensures NormalizedAs(Object(f), l, number, Normalize(Object(f), l, number))
  {
    NoErrors(f, l, number);
    ErrorsExactly(f, l, number);
    AmountSays(f);
    CategoryChoice(f, f.kind.value, l);
    MethodChoice(f, l);
  }

  lemma NormalizeExactly(raw: Raw, l: Listing, number: nat)
    ensures NormalizedAs(raw, l, number, Normalize(raw, l, number))
  {
    if raw.Object? {
      ErrorsExactly(raw.fields, l, number);
      if Normalize(raw, l, number).errors == [] { CleanRowSays(raw.fields, l, number); }
    }
  }

  // ---------- what a preview stores ----------

  /** Two rows of a file say the same; book and second-level category play no part. */
  predicate SaySame(a: Row, b: Row) {
    && a.kind == b.kind && a.cents == b.cents && a.day == b.day && a.note == b.note
    && a.categoryId == b.categoryId && (a.categoryId.None? ==> a.categoryName == b.categoryName)
    && a.methodId == b.methodId && (a.methodId.None? ==> a.methodName == b.methodName)
  }

  ghost predicate SaidBefore(rows: seq<Row>, k: nat)
    requires k < |rows|
  {
    exists j :: 0 <= j < k && rows[j].errors == [] && SaySame(rows[j], rows[k])
  }

  /** Row by row what the cells say, flagged exactly when a live record of the user or an earlier row without errors
      says the same. */
  ghost predicate PreviewedAs(raws: seq<Raw>, l: Listing, rs: seq<Record>, user: nat, first: nat, rows: seq<Row>) {
    && |rows| == |raws|
    && forall k :: 0 <= k < |rows| ==>
         && NormalizedAs(raws[k], l, first + k, rows[k])
         && (Tidy(l) && AllFiled(rs, user, l) ==>
               (rows[k].duplicate <==>
                  && rows[k].errors == []
                  && ((raws[k].Object? && Described(raws[k].fields, l, rs, user)) || SaidBefore(rows, k))))
  }

  lemma PreviewRow(raws: seq<Raw>, l: Listing, rs: seq<Record>, user: nat, first: nat, k: nat)
    requires k < |raws|
    ensures var (all, row) := (NormalizeAll(raws, l, first), Preview(raws, l, AllPrints(rs, user, l), first)[k]);
            row == all[k].(duplicate := row.duplicate) && all[k] == Normalize(raws[k], l, first + k)
  {
    NormalizeAllAt(raws, l, first, k);
    FlagRowExactly(NormalizeAll(raws, l, first), AllPrints(rs, user, l), k);
  }

  lemma SamePrint(a: Row, b: Row)
    ensures PrintOf(a) == PrintOf(b) <==> SaySame(a, b)
  {
  }

  lemma RepeatsSay(all: seq<Row>, rows: seq<Row>, k: nat)
    requires k < |rows| == |all| && forall j :: 0 <= j <= k ==> rows[j] == all[j].(duplicate := rows[j].duplicate)
    ensures Repeats(all, k) <==> SaidBefore(rows, k)
  {
    forall j | 0 <= j < k ensures PrintOf(all[j]) == PrintOf(all[k]) <==> SaySame(rows[j], rows[k]) {
      SamePrint(all[j], all[k]);
    }
    if Repeats(all, k) {
      var j :| 0 <= j < k && all[j].errors == [] && PrintOf(all[j]) == PrintOf(all[k]);
      assert rows[j].errors == [] && SaySame(rows[j], rows[k]);
    }
    if SaidBefore(rows, k) {
      var j :| 0 <= j < k && rows[j].errors == [] && SaySame(rows[j], rows[k]);
      assert all[j].errors == [] && PrintOf(all[j]) == PrintOf(all[k]);
    }
  }

  lemma FlagsExactly(raws: seq<Raw>, l: Listing, rs: seq<Record>, user: nat, first: nat, k: nat)
    requires Tidy(l) && AllFiled(rs, user, l) && k < |raws|
    ensures var rows := Preview(raws, l, AllPrints(rs, user, l), first);
            rows[k].duplicate <==>
            && rows[k].errors == []
            && ((raws[k].Object? && Described(raws[k].fields, l, rs, user)) || SaidBefore(rows, k))
  {
    var (all, rows) := (NormalizeAll(raws, l, first), Preview(raws, l, AllPrints(rs, user, l), first));
    FlaggedExactly(raws, l, rs, user, first, k);
    forall j | 0 <= j <= k ensures rows[j] == all[j].(duplicate := rows[j].duplicate) {
      PreviewRow(raws, l, rs, user, first, j);
    }
    RepeatsSay(all, rows, k);
  }

  lemma PreviewExactly(raws: seq<Raw>, l: Listing, rs: seq<Record>, user: nat, first: nat)
    ensures PreviewedAs(raws, l, rs, user, first, Preview(raws, l, AllPrints(rs, user, l), first))
  {
    var rows := Preview(raws, l, AllPrints(rs, user, l), first);
    forall k | 0 <= k < |rows| ensures NormalizedAs(raws[k], l, first + k, rows[k]) {
      PreviewRow(raws, l, rs, user, first, k);
      NormalizeExactly(raws[k], l, first + k);
    }
    if Tidy(l) && AllFiled(rs, user, l) {
      forall k | 0 <= k < |rows|
        ensures rows[k].duplicate <==>
                && rows[k].errors == []
                && ((raws[k].Object? && Described(raws[k].fields, l, rs, user)) || SaidBefore(rows, k))
      {
        FlagsExactly(raws, l, rs, user, first, k);
      }
    }
  }

  // ---------- the guard ----------

  /** An unknown batch is refused and a confirmed one answered. Of the others, one with an error in a row is refused,
      then one with a flagged row unless flagged rows are to be skipped, and every other one goes on. */
  ghost predicate GuardedAs(batches: seq<Batch>, batch: nat, skip: bool, g: Result<Option<Receipt>, ConfirmError>) {
    && (g == Err(NoBatch) <==> batch >= |batches|)
    && (batch < |batches| ==>
          var Batch(rows, receipt) := batches[batch];
          && (receipt.Some? ==> g == Ok(receipt))
          && (receipt.None? ==>
                && (g == Err(HasErrors) <==> exists k :: 0 <= k < |rows| && rows[k].errors != [])
                && (g == Err(HasDuplicates) <==>
                      && !skip && (forall k :: 0 <= k < |rows| ==> rows[k].errors == [])
                      && exists k :: 0 <= k < |rows| && rows[k].duplicate)
                && (g == Ok(None) <==>
                      && (forall k :: 0 <= k < |rows| ==> rows[k].errors == [])
                      && (skip || forall k :: 0 <= k < |rows| ==> !rows[k].duplicate))))
  }

  lemma GuardExactly(batches: seq<Batch>, batch: nat, skip: bool)
    ensures GuardedAs(batches, batch, skip, Guard(batches, batch, skip))
  {
  }

  // ---------- names ----------

  /** The row of that kind and name is enabled, or added when there is none; nothing else changes. */
  ghost predicate CategorySettled(l: Listing, kind: Kind, name: string, l': Listing, id: nat) {
    var cs := l.categories;
    && l'.methods == l.methods
    && (if exists i :: 0 <= i < |cs| && cs[i].kind == kind && cs[i].name == name
        then && id < |cs| && cs[id].kind == kind && cs[id].name == name
             && l'.categories == cs[id := CategoryRow(kind, name, true)]
        else id == |cs| && l'.categories == cs + [CategoryRow(kind, name, true)])
  }

  lemma CategoryExactly(l: Listing, kind: Kind, name: string)
    ensures CategorySettled(l, kind, name, GetOrCreateCategory(l, kind, name).0, GetOrCreateCategory(l, kind, name).1)
  {
    var found := CategoryNamed(l.categories, kind, name);
    if i :| 0 <= i < |l.categories| && l.categories[i].kind == kind && l.categories[i].name == name {
      assert IsCategory(l.categories[i], kind, name);
    }
  }

  ghost predicate MethodSettled(l: Listing, name: string, l': Listing, id: nat) {
    var ms := l.methods;
    && l'.categories == l.categories
    && (if exists i :: 0 <= i < |ms| && ms[i].name == name
        then id < |ms| && ms[id].name == name && l'.methods == ms[id := MethodRow(name, true)]
        else id == |ms| && l'.methods == ms + [MethodRow(name, true)])
  }

  lemma MethodExactly(l: Listing, name: string)
    ensures MethodSettled(l, name, GetOrCreateMethod(l, name).0, GetOrCreateMethod(l, name).1)
  {
    var found := MethodNamed(l.methods, name);
  }

  // ---------- the rows ----------

  /** The places of the rows that carry no flag, in order. */
  function KeptAt(rows: seq<Row>): (at: seq<nat>)
    ensures |at| <= |rows| && forall k :: 0 <= k < |at| ==> at[k] < |rows| && !rows[at[k]].duplicate
    ensures forall j, k :: 0 <= j < k < |at| ==> at[j] < at[k]
  {
    if rows == [] then []
    else
      var n := |rows| - 1;
      KeptAt(rows[..n]) + if rows[n].duplicate then [] else [n]
  }

  /** None of them is left out. */
  lemma {:induction false} KeptIsAll(rows: seq<Row>, i: nat)
    requires i < |rows| && !rows[i].duplicate
    ensures i in KeptAt(rows)
  {
    if i < |rows| - 1 { KeptIsAll(rows[..|rows| - 1], i); }
  }

  lemma {:induction false} ImportedIsKept(rows: seq<Row>)
    ensures |Imported(rows)| == |KeptAt(rows)|
    ensures forall k :: 0 <= k < |KeptAt(rows)| ==> Imported(rows)[k] == rows[KeptAt(rows)[k]]
  {
    if rows != [] {
      ImportedIsKept(rows[..|rows| - 1]);
    }
  }

  /** The row's values went into this record: nobody else has it, it is filed under what the row names, and that is
      enabled. */
  predicate RecordOf(user: nat, batch: nat, row: Row, l: Listing, r: Record) {
    && r.user == user && !r.deleted && r.source == FromImport && r.key == Some(ImportKey(batch, row.number))
    && Recorded(row, l, r.draft) && l.categories[r.draft.category].enabled
    && (r.draft.payment.Some? ==> l.methods[r.draft.payment.value].enabled)
  }

  predicate RowRecordedAt(t: Tables, user: nat, batch: nat, row: Row, id: nat, place: nat) {
    id == place < |t.records| && RecordOf(user, batch, row, t.listing, t.records[place])
  }

  /** The rows at these places have one record each, one behind the other from `first` on. */
  ghost predicate PlacesRecorded(t: Tables, user: nat, batch: nat, rows: seq<Row>, at: seq<nat>, ids: seq<nat>,
                                 first: nat)
  {
    && |ids| == |at|
    && forall k :: 0 <= k < |at| ==>
         at[k] < |rows| && RowRecordedAt(t, user, batch, rows[at[k]], ids[k], first + k)
  }

  /** One new record per row without flag, in order, and none for the others. */
  ghost predicate RowsRecorded(t: Tables, t': Tables, user: nat, batch: nat, rows: seq<Row>, ids: seq<nat>) {
    && t.records <= t'.records && |t'.records| == |t.records| + |KeptAt(rows)|
    && PlacesRecorded(t', user, batch, rows, KeptAt(rows), ids, |t.records|)
  }

  lemma RecordStays(t: Tables, t': Tables, user: nat, batch: nat, row: Row, id: nat, place: nat)
    requires RowRecordedAt(t, user, batch, row, id, place)
    requires Extends(t.listing, t'.listing) && KeepsEnabled(t.listing, t'.listing) && t.records <= t'.records
    ensures RowRecordedAt(t', user, batch, row, id, place)
  {
    RecordedStays(row, t.listing, t'.listing, t.records[place].draft);
  }

  lemma RowAdds(t: Tables, user: nat, batch: nat, row: Row)
    requires Tidy(t.listing) && TidyRow(row)
    requires Unused(t.records, user, ImportKey(batch, row.number)) && ConfirmRow(t, user, batch, row).Ok?
    ensures var (t', id) := ConfirmRow(t, user, batch, row).value;
            && id == |t.records| && |t'.records| == id + 1 && t.records <= t'.records
            && RecordOf(user, batch, row, t'.listing, t'.records[id])
  {
    RowRecorded(t, user, batch, row);
    assert FindKey(t.records, user, ImportKey(batch, row.number)).None?;
  }

  lemma KeptNext(rows: seq<Row>, row: Row)
    ensures KeptAt(rows + [row]) == KeptAt(rows) + if row.duplicate then [] else [|rows|]
  {
    assert (rows + [row])[..|rows|] == rows;
  }

  lemma PlacesStay(t: Tables, t': Tables, user: nat, batch: nat, rows: seq<Row>, more: seq<Row>, at: seq<nat>,
                   ids: seq<nat>, first: nat)
    requires PlacesRecorded(t, user, batch, rows, at, ids, first) && rows <= more
    requires Extends(t.listing, t'.listing) && KeepsEnabled(t.listing, t'.listing) && t.records <= t'.records
    ensures PlacesRecorded(t', user, batch, more, at, ids, first)
  {
    forall k | 0 <= k < |at|
      ensures at[k] < |more| && RowRecordedAt(t', user, batch, more[at[k]], ids[k], first + k)
    {
      RecordStays(t, t', user, batch, rows[at[k]], ids[k], first + k);
    }
  }

  lemma PlacesAppend(t: Tables, user: nat, batch: nat, rows: seq<Row>, at: seq<nat>, ids: seq<nat>, first: nat, i: nat)
    requires PlacesRecorded(t, user, batch, rows, at, ids, first)
    requires i < |rows| && RowRecordedAt(t, user, batch, rows[i], first + |at|, first + |at|)
    ensures PlacesRecorded(t, user, batch, rows, at + [i], ids + [first + |at|], first)
  {
  }

  lemma RecordedNext(t: Tables, t1: Tables, t2: Tables, user: nat, batch: nat, rows: seq<Row>, ids: seq<nat>, row: Row)
    requires RowsRecorded(t, t1, user, batch, rows, ids) && !row.duplicate
    requires Extends(t1.listing, t2.listing) && KeepsEnabled(t1.listing, t2.listing)
    requires t1.records <= t2.records && |t2.records| == |t1.records| + 1
    requires RecordOf(user, batch, row, t2.listing, t2.records[|t1.records|])
    ensures RowsRecorded(t, t2, user, batch, rows + [row], ids + [|t1.records|])
  {
    var at := KeptAt(rows);
    KeptNext(rows, row);
    PlacesStay(t1, t2, user, batch, rows, rows + [row], at, ids, |t.records|);
    PlacesAppend(t2, user, batch, rows + [row], at, ids, |t.records|, |rows|);
  }

  lemma RecordedSkip(t: Tables, t1: Tables, user: nat, batch: nat, rows: seq<Row>, ids: seq<nat>, row: Row)
    requires RowsRecorded(t, t1, user, batch, rows, ids) && row.duplicate
    ensures RowsRecorded(t, t1, user, batch, rows + [row], ids)
  {
    KeptNext(rows, row);
    PlacesStay(t1, t1, user, batch, rows, rows + [row], KeptAt(rows), ids, |t.records|);
  }

  lemma KeptRow(t: Tables, t1: Tables, user: nat, batch: nat, front: seq<Row>, ids: seq<nat>, row: Row)
    requires Tidy(t1.listing) && UniqueKeys(t1.records) && RowsRecorded(t, t1, user, batch, front, ids)
    requires !row.duplicate && TidyRow(row) && Unused(t1.records, user, ImportKey(batch, row.number))
    requires ConfirmRow(t1, user, batch, row).Ok?
    ensures var (t2, id) := ConfirmRow(t1, user, batch, row).value;
            RowsRecorded(t, t2, user, batch, front + [row], ids + [id])
  {
    RowAdds(t1, user, batch, row);
    ConfirmRowKeeps(t1, user, batch, row);
    RecordedNext(t, t1, ConfirmRow(t1, user, batch, row).value.0, user, batch, front, ids, row);
  }

  lemma StillUnusedLater(t: Tables, user: nat, batch: nat, front: seq<Row>, row: Row)
    requires Tidy(t.listing) && UniqueKeys(t.records) && Ascending(front + [row])
    requires BatchUnused(t.records, user, batch, 0) && forall k :: 0 <= k < |front| ==> TidyRow(front[k])
    requires ConfirmRows(t, user, batch, front).Ok?
    ensures Unused(ConfirmRows(t, user, batch, front).value.0.records, user, ImportKey(batch, row.number))
  {
    var more := front + [row];
    assert forall k :: 0 <= k < |front| ==> more[k] == front[k];
    FirstConfirmRecords(t, user, batch, front);
    if front != [] { assert more[|front| - 1].number < more[|front|].number; }
  }

  lemma LastRow(t: Tables, user: nat, batch: nat, front: seq<Row>, row: Row)
    requires Tidy(t.listing) && UniqueKeys(t.records) && Ascending(front + [row])
    requires BatchUnused(t.records, user, batch, 0)
    requires (forall k :: 0 <= k < |front| ==> TidyRow(front[k])) && TidyRow(row)
    requires ConfirmRows(t, user, batch, front + [row]).Ok?
    requires ConfirmRows(t, user, batch, front).Ok?
    requires var (t1, ids) := ConfirmRows(t, user, batch, front).value; RowsRecorded(t, t1, user, batch, front, ids)
    ensures var (t', ids) := ConfirmRows(t, user, batch, front + [row]).value;
            RowsRecorded(t, t', user, batch, front + [row], ids)
  {
    assert (front + [row])[..|front|] == front;
    var (t1, ids) := ConfirmRows(t, user, batch, front).value;
    if row.duplicate {
      RecordedSkip(t, t1, user, batch, front, ids, row);
    } else {
      StillUnusedLater(t, user, batch, front, row);
      ConfirmKeeps(t, user, batch, front);
      KeptRow(t, t1, user, batch, front, ids, row);
    }
  }

  /** A first confirmation that succeeds has made one record for each row without flag, and no other. */
  lemma {:induction false} FirstConfirmAdds(t: Tables, user: nat, batch: nat, rows: seq<Row>)
    requires Tidy(t.listing) && UniqueKeys(t.records) && Ascending(rows) && BatchUnused(t.records, user, batch, 0)
    requires (forall k :: 0 <= k < |rows| ==> TidyRow(rows[k])) && ConfirmRows(t, user, batch, rows).Ok?
    ensures var (t', ids) := ConfirmRows(t, user, batch, rows).value; RowsRecorded(t, t', user, batch, rows, ids)
  {
    if rows != [] {
      var front := rows[..|rows| - 1];
      assert forall k :: 0 <= k < |front| ==> front[k] == rows[k];
      FirstConfirmAdds(t, user, batch, front);
      assert rows == front + [rows[|front|]];
      LastRow(t, user, batch, front, rows[|front|]);
    }
  }

  // ---------- a batch that goes on is imported ----------

  /** Nobody confirmed this batch yet, and what its rows settled on may still be used. */
  ghost predicate Fresh(t: Tables, user: nat, batch: nat, rows: seq<Row>) {
    && Tidy(t.listing) && UniqueKeys(t.records) && RowsOk(rows)
    && (forall n, j :: 0 <= j < |t.records| ==> !HasKey(t.records[j], user, ImportKey(batch, n)))
    && (forall k :: 0 <= k < |rows| && !rows[k].duplicate ==> StillUsable(rows[k], t.listing))
  }

  lemma FreshIsUnused(t: Tables, user: nat, batch: nat, rows: seq<Row>)
    requires Fresh(t, user, batch, rows)
    ensures BatchUnused(t.records, user, batch, 0) && Ascending(rows)
  {
    forall n | 0 <= n ensures Unused(t.records, user, ImportKey(batch, n)) {
    }
  }

  ghost predicate ImportedAs(t: Tables, user: nat, batch: nat, rows: seq<Row>, t': Tables, receipt: Receipt) {
    && receipt.total == |rows| && receipt.imported == |KeptAt(rows)| && receipt.skipped == |rows| - |KeptAt(rows)|
    && RowsRecorded(t, t', user, batch, rows, receipt.ids)
  }

  lemma CleanBatchIsImported(t: Tables, user: nat, batch: nat, rows: seq<Row>)
    requires Fresh(t, user, batch, rows) && forall k :: 0 <= k < |rows| ==> rows[k].errors == []
    ensures ConfirmRows(t, user, batch, rows).Ok?
    ensures var (t', ids) := ConfirmRows(t, user, batch, rows).value;
            |ids| <= |rows| && ImportedAs(t, user, batch, rows, t', ReceiptOf(rows, ids))
  {
    FreshIsUnused(t, user, batch, rows);
    forall k | 0 <= k < |rows| ensures TidyRow(rows[k]) && ValidRow(rows[k]) {
      assert RowOk(rows[k]);
    }
    FirstConfirmSucceeds(t, user, batch, rows);
    FirstConfirmAdds(t, user, batch, rows);
    ImportedIsKept(rows);
  }

  /** In every reachable state: a batch nobody confirmed, without errors, with no flagged row or with flagged rows to
      be skipped, whose keys nobody used and whose unflagged rows settled on ids that may still be used, passes the
      guard and is imported, one record for each unflagged row. */
  lemma ConfirmationSucceeds(w: World, user: nat, actions: seq<Action>, worker: nat, batch: nat, skip: bool)
    requires Start(w)
    requires var v := Run(w, user, actions);
             && worker !in v.pending && batch < |v.batches| && v.batches[batch].receipt.None?
             && (forall k :: 0 <= k < |v.batches[batch].rows| ==> v.batches[batch].rows[k].errors == [])
             && (skip || forall k :: 0 <= k < |v.batches[batch].rows| ==> !v.batches[batch].rows[k].duplicate)
             && Fresh(v.tables, user, batch, v.batches[batch].rows)
    ensures var v := Run(w, user, actions);
            var begun := Step(v, user, DoBegin(worker, batch, skip));
            && Enabled(begun, DoCommit(worker))
            && (var done := Step(begun, user, DoCommit(worker));
                && |done.answers| == |v.answers| + 1 && done.answers[|v.answers|].0 == batch
                && done.batches[batch].receipt == Some(done.answers[|v.answers|].1)
                && ImportedAs(v.tables, user, batch, v.batches[batch].rows, done.tables, done.answers[|v.answers|].1))
  {
    var v := Run(w, user, actions);
    GuardExactly(v.batches, batch, skip);
    CleanBatchIsImported(v.tables, user, batch, v.batches[batch].rows);
  }
}
