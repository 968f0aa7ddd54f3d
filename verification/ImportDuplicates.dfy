/** Importing the same file twice, and importing an export. */
module ImportDuplicates {
  import opened Wrappers
  import opened Records
  import opened NoteTags
  import opened ImportRows
  import opened ImportConfirm

  // ---------- when a row is flagged ----------

  lemma {:induction false} AllPrintsMembers(rs: seq<Record>, user: nat, l: Listing, p: Fingerprint)
    ensures p in AllPrints(rs, user, l)
            <==> exists i :: 0 <= i < |rs| && Live(rs[i], user) && p in PrintsOf(rs[i].draft, l)
  {
    if rs != [] {
      var n := |rs| - 1;
      AllPrintsMembers(rs[..n], user, l, p);
      if i :| 0 <= i < n && Live(rs[i], user) && p in PrintsOf(rs[i].draft, l) {
        assert rs[..n][i] == rs[i];
      }
    }
  }

  /** Each row keeps what its own cells say; the earlier rows only decide its flag. */
  lemma {:induction false} FlaggedRow(rows: seq<Row>, existing: set<Fingerprint>, k: nat)
    requires k < |rows|
    ensures FlagRows(rows, existing).rows[k] == Flag(rows[k], FlagRows(rows[..k], existing).seen, existing)
  {
    var n := |rows| - 1;
    if k < n {
      FlaggedRow(rows[..n], existing, k);
      assert rows[..n][..k] == rows[..k];
    }
  }

  lemma {:induction false} SeenMembers(rows: seq<Row>, existing: set<Fingerprint>, p: Fingerprint)
    ensures p in FlagRows(rows, existing).seen
            <==> exists j :: 0 <= j < |rows| && rows[j].errors == [] && PrintOf(rows[j]) == p
  {
    if rows != [] {
      var n := |rows| - 1;
      SeenMembers(rows[..n], existing, p);
      if j :| 0 <= j < n && rows[j].errors == [] && PrintOf(rows[j]) == p {
        assert rows[..n][j] == rows[j];
      }
    }
  }

  /** A live record of the user that the row describes. */
  ghost predicate Described(f: Fields, l: Listing, rs: seq<Record>, user: nat) {
    exists i :: 0 <= i < |rs| && Live(rs[i], user) && SameEntry(f, l, rs[i].draft)
  }

  ghost predicate AllFiled(rs: seq<Record>, user: nat, l: Listing) {
    forall i :: 0 <= i < |rs| && Live(rs[i], user) ==> Filed(rs[i].draft, l)
  }

  lemma DescribedByPrint(f: Fields, l: Listing, rs: seq<Record>, user: nat, number: nat)
    requires Tidy(l) && AllFiled(rs, user, l) && Normalize(Object(f), l, number).errors == []
    ensures PrintOf(Normalize(Object(f), l, number)) in AllPrints(rs, user, l) <==> Described(f, l, rs, user)
  {
    var p := PrintOf(Normalize(Object(f), l, number));
    AllPrintsMembers(rs, user, l, p);
    forall i | 0 <= i < |rs| && Live(rs[i], user)
      ensures p in PrintsOf(rs[i].draft, l) <==> SameEntry(f, l, rs[i].draft)
    {
      PrintMeets(f, l, number, rs[i].draft);
    }
  }

  /** The row has the fingerprint of an earlier error-free row. */
  ghost predicate Repeats(rows: seq<Row>, k: nat)
    requires k < |rows|
  {
    exists j :: 0 <= j < k && rows[j].errors == [] && PrintOf(rows[j]) == PrintOf(rows[k])
  }

  lemma FlagRowExactly(rows: seq<Row>, existing: set<Fingerprint>, k: nat)
    requires k < |rows| && !rows[k].duplicate
    ensures var row := FlagRows(rows, existing).rows[k];
            && row == rows[k].(duplicate := row.duplicate)
            && (row.duplicate <==> rows[k].errors == [] && (PrintOf(rows[k]) in existing || Repeats(rows, k)))
  {
    FlaggedRow(rows, existing, k);
    var p := PrintOf(rows[k]);
    SeenMembers(rows[..k], existing, p);
    assert forall j :: 0 <= j < k ==> rows[..k][j] == rows[j];
  }

  /** A row is flagged exactly when it has no errors and either describes a live record of the user or has the
      fingerprint of an earlier error-free row of the file. */
  lemma FlaggedExactly(raws: seq<Raw>, l: Listing, rs: seq<Record>, user: nat, first: nat, k: nat)
    requires Tidy(l) && AllFiled(rs, user, l) && k < |raws|
    ensures var rows := NormalizeAll(raws, l, first);
            var row := Preview(raws, l, AllPrints(rs, user, l), first)[k];
            && row == rows[k].(duplicate := row.duplicate)
            && (row.duplicate <==>
                  rows[k].errors == []
                  && ((raws[k].Object? && Described(raws[k].fields, l, rs, user)) || Repeats(rows, k)))
  {
    var rows := NormalizeAll(raws, l, first);
    NormalizeAllAt(raws, l, first, k);
    FlagRowExactly(rows, AllPrints(rs, user, l), k);
    if raws[k].Object? && rows[k].errors == [] {
      DescribedByPrint(raws[k].fields, l, rs, user, first + k);
    }
  }

  // ---------- what a confirmation records ----------

  /** The draft holds the row's values, under the category and payment method the row names. */
  predicate Recorded(row: Row, l: Listing, d: Draft) {
    && row.kind == Some(d.kind) && row.cents == Some(d.amountCent) && row.day == Some(d.day)
    && d.note == StoredNote(row)
    && Filed(d, l)
    && (if row.categoryId.Some? then d.category == row.categoryId.value
        else IsCategory(l.categories[d.category], d.kind, row.categoryName))
    && (if row.methodId.Some? then d.payment == row.methodId
        else if row.methodName == "" then d.payment.None?
        else d.payment.Some? && l.methods[d.payment.value].name == row.methodName)
  }

  lemma RecordedStays(row: Row, l: Listing, l': Listing, d: Draft)
    requires Recorded(row, l, d) && Extends(l, l')
    ensures Recorded(row, l', d)
  {
    assert SameName(l.categories[d.category], l'.categories[d.category]);
  }

  /** A confirmed row whose key was unused gets a new record of its own. */
  lemma RowRecorded(t: Tables, user: nat, batch: nat, row: Row)
    requires Tidy(t.listing) && TidyRow(row)
    requires Unused(t.records, user, ImportKey(batch, row.number))
    requires ConfirmRow(t, user, batch, row).Ok?
    ensures var (t', id) := ConfirmRow(t, user, batch, row).value;
            id == |t.records| && |t'.records| == id + 1 && Live(t'.records[id], user)
            && t'.records[id].key == Some(ImportKey(batch, row.number))
            && Recorded(row, t'.listing, t'.records[id].draft)
  {
    var (l1, category) := ResolveCategory(t.listing, row);
    var (l2, payment) := ResolveMethod(l1, row);
    assert FindKey(t.records, user, ImportKey(batch, row.number)).None?;
    assert l2.categories == l1.categories;
  }

  /** The records a confirmation added for the rows it imported. */
  ghost predicate AllRecorded(rs: seq<Record>, user: nat, l: Listing, rows: seq<Row>, ids: seq<nat>) {
    && |ids| == |rows|
    && forall k :: 0 <= k < |ids| ==> ids[k] < |rs| && Live(rs[ids[k]], user) && Recorded(rows[k], l, rs[ids[k]].draft)
  }

  lemma AllRecordedGrows(t: Tables, t': Tables, user: nat, rows: seq<Row>, ids: seq<nat>, row: Row, id: nat)
    requires AllRecorded(t.records, user, t.listing, rows, ids) && t.records <= t'.records
             && Extends(t.listing, t'.listing)
    requires id < |t'.records| && Live(t'.records[id], user) && Recorded(row, t'.listing, t'.records[id].draft)
    ensures AllRecorded(t'.records, user, t'.listing, rows + [row], ids + [id])
  {
    forall k | 0 <= k < |ids|
      ensures t'.records[ids[k]] == t.records[ids[k]] && Recorded(rows[k], t'.listing, t'.records[ids[k]].draft)
    {
      RecordedStays(rows[k], t.listing, t'.listing, t.records[ids[k]].draft);
    }
  }

  ghost predicate Ascending(rows: seq<Row>) {
    forall j, k :: 0 <= j < k < |rows| ==> rows[j].number < rows[k].number
  }

  ghost predicate BatchUnused(rs: seq<Record>, user: nat, batch: nat, from: nat) {
    forall n :: from <= n ==> Unused(rs, user, ImportKey(batch, n))
  }

  /** One new live record per row of `rows`, at the end of the table and in the rows' order. */
  ghost predicate Added(t: Tables, t': Tables, user: nat, rows: seq<Row>, ids: seq<nat>) {
    && ids == IdsFrom(|t.records|, |rows|) && |t'.records| == |t.records| + |ids|
    && AllRecorded(t'.records, user, t'.listing, rows, ids)
  }

  lemma AddedMore(t: Tables, t1: Tables, t2: Tables, user: nat, rows: seq<Row>, ids: seq<nat>, row: Row, id: nat)
    requires Added(t, t1, user, rows, ids)
    requires t1.records <= t2.records && Extends(t1.listing, t2.listing) && id == |t1.records| && |t2.records| == id + 1
    requires Live(t2.records[id], user) && Recorded(row, t2.listing, t2.records[id].draft)
    ensures Added(t, t2, user, rows + [row], ids + [id])
  {
    AllRecordedGrows(t1, t2, user, rows, ids, row, id);
  }

  lemma AddedStep(t: Tables, t1: Tables, user: nat, batch: nat, rows: seq<Row>, ids: seq<nat>, row: Row)
    requires Added(t, t1, user, rows, ids)
    requires Tidy(t1.listing) && UniqueKeys(t1.records) && TidyRow(row)
             && BatchUnused(t1.records, user, batch, row.number)
    requires ConfirmRow(t1, user, batch, row).Ok?
    ensures var (t2, id) := ConfirmRow(t1, user, batch, row).value;
            Added(t, t2, user, rows + [row], ids + [id]) && BatchUnused(t2.records, user, batch, row.number + 1)
  {
    assert Unused(t1.records, user, ImportKey(batch, row.number));
    RowRecorded(t1, user, batch, row);
    ConfirmRowKeeps(t1, user, batch, row);
    var (t2, id) := ConfirmRow(t1, user, batch, row).value;
    AddedMore(t, t1, t2, user, rows, ids, row, id);
    StillUnused(t1.records, t2.records, user, batch, row.number);
  }

  lemma LaterUnused(rs: seq<Record>, user: nat, batch: nat, from: nat, later: nat)
    requires BatchUnused(rs, user, batch, from) && from <= later
    ensures BatchUnused(rs, user, batch, later)
  {
  }

  function Next(rows: seq<Row>): nat {
    if rows == [] then 0 else rows[|rows| - 1].number + 1
  }

  /** A first confirmation adds exactly one live record per imported row, at the end of the table and in the rows'
      order. */
  lemma {:induction false} FirstConfirmRecords(t: Tables, user: nat, batch: nat, rows: seq<Row>)
    requires Tidy(t.listing) && UniqueKeys(t.records) && Ascending(rows) && BatchUnused(t.records, user, batch, 0)
    requires forall k :: 0 <= k < |rows| ==> TidyRow(rows[k])
    requires ConfirmRows(t, user, batch, rows).Ok?
    ensures var (t', ids) := ConfirmRows(t, user, batch, rows).value;
            Added(t, t', user, Imported(rows), ids) && BatchUnused(t'.records, user, batch, Next(rows))
  {
    if rows != [] {
      var n := |rows| - 1;
      forall k | 0 <= k < n ensures TidyRow(rows[..n][k]) {
        assert rows[..n][k] == rows[k];
      }
      FirstConfirmRecords(t, user, batch, rows[..n]);
      ConfirmKeeps(t, user, batch, rows[..n]);
      var (t1, ids) := ConfirmRows(t, user, batch, rows[..n]).value;
      if n > 0 { assert rows[n - 1].number < rows[n].number; }
      LaterUnused(t1.records, user, batch, Next(rows[..n]), rows[n].number);
      if rows[n].duplicate {
        LaterUnused(t1.records, user, batch, rows[n].number, Next(rows));
      } else {
        AddedStep(t, t1, user, batch, Imported(rows[..n]), ids, rows[n]);
      }
    }
  }

  lemma StillUnused(rs: seq<Record>, rs': seq<Record>, user: nat, batch: nat, number: nat)
    requires BatchUnused(rs, user, batch, number)
    requires rs <= rs' && |rs'| == |rs| + 1 && rs'[|rs|].key == Some(ImportKey(batch, number))
    ensures BatchUnused(rs', user, batch, number + 1)
  {
    forall n, j | number + 1 <= n && 0 <= j < |rs'| ensures !HasKey(rs'[j], user, ImportKey(batch, n)) {
      if j < |rs| {
        assert Unused(rs, user, ImportKey(batch, n));
        assert rs'[j] == rs[j];
      }
    }
  }

  /** The ids a row settled on may still be used. */
  predicate StillUsable(row: Row, l: Listing) {
    && (row.categoryId.Some? ==> row.categoryId.value < |l.categories| && l.categories[row.categoryId.value].enabled
                                 && row.kind == Some(l.categories[row.categoryId.value].kind))
    && (row.methodId.Some? ==> row.methodId.value < |l.methods| && l.methods[row.methodId.value].enabled)
  }

  lemma UsableStays(row: Row, l: Listing, l': Listing)
    requires StillUsable(row, l) && Extends(l, l') && KeepsEnabled(l, l')
    ensures StillUsable(row, l')
  {
    if row.categoryId.Some? {
      assert SameName(l.categories[row.categoryId.value], l'.categories[row.categoryId.value]);
    }
  }

  lemma RowSucceeds(t: Tables, user: nat, batch: nat, row: Row)
    requires Tidy(t.listing) && TidyRow(row) && ValidRow(row) && StillUsable(row, t.listing)
    requires Unused(t.records, user, ImportKey(batch, row.number))
    ensures ConfirmRow(t, user, batch, row).Ok?
  {
    var (l1, category) := ResolveCategory(t.listing, row);
    var (l2, payment) := ResolveMethod(l1, row);
    assert l2.categories == l1.categories;
    assert FindKey(t.records, user, ImportKey(batch, row.number)).None?;
  }

  /** A first confirmation of rows without errors succeeds while the ids its unflagged rows settled on may still be
      used. */
  lemma {:induction false} FirstConfirmSucceeds(t: Tables, user: nat, batch: nat, rows: seq<Row>)
    requires Tidy(t.listing) && UniqueKeys(t.records) && Ascending(rows) && BatchUnused(t.records, user, batch, 0)
    requires forall k :: 0 <= k < |rows| ==> TidyRow(rows[k]) && ValidRow(rows[k])
    requires forall k :: 0 <= k < |rows| && !rows[k].duplicate ==> StillUsable(rows[k], t.listing)
    ensures ConfirmRows(t, user, batch, rows).Ok?
  {
    if rows != [] {
      var n := |rows| - 1;
      forall k | 0 <= k < n
        ensures rows[..n][k] == rows[k]
      {
      }
      FirstConfirmSucceeds(t, user, batch, rows[..n]);
      if !rows[n].duplicate {
        FirstConfirmRecords(t, user, batch, rows[..n]);
        ConfirmKeeps(t, user, batch, rows[..n]);
        var t1 := ConfirmRows(t, user, batch, rows[..n]).value.0;
        if n > 0 { assert rows[n - 1].number < rows[n].number; }
        UsableStays(rows[n], t.listing, t1.listing);
        assert Unused(t1.records, user, ImportKey(batch, rows[n].number));
        RowSucceeds(t1, user, batch, rows[n]);
      }
    }
  }

  // ---------- the row's own record answers to it ----------

  /** The note of the row is one of the keys under which its stored note is compared. */
  predicate NoteSurvives(row: Row) {
    (row.ledger == "" && row.second == "") || Untag(Expand(row.note, row.ledger, row.second)) == row.note
  }

  lemma NoteKeyOfStored(row: Row, d: Draft)
    requires Stripped(row.note) && d.note == StoredNote(row)
    ensures row.note in NoteKeys(d) <==> NoteSurvives(row)
  {
    var e := Expand(row.note, row.ledger, row.second);
    assert d.note.GetOr("") == e;
    ExpandIsNoteAndTail(row.note, row.ledger, row.second);
    if row.ledger == "" && row.second == "" {
      assert Tail("", "") == "";
      assert e == row.note;
    } else {
      assert |e| > |row.note| by { assert |Tail(row.ledger, row.second)| > 2; }
    }
  }

  /** The record made from a row answers to the row's cells exactly when the note survives, under any later listing. */
  lemma OwnRecordAnswers(f: Fields, l: Listing, l': Listing, row: Row, number: nat, d: Draft)
    requires Tidy(l) && Tidy(l') && Extends(l, l')
    requires row == Normalize(Object(f), l, number) && row.errors == []
    requires Recorded(row, l', d)
    ensures SameEntry(f, l', d) <==> NoteSurvives(row)
  {
    NoErrors(f, l, number);
    NoteKeyOfStored(row, d);
    OwnCategory(f, l, l', d);
    OwnMethod(f, l, l', d);
  }

  lemma OwnCategory(f: Fields, l: Listing, l': Listing, d: Draft)
    requires Tidy(l) && Tidy(l') && Extends(l, l') && Filed(d, l')
    requires var c := ChooseCategory(f, Some(d.kind), l);
             c.errors == [] && if c.id.Some? then d.category == c.id.value
                               else IsCategory(l'.categories[d.category], d.kind, c.name)
    ensures RefersCategory(f, d.kind, l', d.category)
  {
    if f.categoryId.Blank? {
      var found := FindCategory(l.categories, d.kind, Strip(f.category));
      if found.Some? {
        assert TidyName(l.categories[found.value].name);
        assert SameName(l.categories[found.value], l'.categories[found.value]);
      }
    }
  }

  lemma OwnMethod(f: Fields, l: Listing, l': Listing, d: Draft)
    requires Tidy(l) && Tidy(l') && Extends(l, l') && Filed(d, l')
    requires var m := ChooseMethod(f, l);
             m.errors == [] && if m.id.Some? then d.payment == m.id
                               else if m.name == "" then d.payment.None?
                               else d.payment.Some? && l'.methods[d.payment.value].name == m.name
    ensures RefersMethod(f, l', d.payment)
  {
    if f.methodId.Blank? && Strip(f.payment) != "" {
      var found := FindMethod(l.methods, Strip(f.payment));
      if found.Some? {
        assert TidyName(l.methods[found.value].name);
      }
    }
  }
}
