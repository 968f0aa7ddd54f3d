/** Previewing a file again after it was confirmed. */
module ImportAgain {
  import opened Wrappers
  import opened Records
  import opened NoteTags
  import opened NoteNames
  import opened ImportRows
  import opened ImportConfirm
  import opened ImportRuns
  import opened ImportDuplicates

  /** Live records of the user stay live and unedited. */
  ghost predicate LiveStay(rs: seq<Record>, rs': seq<Record>, user: nat) {
    |rs| <= |rs'|
    && forall i :: 0 <= i < |rs| && Live(rs[i], user) ==> Live(rs'[i], user) && rs'[i].draft == rs[i].draft
  }

  /** Ids written out in the file are still enabled. */
  predicate CellsEnabled(f: Fields, l: Listing) {
    && (f.categoryId.Is? ==> f.categoryId.value < |l.categories| && l.categories[f.categoryId.value].enabled)
    && (f.methodId.Is? ==> f.methodId.value < |l.methods| && l.methods[f.methodId.value].enabled)
  }

  // ---------- an error-free row stays error-free, and its fingerprint keeps its meaning ----------

  lemma ChoicesStay(f: Fields, kind: Kind, l: Listing, l': Listing)
    requires Extends(l, l') && CellsEnabled(f, l')
    requires ChooseCategory(f, Some(kind), l).errors == [] && ChooseMethod(f, l).errors == []
    ensures ChooseCategory(f, Some(kind), l').errors == [] && ChooseMethod(f, l').errors == []
  {
    if f.categoryId.Is? { assert SameName(l.categories[f.categoryId.value], l'.categories[f.categoryId.value]); }
  }

  lemma ErrorsStay(f: Fields, l: Listing, l': Listing, number: nat, number': nat)
    requires Extends(l, l') && CellsEnabled(f, l')
    requires Normalize(Object(f), l, number).errors == []
    ensures Normalize(Object(f), l', number').errors == []
  {
    NoErrors(f, l, number);
    ChoicesStay(f, f.kind.value, l, l');
  }

  predicate CategoryAt(mark: Target, l: Listing, c: nat) {
    match mark
    case Known(i) => c == i
    case Named(name) => c < |l.categories| && l.categories[c].name == name
  }

  predicate MethodAt(mark: Option<Target>, l: Listing, m: Option<nat>) {
    match mark
    case None => true
    case Some(Known(i)) => m == Some(i)
    case Some(Named(name)) => m.Some? && m.value < |l.methods| && l.methods[m.value].name == name
  }

  /** What a fingerprint computed under an earlier listing means under a later one. */
  lemma CategoryMarkDecides(f: Fields, l: Listing, l': Listing, d: Draft)
    requires Tidy(l) && Tidy(l') && Extends(l, l') && Filed(d, l')
    requires ChooseCategory(f, Some(d.kind), l).errors == []
    ensures var c := ChooseCategory(f, Some(d.kind), l);
            RefersCategory(f, d.kind, l', d.category) <==> CategoryAt(CategoryMark(c.id, c.name), l', d.category)
  {
    if f.categoryId.Blank? {
      var found := FindCategory(l.categories, d.kind, Strip(f.category));
      if found.Some? {
        var i := found.value;
        assert TidyName(l.categories[i].name) && SameName(l.categories[i], l'.categories[i]);
        assert i < d.category || d.category < i ==> !SameName(l'.categories[i], l'.categories[d.category]);
      }
    }
  }

  lemma MethodMarkDecides(f: Fields, l: Listing, l': Listing, d: Draft)
    requires Tidy(l) && Tidy(l') && Extends(l, l') && Filed(d, l')
    requires ChooseMethod(f, l).errors == []
    ensures var m := ChooseMethod(f, l);
            RefersMethod(f, l', d.payment) <==> MethodAt(MethodMark(m.id, m.name), l', d.payment)
  {
    if f.methodId.Blank? && Strip(f.payment) != "" {
      var found := FindMethod(l.methods, Strip(f.payment));
      if found.Some? { assert TidyName(l.methods[found.value].name); }
    }
  }

  /** Rows with equal fingerprints describe the same records from then on. */
  lemma SamePrintSameEntry(f: Fields, g: Fields, l: Listing, l': Listing, m: nat, n: nat, d: Draft)
    requires Tidy(l) && Tidy(l') && Extends(l, l') && Filed(d, l')
    requires Normalize(Object(f), l, m).errors == [] && Normalize(Object(g), l, n).errors == []
    requires PrintOf(Normalize(Object(f), l, m)) == PrintOf(Normalize(Object(g), l, n))
    requires SameEntry(f, l', d)
    ensures SameEntry(g, l', d)
  {
    NoErrors(f, l, m);
    NoErrors(g, l, n);
    EqualPrintParts(f, g, l, m, n);
    CategoryMarkDecides(f, l, l', d);
    CategoryMarkDecides(g, l, l', d);
    MethodMarkDecides(f, l, l', d);
    MethodMarkDecides(g, l, l', d);
  }

  lemma EqualPrintParts(f: Fields, g: Fields, l: Listing, m: nat, n: nat)
    requires f.kind.Is? && g.kind.Is? && f.day.Is? && g.day.Is? && AmountOf(f).Ok? && AmountOf(g).Ok?
    requires PrintOf(Normalize(Object(f), l, m)) == PrintOf(Normalize(Object(g), l, n))
    ensures f.kind == g.kind && AmountOf(f) == AmountOf(g) && f.day == g.day && Strip(f.note) == Strip(g.note)
    ensures var (a, b) := (ChooseCategory(f, Some(f.kind.value), l), ChooseCategory(g, Some(g.kind.value), l));
            CategoryMark(a.id, a.name) == CategoryMark(b.id, b.name)
    ensures var (a, b) := (ChooseMethod(f, l), ChooseMethod(g, l)); MethodMark(a.id, a.name) == MethodMark(b.id, b.name)
  {
  }

  lemma SameEntryStays(f: Fields, l: Listing, l': Listing, d: Draft)
    requires Extends(l, l') && Filed(d, l) && SameEntry(f, l, d)
    ensures SameEntry(f, l', d)
  {
    assert SameName(l.categories[d.category], l'.categories[d.category]);
  }

  lemma DescribedStays(f: Fields, l: Listing, l': Listing, rs: seq<Record>, rs': seq<Record>, user: nat)
    requires Extends(l, l') && LiveStay(rs, rs', user) && AllFiled(rs, user, l)
    requires Described(f, l, rs, user)
    ensures Described(f, l', rs', user)
  {
    var i :| 0 <= i < |rs| && Live(rs[i], user) && SameEntry(f, l, rs[i].draft);
    SameEntryStays(f, l, l', rs[i].draft);
    assert SameEntry(f, l', rs'[i].draft);
  }

  lemma {:induction false} ImportedHas(rows: seq<Row>, k: nat) returns (m: nat)
    requires k < |rows| && !rows[k].duplicate
    ensures m < |Imported(rows)| && Imported(rows)[m] == rows[k]
  {
    var n := |rows| - 1;
    if k == n {
      m := |Imported(rows[..n])|;
    } else {
      m := ImportedHas(rows[..n], k);
    }
  }

  // ---------- the theorem ----------

  /** A preview that found no error, the confirmation of its batch, and the state of the ledger some time later. */
  datatype Story = Story(
    user: nat, raws: seq<Raw>, first: nat, before: Tables, batch: nat, confirmed: Tables, after: Tables,
    ids: seq<nat>, later: Tables)

  function RowsOf(s: Story): seq<Row> {
    Preview(s.raws, s.before.listing, AllPrints(s.before.records, s.user, s.before.listing), s.first)
  }

  ghost predicate Told(s: Story) {
    && Tidy(s.before.listing) && Tidy(s.confirmed.listing) && Tidy(s.later.listing)
    && AllFiled(s.before.records, s.user, s.before.listing) && AllFiled(s.later.records, s.user, s.later.listing)
    && Extends(s.before.listing, s.confirmed.listing) && LiveStay(s.before.records, s.confirmed.records, s.user)
    && UniqueKeys(s.confirmed.records) && BatchUnused(s.confirmed.records, s.user, s.batch, 0)
    && !AnyErrors(RowsOf(s))
    && ConfirmRows(s.confirmed, s.user, s.batch, RowsOf(s)) == Ok((s.after, s.ids))
    && Extends(s.after.listing, s.later.listing) && LiveStay(s.after.records, s.later.records, s.user)
    && (forall k :: 0 <= k < |s.raws| && s.raws[k].Object? ==> CellsEnabled(s.raws[k].fields, s.later.listing))
  }

  /** What the story says about one row. */
  lemma RowFacts(s: Story, k: nat)
    requires Told(s) && k < |s.raws|
    ensures var row := RowsOf(s)[k];
            && s.raws[k].Object? && row.errors == [] && TidyRow(row) && ValidRow(row)
            && row == Normalize(s.raws[k], s.before.listing, s.first + k).(duplicate := row.duplicate)
            && Normalize(s.raws[k], s.before.listing, s.first + k).errors == []
  {
    var (l, existing) := (s.before.listing, AllPrints(s.before.records, s.user, s.before.listing));
    NormalizeAllAt(s.raws, l, s.first, k);
    FlagRowExactly(NormalizeAll(s.raws, l, s.first), existing, k);
    assert RowsOf(s)[k].errors == [];
    PreviewRowsOk(s.raws, l, existing, s.first);
    assert RowOk(RowsOf(s)[k]);
  }

  lemma StoryConfirms(s: Story)
    requires Told(s)
    ensures Added(s.confirmed, s.after, s.user, Imported(RowsOf(s)), s.ids)
    ensures Extends(s.before.listing, s.later.listing) && Extends(s.before.listing, s.after.listing)
    ensures LiveStay(s.before.records, s.later.records, s.user) && Tidy(s.after.listing)
  {
    var rows := RowsOf(s);
    forall k | 0 <= k < |rows| ensures TidyRow(rows[k]) { RowFacts(s, k); }
    PreviewRowsOk(s.raws, s.before.listing, AllPrints(s.before.records, s.user, s.before.listing), s.first);
    FirstConfirmRecords(s.confirmed, s.user, s.batch, rows);
    ConfirmKeeps(s.confirmed, s.user, s.batch, rows);
    ExtendsThrough(s.before.listing, s.confirmed.listing, s.after.listing);
    ExtendsThrough(s.before.listing, s.after.listing, s.later.listing);
    forall i | 0 <= i < |s.before.records| && Live(s.before.records[i], s.user)
      ensures Live(s.later.records[i], s.user) && s.later.records[i].draft == s.before.records[i].draft
    {
      assert s.after.records[i] == s.confirmed.records[i];
    }
  }

  lemma RecordOfRow(s: Story, k: nat) returns (i: nat)
    requires Told(s) && k < |s.raws| && !RowsOf(s)[k].duplicate
    ensures i < |s.later.records| && Live(s.later.records[i], s.user)
    ensures Recorded(RowsOf(s)[k], s.later.listing, s.later.records[i].draft)
  {
    StoryConfirms(s);
    var m := ImportedHas(RowsOf(s), k);
    i := s.ids[m];
    assert Live(s.after.records[i], s.user);
    RecordedStays(RowsOf(s)[k], s.after.listing, s.later.listing, s.after.records[i].draft);
  }

  /** An imported row whose note survives describes the record it became. */
  lemma ImportedRowDescribed(s: Story, k: nat)
    requires Told(s) && k < |s.raws| && !RowsOf(s)[k].duplicate && NoteSurvives(RowsOf(s)[k])
    ensures s.raws[k].Object? && Described(s.raws[k].fields, s.later.listing, s.later.records, s.user)
  {
    StoryConfirms(s);
    RowFacts(s, k);
    var i := RecordOfRow(s, k);
    var f := s.raws[k].fields;
    PlainRow(f, s.before.listing, RowsOf(s)[k], s.first + k);
    OwnRecordAnswers(f, s.before.listing, s.later.listing, RowsOf(s)[k], s.first + k, s.later.records[i].draft);
  }

  lemma PlainRow(f: Fields, l: Listing, row: Row, number: nat)
    requires row == Normalize(Object(f), l, number).(duplicate := row.duplicate) && !row.duplicate
    ensures row == Normalize(Object(f), l, number)
  {
  }

  lemma {:induction false} RowDescribed(s: Story, k: nat)
    requires Told(s) && k < |s.raws|
    requires forall j :: 0 <= j <= k ==> NoteSurvives(RowsOf(s)[j])
    ensures s.raws[k].Object? && Described(s.raws[k].fields, s.later.listing, s.later.records, s.user)
    decreases k
  {
    RowFacts(s, k);
    var l := s.before.listing;
    var rows := NormalizeAll(s.raws, l, s.first);
    FlaggedExactly(s.raws, l, s.before.records, s.user, s.first, k);
    StoryConfirms(s);
    if !RowsOf(s)[k].duplicate {
      ImportedRowDescribed(s, k);
    } else if Described(s.raws[k].fields, l, s.before.records, s.user) {
      DescribedStays(s.raws[k].fields, l, s.later.listing, s.before.records, s.later.records, s.user);
    } else {
      var j :| 0 <= j < k && rows[j].errors == [] && PrintOf(rows[j]) == PrintOf(rows[k]);
      RowDescribed(s, j);
      CleanRow(s, j);
      CleanRow(s, k);
      SamePrintDescribed(s.raws[j].fields, s.raws[k].fields, l, s.later, s.user, s.first + j, s.first + k);
    }
  }

  lemma CleanRow(s: Story, k: nat)
    requires Told(s) && k < |s.raws|
    ensures s.raws[k].Object?
    ensures var row := Normalize(Object(s.raws[k].fields), s.before.listing, s.first + k);
            row.errors == [] && NormalizeAll(s.raws, s.before.listing, s.first)[k] == row
  {
    RowFacts(s, k);
    NormalizeAllAt(s.raws, s.before.listing, s.first, k);
    assert s.raws[k] == Object(s.raws[k].fields);
  }

  lemma SamePrintDescribed(f: Fields, g: Fields, l: Listing, t: Tables, user: nat, m: nat, n: nat)
    requires Tidy(l) && Tidy(t.listing) && Extends(l, t.listing) && AllFiled(t.records, user, t.listing)
    requires Normalize(Object(f), l, m).errors == [] && Normalize(Object(g), l, n).errors == []
    requires PrintOf(Normalize(Object(f), l, m)) == PrintOf(Normalize(Object(g), l, n))
    requires Described(f, t.listing, t.records, user)
    ensures Described(g, t.listing, t.records, user)
  {
    var i :| 0 <= i < |t.records| && Live(t.records[i], user) && SameEntry(f, t.listing, t.records[i].draft);
    SamePrintSameEntry(f, g, l, t.listing, m, n, t.records[i].draft);
  }

  ghost predicate AllSurvive(rows: seq<Row>) {
    forall j :: 0 <= j < |rows| ==> NoteSurvives(rows[j])
  }

  lemma OneSurvives(rows: seq<Row>)
    requires |rows| == 1 && NoteSurvives(rows[0])
    ensures AllSurvive(rows)
  {
    forall j | 0 <= j < |rows| ensures NoteSurvives(rows[j]) {
      assert rows[j] == rows[0];
    }
  }

  /** Previewing a confirmed file again flags every row, provided the notes survive their tags. */
  lemma SecondPreviewFlagsAll(s: Story, first: nat, k: nat)
    requires Told(s) && k < |s.raws|
    requires AllSurvive(RowsOf(s))
    ensures var row := Preview(s.raws, s.later.listing, AllPrints(s.later.records, s.user, s.later.listing), first)[k];
            row.errors == [] && row.duplicate
  {
    RowFacts(s, k);
    RowDescribed(s, k);
    StoryConfirms(s);
    assert s.raws[k] == Object(s.raws[k].fields);
    ErrorsStay(s.raws[k].fields, s.before.listing, s.later.listing, s.first + k, first + k);
    NormalizeAllAt(s.raws, s.later.listing, first, k);
    FlaggedExactly(s.raws, s.later.listing, s.later.records, s.user, first, k);
  }

  lemma OneImported(rows: seq<Row>)
    requires |rows| == 1
    ensures Imported(rows) == if rows[0].duplicate then [] else [rows[0]]
  {
    assert Imported(rows[..0]) == [];
  }

  /** When nothing was live before, a live record afterwards is the one that was added. */
  lemma OneAdded(t: Tables, t': Tables, user: nat, kept: seq<Row>, ids: seq<nat>, i: nat)
    requires |kept| <= 1 && Added(t, t', user, kept, ids) && t.records <= t'.records
    requires forall j :: 0 <= j < |t.records| ==> !Live(t.records[j], user)
    requires i < |t'.records| && Live(t'.records[i], user)
    ensures |kept| == 1 && Recorded(kept[0], t'.listing, t'.records[i].draft)
  {
    forall j | 0 <= j < |t.records| ensures !Live(t'.records[j], user) {
      assert t'.records[j] == t.records[j];
    }
    assert i == |t.records| && ids[0] == i;
  }

  lemma OwnRecordSilent(f: Fields, l: Listing, l': Listing, row: Row, number: nat, d: Draft)
    requires Tidy(l) && Tidy(l') && Extends(l, l') && Recorded(row, l', d)
    requires row == Normalize(Object(f), l, number).(duplicate := row.duplicate) && !row.duplicate && row.errors == []
    requires !NoteSurvives(row)
    ensures !SameEntry(f, l', d)
  {
    PlainRow(f, l, row, number);
    OwnRecordAnswers(f, l, l', row, number, d);
  }

  lemma OnlyRecordSilent(raw: Raw, l: Listing, l': Listing, number: nat, t: Tables, t': Tables, user: nat,
                         rows: seq<Row>,
                         ids: seq<nat>)
    requires Tidy(l) && Tidy(l') && Extends(l, l') && Extends(t'.listing, l') && raw.Object?
    requires |rows| == 1 && Added(t, t', user, Imported(rows), ids) && t.records <= t'.records
    requires forall j :: 0 <= j < |t.records| ==> !Live(t.records[j], user)
    requires rows[0] == Normalize(raw, l, number).(duplicate := rows[0].duplicate)
    requires rows[0].errors == [] && !NoteSurvives(rows[0])
    ensures !Described(raw.fields, l', t'.records, user)
  {
    OneImported(rows);
    assert raw == Object(raw.fields);
    forall i | 0 <= i < |t'.records| && Live(t'.records[i], user)
      ensures !SameEntry(raw.fields, l', t'.records[i].draft)
    {
      OneAdded(t, t', user, Imported(rows), ids, i);
      RecordedStays(rows[0], t'.listing, l', t'.records[i].draft);
      OwnRecordSilent(raw.fields, l, l', rows[0], number, t'.records[i].draft);
    }
  }

  lemma ConfirmedPrefix(s: Story)
    requires Told(s)
    ensures s.confirmed.records <= s.after.records
  {
    var rows := RowsOf(s);
    forall k | 0 <= k < |rows| ensures TidyRow(rows[k]) { RowFacts(s, k); }
    ConfirmKeeps(s.confirmed, s.user, s.batch, rows);
  }

  lemma OneRowSilent(s: Story)
    requires Told(s) && |s.raws| == 1 && s.later.records == s.after.records
    requires forall i :: 0 <= i < |s.confirmed.records| ==> !Live(s.confirmed.records[i], s.user)
    requires !NoteSurvives(RowsOf(s)[0])
    ensures s.raws[0].Object? && !Described(s.raws[0].fields, s.later.listing, s.later.records, s.user)
  {
    StoryConfirms(s);
    ConfirmedPrefix(s);
    RowFacts(s, 0);
    OnlyRecordSilent(s.raws[0], s.before.listing, s.later.listing, s.first + 0, s.confirmed, s.after, s.user, RowsOf(s),
                     s.ids);
  }

  lemma OnlyRowFlagged(raws: seq<Raw>, l: Listing, rs: seq<Record>, user: nat, first: nat)
    requires Tidy(l) && AllFiled(rs, user, l) && |raws| == 1 && raws[0].Object?
    requires Preview(raws, l, AllPrints(rs, user, l), first)[0].duplicate
    ensures Described(raws[0].fields, l, rs, user)
  {
    FlaggedExactly(raws, l, rs, user, first, 0);
  }

  function FirstOfSecond(s: Story, first: nat): Row
    requires s.raws != []
  {
    Preview(s.raws, s.later.listing, AllPrints(s.later.records, s.user, s.later.listing), first)[0]
  }

  lemma OneRowFlagged(s: Story, first: nat)
    requires Told(s) && |s.raws| == 1 && NoteSurvives(RowsOf(s)[0])
    ensures FirstOfSecond(s, first).duplicate
  {
    OneSurvives(RowsOf(s));
    SecondPreviewFlagsAll(s, first, 0);
  }

  lemma OneRowUnflagged(s: Story, first: nat)
    requires Told(s) && |s.raws| == 1 && s.later.records == s.after.records
    requires forall i :: 0 <= i < |s.confirmed.records| ==> !Live(s.confirmed.records[i], s.user)
    requires !NoteSurvives(RowsOf(s)[0])
    ensures !FirstOfSecond(s, first).duplicate
  {
    OneRowSilent(s);
    StoryConfirms(s);
    if FirstOfSecond(s, first).duplicate {
      OnlyRowFlagged(s.raws, s.later.listing, s.later.records, s.user, first);
    }
  }

  /** The proviso is needed: a file of one row, imported into an empty ledger, is flagged the second time exactly when
      the note survives. */
  lemma OneRowFlaggedExactly(s: Story, first: nat)
    requires Told(s) && |s.raws| == 1 && s.later.records == s.after.records
    requires forall i :: 0 <= i < |s.confirmed.records| ==> !Live(s.confirmed.records[i], s.user)
    ensures FirstOfSecond(s, first).duplicate <==> NoteSurvives(RowsOf(s)[0])
  {
    if NoteSurvives(RowsOf(s)[0]) {
      OneRowFlagged(s, first);
    } else {
      OneRowUnflagged(s, first);
    }
  }

  /** Notes survive when no name is given; with names that hold neither bracket nor line end, exactly when no tag
      stands open in the note; and in a note without open tag, with any names, exactly when a tag can hold each of
      them. */
  lemma WhenNotesSurvive(row: Row)
    requires Stripped(row.note)
    ensures Clean(row.ledger) && Clean(row.second) ==>
              (NoteSurvives(row) <==> (row.ledger == "" && row.second == "") || !HasOpenTag(row.note))
    ensures !HasOpenTag(row.note) ==> (NoteSurvives(row) <==> NameHeld(row.ledger) && NameHeld(row.second))
  {
    if (row.ledger != "" || row.second != "") && Clean(row.ledger) && Clean(row.second) {
      UntagExpand(row.note, row.ledger, row.second);
    }
    if !HasOpenTag(row.note) { HeldExactly(row.note, row.ledger, row.second); }
  }
}
