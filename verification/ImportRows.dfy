/** Normalising the rows of an import file and flagging those that are already in the ledger. */
module ImportRows {
  import opened Wrappers
  import opened Records
  import opened NoteTags
  import opened Amounts

  datatype CategoryRow = CategoryRow(kind: Kind, name: string, enabled: bool)

  datatype MethodRow = MethodRow(name: string, enabled: bool)

  /** A user's categories and payment methods; positions are ids. */
  datatype Listing = Listing(categories: seq<CategoryRow>, methods: seq<MethodRow>)

  /** What the tables keep: trimmed nonempty names within the column, unique per kind (per table for methods). */
  ghost predicate Tidy(l: Listing) {
    && (forall i :: 0 <= i < |l.categories| ==> TidyName(l.categories[i].name))
    && (forall i :: 0 <= i < |l.methods| ==> TidyName(l.methods[i].name))
    && (forall i, j :: 0 <= i < j < |l.categories| ==> !SameName(l.categories[i], l.categories[j]))
    && (forall i, j :: 0 <= i < j < |l.methods| ==> l.methods[i].name != l.methods[j].name)
  }

  predicate SameName(a: CategoryRow, b: CategoryRow) {
    a.kind == b.kind && a.name == b.name
  }

  const NAME_LIMIT := 30
  const NOTE_LIMIT := 500

  predicate TidyName(name: string) {
    name != "" && Stripped(name) && |name| <= NAME_LIMIT
  }

  predicate OpenCategory(c: CategoryRow, kind: Kind, name: string) {
    c.enabled && c.kind == kind && Strip(c.name) == name
  }

  /** `category_by_name`: the last enabled category wins. */
  function FindCategory(cs: seq<CategoryRow>, kind: Kind, name: string): (found: Option<nat>)
    ensures found.Some? ==> found.value < |cs| && OpenCategory(cs[found.value], kind, name)
    ensures found.None? ==> forall i :: 0 <= i < |cs| ==> !OpenCategory(cs[i], kind, name)
  {
    if cs == [] then None
    else if OpenCategory(cs[|cs| - 1], kind, name) then Some(|cs| - 1)
    else FindCategory(cs[..|cs| - 1], kind, name)
  }

  predicate OpenMethod(m: MethodRow, name: string) {
    m.enabled && Strip(m.name) == name
  }

  function FindMethod(ms: seq<MethodRow>, name: string): (found: Option<nat>)
    ensures found.Some? ==> found.value < |ms| && OpenMethod(ms[found.value], name)
    ensures found.None? ==> forall i :: 0 <= i < |ms| ==> !OpenMethod(ms[i], name)
  {
    if ms == [] then None
    else if OpenMethod(ms[|ms| - 1], name) then Some(|ms| - 1)
    else FindMethod(ms[..|ms| - 1], name)
  }

  /** A cell whose text denotes a value, does not, or is missing. */
  datatype Cell<T> = Blank | Garbled | Is(value: T)

  /** The cells of one row object; a missing text cell is blank text. */
  datatype Fields = Fields(
    kind: Cell<Kind>, amount: string, amountCent: string, day: Cell<int>, ledger: string, second: string,
    categoryId: Cell<nat>, category: string, methodId: Cell<nat>, payment: string, note: string)

  datatype Raw = NotAnObject | Object(fields: Fields)

  datatype RowError =
    | NotObject | BadKind | BadAmount(reason: AmountError) | BadDay
    | BadCategoryId | UnusableCategory | LongCategory | NoCategory
    | BadMethodId | UnusableMethod | LongMethod | LongNote | LongExpansion

  /** A previewed row; empty text stands for an absent value. */
  datatype Row = Row(
    number: nat, kind: Option<Kind>, cents: Option<int>, day: Option<int>, categoryId: Option<nat>,
    categoryName: string, ledger: string, second: string, methodId: Option<nat>, methodName: string, note: string,
    errors: seq<RowError>, duplicate: bool)

  function CellValue<T>(c: Cell<T>): Option<T> {
    if c.Is? then Some(c.value) else None
  }

  function Present(text: string): Option<string> {
    if Strip(text) == "" then None else Some(text)
  }

  function AmountOf(f: Fields): Result<int, AmountError> {
    var cents := Present(f.amountCent);
    ImportAmount(if cents.Some? then cents else Present(f.amount), cents.Some?)
  }

  /** An id or a name the row settled on, with the errors met on the way. */
  datatype Choice = Choice(id: Option<nat>, name: string, errors: seq<RowError>)

  function ChooseCategory(f: Fields, kind: Option<Kind>, l: Listing): Choice {
    match f.categoryId
    case Garbled => Choice(None, "", [BadCategoryId])
    case Is(i) =>
      if i < |l.categories| && l.categories[i].enabled && kind == Some(l.categories[i].kind)
      then Choice(Some(i), l.categories[i].name, [])
      else Choice(None, "", [UnusableCategory])
    case Blank =>
      var name := Strip(f.category);
      if name == "" then Choice(None, "", [NoCategory])
      else
        var errors := if |name| > NAME_LIMIT then [LongCategory] else [];
        var found := if kind.Some? then FindCategory(l.categories, kind.value, name) else None;
        Choice(found, if found.Some? then l.categories[found.value].name else name, errors)
  }

  function ChooseMethod(f: Fields, l: Listing): Choice {
    match f.methodId
    case Garbled => Choice(None, "", [BadMethodId])
    case Is(i) =>
      if i < |l.methods| && l.methods[i].enabled then Choice(Some(i), l.methods[i].name, [])
      else Choice(None, "", [UnusableMethod])
    case Blank =>
      var name := Strip(f.payment);
      if name == "" then Choice(None, "", [])
      else
        var errors := if |name| > NAME_LIMIT then [LongMethod] else [];
        var found := FindMethod(l.methods, name);
        Choice(found, if found.Some? then l.methods[found.value].name else name, errors)
  }

  function NoteErrors(note: string, ledger: string, second: string): seq<RowError> {
    if |note| > NOTE_LIMIT then [LongNote]
    else if |Expand(note, ledger, second)| > NOTE_LIMIT then [LongExpansion]
    else []
  }

  function EmptyRow(number: nat): Row {
    Row(number, None, None, None, None, "", "", "", None, "", "", [], false)
  }

  /** One row before the duplicate check. */
  function Normalize(raw: Raw, l: Listing, number: nat): Row {
    match raw
    case NotAnObject => EmptyRow(number).(errors := [NotObject])
    case Object(f) =>
      var kind := CellValue(f.kind);
      var amount := AmountOf(f);
      var (ledger, second, note) := (Strip(f.ledger), Strip(f.second), Strip(f.note));
      var category := ChooseCategory(f, kind, l);
      var payment := ChooseMethod(f, l);
      Row(number, kind, if amount.Ok? then Some(amount.value) else None, CellValue(f.day), category.id, category.name,
          ledger, second, payment.id, payment.name, note,
          (if kind.None? then [BadKind] else []) + (if amount.Err? then [BadAmount(amount.error)] else [])
          + (if f.day.Is? then [] else [BadDay]) + category.errors + payment.errors + NoteErrors(note, ledger, second),
          false)
  }

  // ---------- fingerprints ----------

  datatype Target = Known(id: nat) | Named(name: string)

  datatype Fingerprint = Fingerprint(
    kind: Option<Kind>, cents: Option<int>, day: Option<int>, category: Target, payment: Option<Target>, note: string)

  function CategoryMark(id: Option<nat>, name: string): Target {
    if id.Some? then Known(id.value) else Named(name)
  }

  function MethodMark(id: Option<nat>, name: string): Option<Target> {
    if id.Some? then Some(Known(id.value)) else if name != "" then Some(Named(name)) else None
  }

  function PrintOf(row: Row): Fingerprint {
    Fingerprint(row.kind, row.cents, row.day, CategoryMark(row.categoryId, row.categoryName),
                MethodMark(row.methodId, row.methodName), row.note)
  }

  function CategoryKeys(d: Draft, l: Listing): set<Target> {
    {Known(d.category)} + if d.category < |l.categories| then {Named(Strip(l.categories[d.category].name))} else {}
  }

  function MethodKeys(d: Draft, l: Listing): set<Option<Target>> {
    if d.payment.None? then {None}
    else
      {None, Some(Known(d.payment.value))}
      + if d.payment.value < |l.methods| then {Some(Named(Strip(l.methods[d.payment.value].name)))} else {}
  }

  function NoteKeys(d: Draft): set<string> {
    {d.note.GetOr(""), Untag(d.note.GetOr(""))}
  }

  /** Every fingerprint an existing record answers to. */
  function PrintsOf(d: Draft, l: Listing): set<Fingerprint> {
    set c, m, n | c in CategoryKeys(d, l) && m in MethodKeys(d, l) && n in NoteKeys(d) ::
      Fingerprint(Some(d.kind), Some(d.amountCent), Some(d.day), c, m, n)
  }

  predicate Live(r: Record, user: nat) {
    r.user == user && !r.deleted
  }

  function AllPrints(rs: seq<Record>, user: nat, l: Listing): set<Fingerprint> {
    if rs == [] then {}
    else
      var n := |rs| - 1;
      AllPrints(rs[..n], user, l) + if Live(rs[n], user) then PrintsOf(rs[n].draft, l) else {}
  }

  /** The rows of a file in order, with the fingerprints seen so far. */
  datatype Progress = Progress(rows: seq<Row>, seen: set<Fingerprint>)

  function Flag(row: Row, seen: set<Fingerprint>, existing: set<Fingerprint>): Row {
    if row.errors != [] then row else row.(duplicate := PrintOf(row) in seen || PrintOf(row) in existing)
  }

  function FlagRows(rows: seq<Row>, existing: set<Fingerprint>): (p: Progress)
    ensures |p.rows| == |rows|
  {
    if rows == [] then Progress([], {})
    else
      var n := |rows| - 1;
      var before := FlagRows(rows[..n], existing);
      Progress(before.rows + [Flag(rows[n], before.seen, existing)],
               before.seen + if rows[n].errors == [] then {PrintOf(rows[n])} else {})
  }

  function NormalizeAll(raws: seq<Raw>, l: Listing, first: nat): (rows: seq<Row>)
    ensures |rows| == |raws|
  {
    if raws == [] then []
    else
      var n := |raws| - 1;
      NormalizeAll(raws[..n], l, first) + [Normalize(raws[n], l, first + n)]
  }

  lemma {:induction false} NormalizeAllAt(raws: seq<Raw>, l: Listing, first: nat, k: nat)
    requires k < |raws|
    ensures NormalizeAll(raws, l, first)[k] == Normalize(raws[k], l, first + k)
  {
    if k < |raws| - 1 {
      NormalizeAllAt(raws[..|raws| - 1], l, first, k);
    }
  }

  function Preview(raws: seq<Raw>, l: Listing, existing: set<Fingerprint>, first: nat): seq<Row> {
    FlagRows(NormalizeAll(raws, l, first), existing).rows
  }

  method ExistingPrints(rs: seq<Record>, user: nat, l: Listing) returns (existing: set<Fingerprint>)
    ensures existing == AllPrints(rs, user, l)
  {
    existing := {};
    var i := 0;
    while i < |rs|
      invariant 0 <= i <= |rs| && existing == AllPrints(rs[..i], user, l)
    {
      assert rs[..i + 1][..i] == rs[..i];
      if Live(rs[i], user) {
        existing := existing + PrintsOf(rs[i].draft, l);
      }
      i := i + 1;
    }
    assert rs[..i] == rs;
  }

  lemma FlagRowsStep(all: seq<Row>, i: nat, existing: set<Fingerprint>, before: Progress)
    requires i < |all| && FlagRows(all[..i], existing) == before
    ensures FlagRows(all[..i + 1], existing) ==
            Progress(before.rows + [Flag(all[i], before.seen, existing)],
                     before.seen + if all[i].errors == [] then {PrintOf(all[i])} else {})
  {
    assert all[..i + 1][..i] == all[..i];
  }

  /** The duplicate check of one row against the file so far and the ledger. */
  method CheckDuplicate(plain: Row, seen: set<Fingerprint>, existing: set<Fingerprint>)
    returns (row: Row, seen': set<Fingerprint>)
    ensures row == Flag(plain, seen, existing)
    ensures seen' == seen + if plain.errors == [] then {PrintOf(plain)} else {}
  {
    row, seen' := plain, seen;
    if row.errors == [] {
      var mark := PrintOf(row);
      row := row.(duplicate := mark in seen || mark in existing);
      seen' := seen + {mark};
    }
  }

  /** Reading this row's amount raises where nothing catches it. */
  predicate Raises(raw: Raw) {
    raw.Object? && AmountOf(raw.fields) == Err(Unquantizable)
  }

  predicate Any<T>(s: seq<T>, p: T -> bool) {
    exists k :: 0 <= k < |s| && p(s[k])
  }

  lemma AnySnoc<T>(s: seq<T>, p: T -> bool, i: nat)
    requires i < |s|
    ensures Any(s[..i + 1], p) <==> Any(s[..i], p) || p(s[i])
    ensures Any(s[..i + 1], p) ==> Any(s, p)
  {
    var t := s[..i + 1];
    assert forall k :: 0 <= k < i ==> t[k] == s[..i][k];
    assert t[i] == s[i];
  }

  predicate AnyRaises(raws: seq<Raw>) {
    Any(raws, Raises)
  }

  method NormalizeRow(raws: seq<Raw>, l: Listing, first: nat, i: nat) returns (row: Option<Row>)
    requires i < |raws|
    ensures AnyRaises(raws[..i + 1]) <==> AnyRaises(raws[..i]) || row.None?
    ensures AnyRaises(raws[..i + 1]) ==> AnyRaises(raws)
    ensures row.Some? ==> row.value == NormalizeAll(raws, l, first)[i]
  {
    AnySnoc(raws, Raises, i);
    if Raises(raws[i]) {
      return None;
    }
    NormalizeAllAt(raws, l, first, i);
    return Some(Normalize(raws[i], l, first + i));
  }

  /** `_normalize_import_rows`; no rows at all when one of them raises. */
  method NormalizeRows(raws: seq<Raw>, first: nat, rs: seq<Record>, user: nat, l: Listing) returns (r: Option<seq<Row>>)
    ensures r == if AnyRaises(raws) then None else Some(Preview(raws, l, AllPrints(rs, user, l), first))
  {
    var existing := ExistingPrints(rs, user, l);
    var rows: seq<Row> := [];
    var seen: set<Fingerprint> := {};
    ghost var all := NormalizeAll(raws, l, first);
    var i := 0;
    while i < |raws|
      invariant 0 <= i <= |raws|
      invariant Progress(rows, seen) == FlagRows(all[..i], existing)
      invariant !AnyRaises(raws[..i])
    {
      var plain := NormalizeRow(raws, l, first, i);
      if plain.None? {
        return None;
      }
      FlagRowsStep(all, i, existing, Progress(rows, seen));
      var row: Row;
      row, seen := CheckDuplicate(plain.value, seen, existing);
      rows := rows + [row];
      i := i + 1;
    }
    assert all[..i] == all && raws[..i] == raws;
    return Some(rows);
  }

  // ---------- what a duplicate is ----------

  predicate RefersCategory(f: Fields, kind: Kind, l: Listing, c: nat) {
    match f.categoryId
    case Is(i) => c == i
    case Garbled => false
    case Blank => c < |l.categories| && l.categories[c].kind == kind && l.categories[c].name == Strip(f.category)
  }

  /** A row without payment method matches a record with any. */
  predicate RefersMethod(f: Fields, l: Listing, m: Option<nat>) {
    match f.methodId
    case Is(i) => m == Some(i)
    case Garbled => false
    case Blank =>
      Strip(f.payment) == "" || (m.Some? && m.value < |l.methods| && l.methods[m.value].name == Strip(f.payment))
  }

  /** The row describes the recorded entry. Which categories and methods are enabled plays no part. */
  predicate SameEntry(f: Fields, l: Listing, d: Draft) {
    && f.kind == Is(d.kind) && AmountOf(f) == Ok(d.amountCent) && f.day == Is(d.day)
    && RefersCategory(f, d.kind, l, d.category)
    && RefersMethod(f, l, d.payment)
    && Strip(f.note) in NoteKeys(d)
  }

  /** A record's category and payment method exist, and the category is of the record's kind. */
  predicate Filed(d: Draft, l: Listing) {
    && d.category < |l.categories| && l.categories[d.category].kind == d.kind
    && (d.payment.Some? ==> d.payment.value < |l.methods|)
  }

  lemma CategoryMeets(f: Fields, l: Listing, d: Draft)
    requires Tidy(l) && Filed(d, l)
    requires ChooseCategory(f, Some(d.kind), l).errors == []
    ensures var c := ChooseCategory(f, Some(d.kind), l);
            CategoryMark(c.id, c.name) in CategoryKeys(d, l) <==> RefersCategory(f, d.kind, l, d.category)
  {
    assert TidyName(l.categories[d.category].name);
    if f.categoryId.Blank? {
      var found := FindCategory(l.categories, d.kind, Strip(f.category));
      if found.Some? {
        var i := found.value;
        assert TidyName(l.categories[i].name);
        assert i < d.category || d.category < i ==> !SameName(l.categories[i], l.categories[d.category]);
      }
    }
  }

  lemma MethodMeets(f: Fields, l: Listing, d: Draft)
    requires Tidy(l) && Filed(d, l)
    requires ChooseMethod(f, l).errors == []
    ensures var c := ChooseMethod(f, l); MethodMark(c.id, c.name) in MethodKeys(d, l) <==> RefersMethod(f, l, d.payment)
  {
    if f.methodId.Blank? && Strip(f.payment) != "" && d.payment.Some? {
      assert TidyName(l.methods[d.payment.value].name);
      var found := FindMethod(l.methods, Strip(f.payment));
      if found.Some? {
        assert TidyName(l.methods[found.value].name);
      }
    }
  }

  lemma NoErrors(f: Fields, l: Listing, number: nat)
    requires Normalize(Object(f), l, number).errors == []
    ensures f.kind.Is? && AmountOf(f).Ok? && f.day.Is?
    ensures ChooseCategory(f, Some(f.kind.value), l).errors == [] && ChooseMethod(f, l).errors == []
    ensures NoteErrors(Strip(f.note), Strip(f.ledger), Strip(f.second)) == []
  {
  }

  /** The fingerprint of an error-free row is among a record's fingerprints exactly when the row describes the
      record. */
  lemma PrintMeets(f: Fields, l: Listing, number: nat, d: Draft)
    requires Tidy(l) && Filed(d, l)
    requires Normalize(Object(f), l, number).errors == []
    ensures PrintOf(Normalize(Object(f), l, number)) in PrintsOf(d, l) <==> SameEntry(f, l, d)
  {
    NoErrors(f, l, number);
    if f.kind == Is(d.kind) {
      CategoryMeets(f, l, d);
      MethodMeets(f, l, d);
    }
  }
}
