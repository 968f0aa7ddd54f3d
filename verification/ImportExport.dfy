/** Exporting records, and previewing the export as an import. */
module ImportExport {
  import opened Wrappers
  import opened Records
  import opened NoteTags
  import opened Amounts
  import opened ImportRows
  import opened ImportDuplicates

  /** `re.search` for one tag at the start of the note or after a space: the group it captures. `boundary` says whether
      a tag may start here. */
  function TagText(opener: string, s: string, boundary: bool): Option<string> {
    if s == "" then None
    else if boundary && opener <= s && Closing(s[|opener|..]).Some?
         then Some(s[|opener|..][..Closing(s[|opener|..]).value])
    else TagText(opener, s[1..], s[0] == ' ')
  }

  /** The cells of one exported record. */
  function ExportRow(d: Draft, l: Listing, book: string): Fields
    requires Filed(d, l) && d.amountCent >= 0
  {
    var note := d.note.GetOr("");
    Fields(Is(d.kind), PriceText(d.amountCent), "", Is(d.day),
           TagText(LEDGER, note, true).GetOr(book), TagText(SECOND, note, true).GetOr(""),
           Blank, l.categories[d.category].name,
           Blank, if d.payment.Some? then l.methods[d.payment.value].name else "",
           Untag(note))
  }

  /** What the tables hold for a live record. */
  predicate Storable(d: Draft, l: Listing) {
    Filed(d, l) && 1 <= d.amountCent <= MAX_CENTS && |d.note.GetOr("")| <= NOTE_LIMIT
  }

  ghost predicate AllStorable(rs: seq<Record>, user: nat, l: Listing) {
    forall i :: 0 <= i < |rs| && Live(rs[i], user) ==> Storable(rs[i].draft, l)
  }

  /** `export_records` without a filter. */
  function ExportAll(rs: seq<Record>, user: nat, l: Listing, book: string): seq<Raw>
    requires AllStorable(rs, user, l)
  {
    if rs == [] then []
    else
      var n := |rs| - 1;
      ExportAll(rs[..n], user, l, book) + if Live(rs[n], user) then [Object(ExportRow(rs[n].draft, l, book))] else []
  }

  /** The places of the user's records that are not deleted, in order. */
  function LiveAt(rs: seq<Record>, user: nat): (at: seq<nat>)
    ensures |at| <= |rs| && forall k :: 0 <= k < |at| ==> at[k] < |rs| && rs[at[k]].user == user && !rs[at[k]].deleted
    ensures forall j, k :: 0 <= j < k < |at| ==> at[j] < at[k]
    ensures forall i :: 0 <= i < |rs| && rs[i].user == user && !rs[i].deleted ==> i in at
  {
    if rs == [] then []
    else
      var n := |rs| - 1;
      LiveAt(rs[..n], user) + if rs[n].user == user && !rs[n].deleted then [n] else []
  }

  /** The cells say what the record holds, by name; book and second-level category come out of the note. */
  predicate CellsOf(f: Fields, d: Draft, l: Listing) {
    && f.kind == Is(d.kind) && f.day == Is(d.day) && f.amountCent == "" && Means(f.amount, false, d.amountCent)
    && d.category < |l.categories| && f.categoryId.Blank? && f.category == l.categories[d.category].name
    && f.methodId.Blank?
    && (if d.payment.None? then f.payment == ""
        else d.payment.value < |l.methods| && f.payment == l.methods[d.payment.value].name)
    && f.note == Untag(if d.note.Some? then d.note.value else "")
  }

  /** One row for each of the user's records, in order, and none for a deleted one. */
  ghost predicate ExportedAs(rs: seq<Record>, user: nat, l: Listing, values: seq<Raw>) {
    var at := LiveAt(rs, user);
    && |values| == |at|
    && forall k :: 0 <= k < |at| ==> values[k].Object? && CellsOf(values[k].fields, rs[at[k]].draft, l)
  }

  lemma CellsExactly(d: Draft, l: Listing, book: string)
    requires Storable(d, l)
    ensures CellsOf(ExportRow(d, l, book), d, l)
  {
    PriceRoundTrip(d.amountCent);
    AmountExactly(PriceText(d.amountCent), false, d.amountCent);
  }

  /** The k-th row comes from the k-th live record. */
  ghost predicate ComesFrom(rs: seq<Record>, at: nat, l: Listing, book: string, value: Raw) {
    at < |rs| && Storable(rs[at].draft, l) && value == Object(ExportRow(rs[at].draft, l, book))
  }

  lemma ComesFromLast(rs: seq<Record>, l: Listing, book: string)
    requires rs != [] && Storable(rs[|rs| - 1].draft, l)
    ensures ComesFrom(rs, |rs| - 1, l, book, Object(ExportRow(rs[|rs| - 1].draft, l, book)))
  {
  }

  lemma ComesFromFront(rs: seq<Record>, at: nat, l: Listing, book: string, value: Raw)
    requires rs != [] && ComesFrom(rs[..|rs| - 1], at, l, book, value)
    ensures ComesFrom(rs, at, l, book, value)
  {
  }

  lemma {:induction false} ExportedFrom(rs: seq<Record>, user: nat, l: Listing, book: string, k: nat)
    requires AllStorable(rs, user, l) && k < |LiveAt(rs, user)| && k < |ExportAll(rs, user, l, book)|
    ensures ComesFrom(rs, LiveAt(rs, user)[k], l, book, ExportAll(rs, user, l, book)[k])
  {
    var n := |rs| - 1;
    ExportedCount(rs[..n], user, l, book);
    if k < |LiveAt(rs[..n], user)| {
      ExportedFrom(rs[..n], user, l, book, k);
      ComesFromFront(rs, LiveAt(rs[..n], user)[k], l, book, ExportAll(rs[..n], user, l, book)[k]);
    } else {
      ComesFromLast(rs, l, book);
    }
  }

  lemma {:induction false} ExportedCount(rs: seq<Record>, user: nat, l: Listing, book: string)
    requires AllStorable(rs, user, l)
    ensures |ExportAll(rs, user, l, book)| == |LiveAt(rs, user)|
  {
    if rs != [] { ExportedCount(rs[..|rs| - 1], user, l, book); }
  }

  lemma ExportExactly(rs: seq<Record>, user: nat, l: Listing, book: string)
    requires AllStorable(rs, user, l)
    ensures ExportedAs(rs, user, l, ExportAll(rs, user, l, book))
  {
    ExportedCount(rs, user, l, book);
    var (at, values) := (LiveAt(rs, user), ExportAll(rs, user, l, book));
    forall k | 0 <= k < |at| ensures values[k].Object? && CellsOf(values[k].fields, rs[at[k]].draft, l) {
      ExportedFrom(rs, user, l, book, k);
      CellsExactly(rs[at[k]].draft, l, book);
    }
  }

  method ExportRecords(rs: seq<Record>, user: nat, l: Listing, book: string) returns (values: seq<Raw>)
    requires AllStorable(rs, user, l)
    ensures values == ExportAll(rs, user, l, book) && ExportedAs(rs, user, l, values)
  {
    ExportExactly(rs, user, l, book);
    values := [];
    var i := 0;
    while i < |rs|
      invariant 0 <= i <= |rs|
      invariant values == ExportAll(rs[..i], user, l, book)
    {
      assert rs[..i + 1][..i] == rs[..i];
      if Live(rs[i], user) {
        values := values + [Object(ExportRow(rs[i].draft, l, book))];
      }
      i := i + 1;
    }
    assert rs[..i] == rs;
  }

  // ---------- an exported row is a duplicate of its record ----------

  lemma {:induction false} RemoveAllShorter(matchAt: string -> nat, s: string)
    ensures |RemoveAll(matchAt, s)| <= |s|
  {
    if s != "" {
      var m := matchAt(s);
      RemoveAllShorter(matchAt, s[if 0 < m <= |s| then m else 1..]);
    }
  }

  lemma UntagShorter(note: string)
    ensures |Untag(note)| <= |note|
  {
    RemoveAllShorter(MatchLen, note);
  }

  lemma ExportedAmount(d: Draft, l: Listing, book: string)
    requires Storable(d, l)
    ensures AmountOf(ExportRow(d, l, book)) == Ok(d.amountCent)
  {
    PriceRoundTrip(d.amountCent);
    PriceIsPlain(d.amountCent);
    assert Present("") == None;
  }

  lemma ExportedNames(d: Draft, l: Listing, book: string)
    requires Tidy(l) && Storable(d, l)
    ensures var f := ExportRow(d, l, book);
            && ChooseCategory(f, Some(d.kind), l).errors == [] && ChooseMethod(f, l).errors == []
            && RefersCategory(f, d.kind, l, d.category) && RefersMethod(f, l, d.payment)
  {
    assert TidyName(l.categories[d.category].name);
    if d.payment.Some? { assert TidyName(l.methods[d.payment.value].name); }
  }

  /** An exported row describes the record it came from. */
  lemma ExportDescribes(d: Draft, l: Listing, book: string)
    requires Tidy(l) && Storable(d, l)
    ensures SameEntry(ExportRow(d, l, book), l, d)
  {
    ExportedAmount(d, l, book);
    ExportedNames(d, l, book);
  }

  /** The one thing that can go wrong: book and second-level category, spelled out again, no longer fit the note. */
  predicate FitsNote(f: Fields) {
    |Expand(Strip(f.note), Strip(f.ledger), Strip(f.second))| <= NOTE_LIMIT
  }

  lemma ExportErrors(d: Draft, l: Listing, book: string, number: nat)
    requires Tidy(l) && Storable(d, l)
    ensures var f := ExportRow(d, l, book);
            Normalize(Object(f), l, number).errors == if FitsNote(f) then [] else [LongExpansion]
  {
    ExportedAmount(d, l, book);
    ExportedNames(d, l, book);
    UntagShorter(d.note.GetOr(""));
  }

  lemma {:induction false} ExportSource(rs: seq<Record>, user: nat, l: Listing, book: string, k: nat) returns (i: nat)
    requires AllStorable(rs, user, l) && k < |ExportAll(rs, user, l, book)|
    ensures i < |rs| && Live(rs[i], user) && ExportAll(rs, user, l, book)[k] == Object(ExportRow(rs[i].draft, l, book))
  {
    var n := |rs| - 1;
    if k < |ExportAll(rs[..n], user, l, book)| {
      i := ExportSource(rs[..n], user, l, book, k);
    } else {
      i := n;
    }
  }

  /** Previewing an export flags every row, except those whose note no longer fits with its tags spelled out: these
      carry that one error. */
  lemma ExportFlaggedExactly(rs: seq<Record>, user: nat, l: Listing, book: string, first: nat, k: nat)
    requires Tidy(l) && AllStorable(rs, user, l) && k < |ExportAll(rs, user, l, book)|
    ensures var raws := ExportAll(rs, user, l, book);
            var row := Preview(raws, l, AllPrints(rs, user, l), first)[k];
            && raws[k].Object?
            && (row.duplicate <==> FitsNote(raws[k].fields))
            && row.errors == if FitsNote(raws[k].fields) then [] else [LongExpansion]
  {
    var raws := ExportAll(rs, user, l, book);
    var i := ExportSource(rs, user, l, book, k);
    var d := rs[i].draft;
    ExportDescribes(d, l, book);
    ExportErrors(d, l, book, first + k);
    NormalizeAllAt(raws, l, first, k);
    FlaggedExactly(raws, l, rs, user, first, k);
    assert Described(raws[k].fields, l, rs, user);
  }

  // ---------- an export gives back the parts of an imported note ----------

  /** No tag opens anywhere. */
  predicate TagFree(s: string) {
    s == "" || (Opener(s) == 0 && TagFree(s[1..]))
  }

  /** A front in which the opener never starts is passed over. */
  lemma {:induction false} TagTextSkips(opener: string, a: string, rest: string, boundary: bool)
    requires forall p :: 0 <= p < |a| ==> !(opener <= a[p..] + rest)
    ensures TagText(opener, a + rest, boundary) == TagText(opener, rest,
                                                           if a == "" then boundary else a[|a| - 1] == ' ')
  {
    if a == "" {
      assert a + rest == rest;
    } else {
      assert a[0..] == a;
      assert (a + rest)[1..] == a[1..] + rest;
      forall p | 0 <= p < |a[1..]| ensures !(opener <= a[1..][p..] + rest) {
        assert a[1..][p..] == a[p + 1..];
      }
      TagTextSkips(opener, a[1..], rest, a[0] == ' ');
    }
  }

  lemma {:induction false} TagFreeAt(s: string, p: nat)
    requires p < |s| && TagFree(s)
    ensures Opener(s[p..]) == 0
  {
    if p == 0 {
      assert s[p..] == s;
    } else {
      assert s[p..] == s[1..][p - 1..];
      TagFreeAt(s[1..], p - 1);
    }
  }

  /** Tag-free text followed by a space or a bracket is passed over. */
  lemma SkipText(opener: string, a: string, rest: string, boundary: bool)
    requires opener == LEDGER || opener == SECOND
    requires TagFree(a) && (rest == "" || rest[0] == ' ' || rest[0] == ']')
    ensures TagText(opener, a + rest, boundary) == TagText(opener, rest,
                                                           if a == "" then boundary else a[|a| - 1] == ' ')
  {
    forall p | 0 <= p < |a| ensures !(opener <= a[p..] + rest) {
      TagFreeAt(a, p);
      PrefixAppend(opener, a[p..], rest);
    }
    TagTextSkips(opener, a, rest, boundary);
  }

  lemma TagFound(opener: string, name: string, rest: string)
    requires opener == LEDGER || opener == SECOND
    requires name != "" && Clean(name)
    ensures TagText(opener, Tag(opener, name) + rest, true) == Some(name)
  {
    var after := name + "]" + rest;
    OpenerOfTag(opener, after);
    ClosingOfName(name, rest);
    assert after[..|name|] == name;
    assert opener <= opener + after;
    assert Tag(opener, name) + rest == opener + after;
  }

  lemma SkipChar(opener: string, c: char, rest: string, boundary: bool)
    requires (opener == LEDGER || opener == SECOND) && c != '['
    ensures TagText(opener, [c] + rest, boundary) == TagText(opener, rest, c == ' ')
  {
    assert ([c] + rest)[1..] == rest;
    assert opener[0] == '[';
  }

  lemma OtherOpener(opener: string, other: string, p: nat, rest: string)
    requires (opener == LEDGER && other == SECOND) || (opener == SECOND && other == LEDGER)
    requires p < |other|
    ensures !(opener <= other[p..] + rest)
  {
    assert opener[0] == '[' && other[1] != opener[1];
    if p > 0 {
      assert (other[p..] + rest)[0] == other[p] && other[p] != '[';
    } else {
      assert (other[p..] + rest)[1] == other[1];
    }
  }

  lemma SkipOtherOpener(opener: string, other: string, rest: string)
    requires (opener == LEDGER && other == SECOND) || (opener == SECOND && other == LEDGER)
    ensures TagText(opener, other + rest, true) == TagText(opener, rest, false)
  {
    forall p | 0 <= p < |other| ensures !(opener <= other[p..] + rest) {
      OtherOpener(opener, other, p, rest);
    }
    TagTextSkips(opener, other, rest, true);
    assert other[|other| - 1] == ':';
  }

  lemma SkipClosed(opener: string, name: string, rest: string)
    requires opener == LEDGER || opener == SECOND
    requires name != "" && TagFree(name)
    ensures TagText(opener, name + ("]" + rest), false) == TagText(opener, rest, false)
  {
    SkipText(opener, name, "]" + rest, false);
    SkipChar(opener, ']', rest, name[|name| - 1] == ' ');
  }

  /** The other tag is passed over. */
  lemma SkipOtherTag(opener: string, other: string, name: string, rest: string)
    requires (opener == LEDGER && other == SECOND) || (opener == SECOND && other == LEDGER)
    requires name != "" && TagFree(name)
    ensures TagText(opener, Tag(other, name) + rest, true) == TagText(opener, rest, false)
  {
    SkipOtherOpener(opener, other, name + ("]" + rest));
    SkipClosed(opener, name, rest);
    assert Tag(other, name) + rest == other + (name + ("]" + rest));
  }

  function NameOf(name: string): Option<string> {
    if name == "" then None else Some(name)
  }

  lemma LastTag(second: string, boundary: bool)
    requires Clean(second) && TagFree(second)
    ensures TagText(SECOND, Tail("", second), boundary) == NameOf(second)
    ensures TagText(LEDGER, Tail("", second), boundary) == None
  {
    if second != "" {
      var after := Tag(SECOND, second) + "";
      assert Tail("", second) == [' '] + after;
      SkipChar(SECOND, ' ', after, boundary);
      SkipChar(LEDGER, ' ', after, boundary);
      TagFound(SECOND, second, "");
      SkipOtherTag(LEDGER, SECOND, second, "");
    }
  }

  /** The tags that follow a note, read one by one. */
  lemma TailTags(ledger: string, second: string, boundary: bool)
    requires Clean(ledger) && Clean(second) && TagFree(ledger) && TagFree(second)
    ensures TagText(LEDGER, Tail(ledger, second), boundary) == NameOf(ledger)
    ensures TagText(SECOND, Tail(ledger, second), boundary) == NameOf(second)
    ensures Tail(ledger, second) != "" ==>
              TagText(LEDGER, Tail(ledger, second)[1..], true) == NameOf(ledger)
              && TagText(SECOND, Tail(ledger, second)[1..], true) == NameOf(second)
  {
    LastTag(second, boundary);
    LastTag(second, false);
    if ledger != "" {
      TailSplits(ledger, second);
      TagFound(LEDGER, ledger, Tail("", second));
      SkipOtherTag(SECOND, LEDGER, ledger, Tail("", second));
    }
    if Tail(ledger, second) != "" {
      var after := Tail(ledger, second)[1..];
      assert Tail(ledger, second) == [' '] + after;
      SkipChar(LEDGER, ' ', after, boundary);
      SkipChar(SECOND, ' ', after, boundary);
    }
  }

  lemma {:induction false} TagFreeHasNoOpenTag(s: string)
    requires TagFree(s)
    ensures !HasOpenTag(s)
  {
    if s != "" { TagFreeHasNoOpenTag(s[1..]); }
  }

  /** Searching the whole note comes down to searching its tags. */
  lemma SearchTail(opener: string, note: string, ledger: string, second: string)
    requires opener == LEDGER || opener == SECOND
    requires Stripped(note) && TagFree(note)
    ensures var tail := Tail(ledger, second);
            TagText(opener, Expand(note, ledger, second), true) ==
            if note == "" && tail != "" then TagText(opener, tail[1..], true)
            else TagText(opener, tail, note == "" || note[|note| - 1] == ' ')
  {
    ExpandIsNoteAndTail(note, ledger, second);
    SkipText(opener, note, Tail(ledger, second), true);
  }

  /** Exporting the stored note of an imported row gives back its note, book and second-level category, for texts free
      of the tag syntax; so importing the export stores the same note again. */
  lemma ExportReadsParts(note: string, ledger: string, second: string)
    requires Stripped(note) && TagFree(note)
    requires Clean(ledger) && Clean(second) && TagFree(ledger) && TagFree(second)
    ensures var e := Expand(note, ledger, second);
            TagText(LEDGER, e, true) == NameOf(ledger) && TagText(SECOND, e, true) == NameOf(second) && Untag(e) == note
  {
    TailTags(ledger, second, note == "" || note[|note| - 1] == ' ');
    SearchTail(LEDGER, note, ledger, second);
    SearchTail(SECOND, note, ledger, second);
    UntagTagFree(note, ledger, second);
  }

  lemma UntagTagFree(note: string, ledger: string, second: string)
    requires Stripped(note) && TagFree(note) && Clean(ledger) && Clean(second)
    ensures Untag(Expand(note, ledger, second)) == note
  {
    TagFreeHasNoOpenTag(note);
    if ledger != "" || second != "" {
      UntagExpand(note, ledger, second);
    } else {
      ExpandIsNoteAndTail(note, "", "");
      assert Expand(note, "", "") == note + "" == note;
      RemoveTagsKeeps(note, "");
    }
  }

  /** So a record imported with a book of its own is always flagged when its export is previewed. */
  lemma ImportedWithBookFits(d: Draft, l: Listing, book: string, note: string, ledger: string, second: string)
    requires Tidy(l) && Storable(d, l)
    requires d.note == Some(Expand(note, ledger, second)) && ledger != ""
    requires Stripped(note) && Stripped(ledger) && Stripped(second) && TagFree(note)
    requires Clean(ledger) && Clean(second) && TagFree(ledger) && TagFree(second)
    ensures FitsNote(ExportRow(d, l, book))
  {
    ExportReadsParts(note, ledger, second);
    ExpandIsNoteAndTail(note, ledger, second);
    assert Expand(note, ledger, second) != "" by { assert |Tail(ledger, second)| > 2; }
  }
}
