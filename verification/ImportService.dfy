/** The import service over its tables. */
module ImportService {
  import opened Wrappers
  import opened Records
  import opened ImportRows
  import opened ImportConfirm
  import opened ImportRuns
  import opened ImportEffects

  class ImportDb {
    const user: nat
    const table: RecordTable
    var listing: Listing
    var batches: seq<Batch>

    constructor (user: nat, table: RecordTable, listing: Listing)
      ensures this.user == user && this.table == table && this.listing == listing && batches == []
    {
      this.user, this.table, this.listing, batches := user, table, listing, [];
    }

    ghost function View(): Tables
      reads this, table
    {
      Tables(listing, table.rows)
    }

    /** `preview_import`: `synced` is what bringing the default categories and methods up to date, first thing in the
        same transaction, makes of the listing. When a row raises, nothing is left of either. */
    method PreviewImport(raws: seq<Raw>, first: nat, synced: Listing) returns (id: Option<nat>)
      requires Extends(listing, synced)
      modifies this
      ensures table.rows == old(table.rows)
      ensures if AnyRaises(raws) then id == None && listing == old(listing) && batches == old(batches)
              else id == Some(|old(batches)|) && listing == synced
                   && batches == old(batches)
                       + [Batch(Preview(raws, synced, AllPrints(table.rows, user, synced), first), None)]
      ensures id.None? <==> EndsPreview(raws)
      ensures id.Some? ==> PreviewedAs(raws, synced, table.rows, user, first, batches[id.value].rows)
    {
      AnyRaisesExactly(raws);
      PreviewExactly(raws, synced, table.rows, user, first);
      var before := listing;
      listing := synced;
      var rows := NormalizeRows(raws, first, table.rows, user, listing);
      if rows.None? {
        listing := before;
        return None;
      }
      id := Some(|batches|);
      batches := batches + [Batch(rows.value, None)];
    }

    /** `_get_or_create_import_category`. */
    method CategoryFor(kind: Kind, name: string) returns (id: nat)
      modifies this`listing
      ensures (listing, id) == GetOrCreateCategory(old(listing), kind, name)
      ensures CategorySettled(old(listing), kind, name, listing, id)
    {
      CategoryExactly(listing, kind, name);
      var found := CategoryNamed(listing.categories, kind, name);
      if found.Some? {
        id := found.value;
        if !listing.categories[id].enabled {
          listing := listing.(categories := listing.categories[id := listing.categories[id].(enabled := true)]);
        }
        assert old(listing).categories[id := old(listing).categories[id].(enabled := true)] == listing.categories;
      } else {
        id := |listing.categories|;
        listing := listing.(categories := listing.categories + [CategoryRow(kind, name, true)]);
      }
    }

    /** `_get_or_create_import_method`. */
    method MethodFor(name: string) returns (id: nat)
      modifies this`listing
      ensures (listing, id) == GetOrCreateMethod(old(listing), name)
      ensures MethodSettled(old(listing), name, listing, id)
    {
      MethodExactly(listing, name);
      var found := MethodNamed(listing.methods, name);
      if found.Some? {
        id := found.value;
        if !listing.methods[id].enabled {
          listing := listing.(methods := listing.methods[id := listing.methods[id].(enabled := true)]);
        }
        assert old(listing).methods[id := old(listing).methods[id].(enabled := true)] == listing.methods;
      } else {
        id := |listing.methods|;
        listing := listing.(methods := listing.methods + [MethodRow(name, true)]);
      }
    }

    /** One pass of the loop: settle category and payment method, then insert. */
    method ConfirmOne(batch: nat, row: Row) returns (r: Result<nat, ConfirmError>)
      modifies this`listing, table
      ensures match ConfirmRow(old(View()), user, batch, row)
              case Ok((t, id)) => r == Ok(id) && View() == t
              case Err(e) => r == Err(e)
    {
      if !ValidRow(row) {
        return Err(InvalidRow);
      }
      var category := row.categoryId.GetOr(0);
      if row.categoryId.None? {
        category := CategoryFor(row.kind.value, row.categoryName);
      }
      var payment := row.methodId;
      if row.methodId.None? && row.methodName != "" {
        var id := MethodFor(row.methodName);
        payment := Some(id);
      }
      var draft := DraftOf(row, category, payment);
      var created := table.CreateRecord(user, Some(ImportKey(batch, row.number)), draft, FromImport, Usable(listing));
      if created.Err? {
        return Err(Refused(created.error));
      }
      return Ok(created.value);
    }

    /** The loop over the rows. */
    method ConfirmAll(batch: nat, rows: seq<Row>, skip: bool) returns (r: Result<seq<nat>, ConfirmError>, skipped: nat)
      requires AnyDuplicates(rows) ==> skip
      modifies this`listing, table
      ensures match ConfirmRows(old(View()), user, batch, rows)
              case Ok((t, ids)) => r == Ok(ids) && View() == t && skipped + |ids| == |rows|
              case Err(e) => r == Err(e)
    {
      var ids: seq<nat> := [];
      skipped := 0;
      var i := 0;
      while i < |rows|
        invariant 0 <= i <= |rows|
        invariant ConfirmRows(old(View()), user, batch, rows[..i]) == Ok((View(), ids))
        invariant skipped + |ids| == i
      {
        ConfirmNext(old(View()), user, batch, rows, i);
        if rows[i].duplicate && skip {
          skipped := skipped + 1;
        } else {
          var id := ConfirmOne(batch, rows[i]);
          if id.Err? {
            ConfirmErrSticks(old(View()), user, batch, rows, i + 1);
            return Err(id.error), skipped;
          }
          ids := ids + [id.value];
        }
        i := i + 1;
      }
      assert rows[..i] == rows;
      return Ok(ids), skipped;
    }

    /** The locked half of `confirm_import`: the whole batch in one transaction, rolled back when a row is refused. */
    method ConfirmLocked(batch: nat, skip: bool) returns (r: Result<Receipt, ConfirmError>)
      requires batch < |batches| && (AnyDuplicates(batches[batch].rows) ==> skip)
      modifies this, table
      ensures var rows := old(batches)[batch].rows;
              match ConfirmRows(old(View()), user, batch, rows)
              case Ok((t, ids)) =>
                |ids| <= |rows| && r == Ok(ReceiptOf(rows, ids)) && View() == t
                && batches == old(batches)[batch := Batch(rows, Some(ReceiptOf(rows, ids)))]
              case Err(e) => r == Err(e) && View() == old(View()) && batches == old(batches)
    {
      var rows := batches[batch].rows;
      var (listing0, rows0) := (listing, table.rows);
      var ids, skipped := ConfirmAll(batch, rows, skip);
      if ids.Err? {
        listing, table.rows := listing0, rows0;
        return Err(ids.error);
      }
      ImportedCount(rows, old(View()), user, batch);
      var receipt := Receipt(|rows|, |ids.value|, skipped, ids.value);
      batches := batches[batch := Batch(rows, Some(receipt))];
      return Ok(receipt);
    }

    /** `confirm_import`: the guard reads the batch, a confirmed one answers at once, the rest runs under the lock. */
    method ConfirmBatch(batch: nat, skip: bool) returns (r: Result<Receipt, ConfirmError>)
      modifies this, table
      ensures match Guard(old(batches), batch, skip)
              case Err(e) => r == Err(e) && View() == old(View()) && batches == old(batches)
              case Ok(Some(receipt)) => r == Ok(receipt) && View() == old(View()) && batches == old(batches)
              case Ok(None) =>
                match ConfirmRows(old(View()), user, batch, old(batches)[batch].rows)
                case Ok((t, ids)) =>
                  |ids| <= |old(batches)[batch].rows| && r == Ok(ReceiptOf(old(batches)[batch].rows, ids))
                  && View() == t
                  && batches == old(batches)[batch := Batch(old(batches)[batch].rows, Some(r.value))]
                case Err(e) => r == Err(e) && View() == old(View()) && batches == old(batches)
    {
      if batch >= |batches| {
        return Err(NoBatch);
      }
      if batches[batch].receipt.Some? {
        return Ok(batches[batch].receipt.value);
      }
      if AnyErrors(batches[batch].rows) {
        return Err(HasErrors);
      }
      if AnyDuplicates(batches[batch].rows) && !skip {
        return Err(HasDuplicates);
      }
      r := ConfirmLocked(batch, skip);
    }

    /** Each refusal read off the batch's rows; a batch nobody confirmed that goes on is imported, one record for each
        row without flag, when its keys are unused and what those rows settled on may still be used. */
    method ConfirmImport(batch: nat, skip: bool) returns (r: Result<Receipt, ConfirmError>)
      modifies this, table
      ensures exists g :: GuardedAs(old(batches), batch, skip, g)
                          && (g.Err? ==> r == Err(g.error)) && (g.Ok? && g.value.Some? ==> r == Ok(g.value.value))
                          && (g != Ok(None) || r.Err? ==> View() == old(View()) && batches == old(batches))
                          && (g == Ok(None) && Fresh(old(View()), user, batch, old(batches)[batch].rows) ==>
                                && r.Ok?
                                && ImportedAs(old(View()), user, batch, old(batches)[batch].rows, View(), r.value)
                                && batches == old(batches)[batch := old(batches)[batch].(receipt := Some(r.value))])
    {
      ghost var (t, bs) := (View(), batches);
      ghost var g := Guard(bs, batch, skip);
      GuardExactly(bs, batch, skip);
      if g == Ok(None) && Fresh(t, user, batch, bs[batch].rows) {
        CleanBatchIsImported(t, user, batch, bs[batch].rows);
      }
      r := ConfirmBatch(batch, skip);
    }
  }

  lemma ConfirmNext(t: Tables, user: nat, batch: nat, rows: seq<Row>, i: nat)
    requires i < |rows| && ConfirmRows(t, user, batch, rows[..i]).Ok?
    ensures var (t', ids) := ConfirmRows(t, user, batch, rows[..i]).value;
            ConfirmRows(t, user, batch, rows[..i + 1]) ==
            if rows[i].duplicate then Ok((t', ids))
            else
              match ConfirmRow(t', user, batch, rows[i])
              case Err(e) => Err(e)
              case Ok((t'', id)) => Ok((t'', ids + [id]))
  {
    assert rows[..i + 1][..i] == rows[..i];
  }

  lemma ConfirmErrNext(t: Tables, user: nat, batch: nat, rows: seq<Row>)
    requires rows != [] && ConfirmRows(t, user, batch, rows[..|rows| - 1]).Err?
    ensures ConfirmRows(t, user, batch, rows) == ConfirmRows(t, user, batch, rows[..|rows| - 1])
  {
  }

  lemma {:induction false} ConfirmErrSticks(t: Tables, user: nat, batch: nat, rows: seq<Row>, i: nat)
    requires i <= |rows| && ConfirmRows(t, user, batch, rows[..i]).Err?
    ensures ConfirmRows(t, user, batch, rows) == ConfirmRows(t, user, batch, rows[..i])
  {
    if i == |rows| {
      assert rows[..i] == rows;
    } else {
      var front := rows[..|rows| - 1];
      assert front[..i] == rows[..i];
      ConfirmErrSticks(t, user, batch, front, i);
      ConfirmErrNext(t, user, batch, rows);
    }
  }
}
