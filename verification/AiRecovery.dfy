/** The recovery scan reads the stored text; the claim step reads instants. They pick the same requests. */
module AiRecovery {
  import opened Wrappers
  import opened AiRequests
  import opened AiEffects
  import IsoTime

  /** The columns the scan looks at: the payload's entries as stored text. */
  datatype Row = Row(id: nat, status: Option<Status>, retryText: Option<string>, leaseText: Option<string>)

  ghost predicate Writes(text: Option<string>, micros: Option<int>) {
    match text
    case None => micros.None?
    case Some(s) => exists t :: IsoTime.Valid(t) && s == IsoTime.Iso(t) && micros == Some(IsoTime.Micros(t))
  }

  /** The row holds this payload, its instants written as the service writes them. */
  ghost predicate Describes(row: Row, p: Payload) {
    row.status == p.status && Writes(row.retryText, p.retryAfter) && Writes(row.leaseText, p.leaseExpires)
  }

  /** The scan's condition, on the text columns of a row. */
  predicate ScanSelectsRow(row: Row, nowText: string) {
    || (row.status == Some(Queued) && IsoTime.ScanSelects(row.retryText, nowText))
    || (row.status == Some(Processing) && IsoTime.ScanSelects(row.leaseText, nowText))
  }

  lemma TextIsDue(text: Option<string>, micros: Option<int>, now: IsoTime.DateTime)
    requires IsoTime.Valid(now) && Writes(text, micros)
    ensures IsoTime.ScanSelects(text, IsoTime.Iso(now)) <==> Due(micros, IsoTime.Micros(now))
  {
    if text.Some? {
      var t :| IsoTime.Valid(t) && text.value == IsoTime.Iso(t) && micros == Some(IsoTime.Micros(t));
      IsoTime.IsoOrderIsTimeOrder(t, now);
    }
  }

  /** For every payload and every instant, the rows the scan dispatches are exactly the rows a delivery takes over. */
  lemma ScanSelectsExactlyClaimable(row: Row, p: Payload, now: IsoTime.DateTime)
    requires IsoTime.Valid(now) && Describes(row, p)
    ensures ScanSelectsRow(row, IsoTime.Iso(now)) <==> TakeoverDue(p, IsoTime.Micros(now))
  {
    TextIsDue(row.retryText, p.retryAfter, now);
    TextIsDue(row.leaseText, p.leaseExpires, now);
  }

  /** The requests a delivery would take over, in the order of the table. */
  function ClaimableIds(rows: seq<Row>, ps: seq<Payload>, now: int): seq<nat>
    requires |rows| == |ps|
  {
    if rows == [] then []
    else
      var n := |rows| - 1;
      ClaimableIds(rows[..n], ps[..n], now) + if TakeoverDue(ps[n], now) then [rows[n].id] else []
  }

  lemma {:induction false} FirstRowsFirst(rows: seq<Row>, ps: seq<Payload>, now: int, i: nat)
    requires |rows| == |ps| && i <= |rows|
    ensures ClaimableIds(rows[..i], ps[..i], now) <= ClaimableIds(rows, ps, now)
  {
    var n := |rows| - 1;
    if i == |rows| {
      assert rows[..i] == rows && ps[..i] == ps;
    } else {
      FirstRowsFirst(rows[..n], ps[..n], now, i);
      assert rows[..n][..i] == rows[..i] && ps[..n][..i] == ps[..i];
    }
  }

  /** One more row of the scan. */
  lemma ScannedRow(rows: seq<Row>, ps: seq<Payload>, now: IsoTime.DateTime, i: nat)
    requires IsoTime.Valid(now) && |ps| == |rows| && i < |rows| && Describes(rows[i], ps[i])
    ensures ClaimableIds(rows[..i + 1], ps[..i + 1], IsoTime.Micros(now)) ==
            ClaimableIds(rows[..i], ps[..i], IsoTime.Micros(now)) +
            if ScanSelectsRow(rows[i], IsoTime.Iso(now)) then [rows[i].id] else []
  {
    assert rows[..i + 1][..i] == rows[..i] && ps[..i + 1][..i] == ps[..i];
    ScanSelectsExactlyClaimable(rows[i], ps[i], now);
  }

  /** Stopping at the limit, or at the end. */
  lemma ScanStops(rows: seq<Row>, ps: seq<Payload>, now: int, i: nat, bound: nat)
    requires |ps| == |rows| && i <= |rows| && |ClaimableIds(rows[..i], ps[..i], now)| <= bound
    requires i == |rows| || |ClaimableIds(rows[..i], ps[..i], now)| == bound
    ensures var all := ClaimableIds(rows, ps, now);
            ClaimableIds(rows[..i], ps[..i], now) == if |all| <= bound then all else all[..bound]
  {
    FirstRowsFirst(rows, ps, now, i);
    if i == |rows| { assert rows[..i] == rows && ps[..i] == ps; }
  }

  /** The recovery scan over rows that come in its order, by update time and id: it compares texts, and returns the
      first requests that a delivery would take over now, up to the limit, leaving none of them out. */
  method Recover(rows: seq<Row>, ghost ps: seq<Payload>, now: IsoTime.DateTime, limit: int) returns (ids: seq<nat>)
    requires IsoTime.Valid(now) && |ps| == |rows| && forall k :: 0 <= k < |rows| ==> Describes(rows[k], ps[k])
    ensures var all := ClaimableIds(rows, ps, IsoTime.Micros(now));
            var bound := if limit < 1 then 1 else if limit > 1000 then 1000 else limit;
            ids == if |all| <= bound then all else all[..bound]
  {
    var bound := if limit < 1 then 1 else if limit > 1000 then 1000 else limit;
    var nowText := IsoTime.Iso(now);
    ids := [];
    var i := 0;
    while i < |rows| && |ids| < bound
      invariant 0 <= i <= |rows| && |ids| <= bound
      invariant ids == ClaimableIds(rows[..i], ps[..i], IsoTime.Micros(now))
    {
      ScannedRow(rows, ps, now, i);
      if ScanSelectsRow(rows[i], nowText) {
        ids := ids + [rows[i].id];
      }
      i := i + 1;
    }
    ScanStops(rows, ps, IsoTime.Micros(now), i, bound);
  }
}
