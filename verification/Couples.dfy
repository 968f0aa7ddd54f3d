/** Couple matching: invite, join, dissolve, as serialised service calls over the couple rows. */
module Couples {
  import opened Wrappers

  datatype Status = Waiting | Matched | Dissolved

  datatype Couple = Couple(user1: nat, user2: Option<nat>, code: string, status: Status, deleted: bool)

  const CODE_TRIES: nat := 5

  predicate Member(c: Couple, user: nat) {
    !c.deleted && (c.user1 == user || c.user2 == Some(user))
  }

  /** `get_couple_by_user`. */
  function FindByUser(cs: seq<Couple>, user: nat): (found: Option<nat>)
    ensures found.Some? ==> found.value < |cs| && Member(cs[found.value], user)
    ensures found.None? ==> forall i :: 0 <= i < |cs| ==> !Member(cs[i], user)
  {
    if cs == [] then None
    else
      var n := |cs| - 1;
      match FindByUser(cs[..n], user)
      case Some(i) => Some(i)
      case None => if Member(cs[n], user) then Some(n) else None
  }

  /** The waiting couple that an invite code opens. */
  function FindByCode(cs: seq<Couple>, code: string): (found: Option<nat>)
    ensures found.Some? ==>
              && found.value < |cs| && !cs[found.value].deleted
              && cs[found.value].status == Waiting && cs[found.value].code == code
    ensures found.None? ==> forall i :: 0 <= i < |cs| ==> cs[i].deleted || cs[i].status != Waiting || cs[i].code != code
  {
    if cs == [] then None
    else
      var n := |cs| - 1;
      match FindByCode(cs[..n], code)
      case Some(i) => Some(i)
      case None => if !cs[n].deleted && cs[n].status == Waiting && cs[n].code == code then Some(n) else None
  }

  predicate CodeTaken(cs: seq<Couple>, code: string) {
    exists i :: 0 <= i < |cs| && cs[i].code == code
  }

  /** The first of the drawn codes that no row holds yet, deleted rows included. */
  function FirstFree(cs: seq<Couple>, codes: seq<string>): Option<string> {
    if codes == [] then None
    else
      var n := |codes| - 1;
      var front := FirstFree(cs, codes[..n]);
      if front.Some? then front else if CodeTaken(cs, codes[n]) then None else Some(codes[n])
  }

  datatype Answer = AlreadyMatched | NoFreeCode | UnknownCode | OwnCode | CodeUsed | NotFound | NotAllowed
      | Done(id: nat)

  function Create(cs: seq<Couple>, user: nat, codes: seq<string>): (seq<Couple>, Answer) {
    var existing := FindByUser(cs, user);
    if existing.Some? && cs[existing.value].status == Matched then (cs, AlreadyMatched)
    else if existing.Some? && cs[existing.value].status == Waiting then (cs, Done(existing.value))
    else
      var tried := if |codes| > CODE_TRIES then codes[..CODE_TRIES] else codes;
      match FirstFree(cs, tried)
      case None => (cs, NoFreeCode)
      case Some(code) => (cs + [Couple(user, None, code, Waiting, false)], Done(|cs|))
  }

  function Join(cs: seq<Couple>, user: nat, code: string): (seq<Couple>, Answer) {
    var existing := FindByUser(cs, user);
    if existing.Some? && cs[existing.value].status == Matched then (cs, AlreadyMatched)
    else
      match FindByCode(cs, code)
      case None => (cs, UnknownCode)
      case Some(i) =>
        if cs[i].user1 == user then (cs, OwnCode)
        else if cs[i].user2.Some? && cs[i].user2.value != user then (cs, CodeUsed)
        else
          var joined := cs[i := cs[i].(user2 := Some(user), status := Matched)];
          (if existing.Some? && joined[existing.value].status == Waiting
           then joined[existing.value := joined[existing.value].(deleted := true)] else joined,
           Done(i))
  }

  function Dissolve(cs: seq<Couple>, id: nat, user: nat): (seq<Couple>, Answer) {
    if id >= |cs| || cs[id].deleted then (cs, NotFound)
    else if cs[id].user1 != user && cs[id].user2 != Some(user) then (cs, NotAllowed)
    else (cs[id := cs[id].(status := Dissolved, deleted := true)], Done(id))
  }

  /** `get_partner_id`. */
  function Partner(cs: seq<Couple>, user: nat): Option<nat> {
    match FindByUser(cs, user)
    case None => None
    case Some(i) =>
      if cs[i].status != Matched then None
      else if cs[i].user1 == user then cs[i].user2
      else Some(cs[i].user1)
  }

  datatype Action = DoCreate(user: nat, codes: seq<string>) | DoJoin(user: nat, code: string)
      | DoDissolve(id: nat, user: nat)

  function Step(cs: seq<Couple>, a: Action): seq<Couple> {
    match a
    case DoCreate(user, codes) => Create(cs, user, codes).0
    case DoJoin(user, code) => Join(cs, user, code).0
    case DoDissolve(id, user) => Dissolve(cs, id, user).0
  }

  function Run(actions: seq<Action>): seq<Couple> {
    if actions == [] then [] else Step(Run(actions[..|actions| - 1]), actions[|actions| - 1])
  }

  /** Rows that are not deleted wait with one user or are matched with two different ones, share no user, and every
      code was handed out once. */
  ghost predicate Inv(cs: seq<Couple>) {
    && (forall i :: 0 <= i < |cs| && !cs[i].deleted ==>
          match cs[i].status
          case Waiting => cs[i].user2.None?
          case Matched => cs[i].user2.Some? && cs[i].user2.value != cs[i].user1
          case Dissolved => false)
    && (forall i, j, user :: 0 <= i < |cs| && 0 <= j < |cs| && Member(cs[i], user) && Member(cs[j], user) ==> i == j)
    && (forall i, j :: 0 <= i < j < |cs| ==> cs[i].code != cs[j].code)
  }

  lemma {:induction false} FirstFreeIsFree(cs: seq<Couple>, codes: seq<string>)
    ensures FirstFree(cs, codes).Some? ==>
              FirstFree(cs, codes).value in codes && !CodeTaken(cs, FirstFree(cs, codes).value)
  {
    if codes != [] {
      FirstFreeIsFree(cs, codes[..|codes| - 1]);
    }
  }

  lemma CreateKeeps(cs: seq<Couple>, user: nat, codes: seq<string>)
    requires Inv(cs)
    ensures Inv(Create(cs, user, codes).0)
  {
    FirstFreeIsFree(cs, if |codes| > CODE_TRIES then codes[..CODE_TRIES] else codes);
  }

  lemma JoinKeeps(cs: seq<Couple>, user: nat, code: string)
    requires Inv(cs)
    ensures Inv(Join(cs, user, code).0)
  {
    var (r, answer) := Join(cs, user, code);
    if answer.Done? {
      var i := answer.id;
      forall j, u | 0 <= j < |r| && Member(r[j], u)
        ensures (j != i && Member(cs[j], u) && u != user) || (j == i && (u == user || Member(cs[i], u)))
      {
      }
    }
  }

  lemma StepKeeps(cs: seq<Couple>, a: Action)
    requires Inv(cs)
    ensures Inv(Step(cs, a))
  {
    match a
    case DoCreate(user, codes) => CreateKeeps(cs, user, codes);
    case DoJoin(user, code) => JoinKeeps(cs, user, code);
    case DoDissolve(id, user) =>
  }

  lemma {:induction false} RunKeeps(actions: seq<Action>)
    ensures Inv(Run(actions))
  {
    if actions != [] {
      RunKeeps(actions[..|actions| - 1]);
      StepKeeps(Run(actions[..|actions| - 1]), actions[|actions| - 1]);
    }
  }

  /** Over every run each user is in at most one couple that is not deleted, and "partner of" is symmetric and never
      reflexive. */
  lemma PartnerIsAnInvolution(actions: seq<Action>, user: nat, other: nat)
    ensures var cs := Run(actions);
            && (forall i, j :: 0 <= i < |cs| && 0 <= j < |cs| && Member(cs[i], user) && Member(cs[j], user) ==> i == j)
            && (Partner(cs, user) == Some(other) <==> Partner(cs, other) == Some(user))
            && Partner(cs, user) != Some(user)
  {
    RunKeeps(actions);
    var cs := Run(actions);
    PartnerBack(cs, user);
    PartnerBack(cs, other);
  }

  lemma PartnerBack(cs: seq<Couple>, user: nat)
    requires Inv(cs)
    ensures Partner(cs, user).Some? ==>
              Partner(cs, user).value != user && Partner(cs, Partner(cs, user).value) == Some(user)
  {
    var p := Partner(cs, user);
    if p.Some? {
      var i := FindByUser(cs, user).value;
      assert Member(cs[i], p.value);
      var j := FindByUser(cs, p.value);
      assert j == Some(i);
    }
  }

  /** Joining matches exactly the two users of the invite, who both had no partner before. */
  lemma JoinMatches(cs: seq<Couple>, user: nat, code: string)
    requires Inv(cs) && Join(cs, user, code).1.Done?
    ensures var (r, answer) := Join(cs, user, code);
            && Partner(r, user) == Some(cs[answer.id].user1) && Partner(r, cs[answer.id].user1) == Some(user)
            && Partner(cs, user).None? && Partner(cs, cs[answer.id].user1).None?
  {
    JoinKeeps(cs, user, code);
    var (r, answer) := Join(cs, user, code);
    var i := answer.id;
    assert Member(r[i], user) && Member(r[i], r[i].user1);
    assert FindByUser(r, user) == Some(i) && FindByUser(r, r[i].user1) == Some(i);
    assert Member(cs[i], cs[i].user1) && FindByUser(cs, cs[i].user1) == Some(i);
  }

  lemma Membership(cs: seq<Couple>, i: nat, user: nat)
    requires Inv(cs) && i < |cs| && Member(cs[i], user)
    ensures FindByUser(cs, user) == Some(i)
  {
  }

  /** ... and changes nobody else's partner. */
  lemma JoinLeavesOthers(cs: seq<Couple>, user: nat, code: string, other: nat)
    requires Inv(cs) && Join(cs, user, code).1.Done?
    requires other != user && other != cs[Join(cs, user, code).1.id].user1
    ensures Partner(Join(cs, user, code).0, other) == Partner(cs, other)
  {
    JoinKeeps(cs, user, code);
    var (r, answer) := Join(cs, user, code);
    forall j | 0 <= j < |cs|
      ensures Member(r[j], other) == Member(cs[j], other) && (Member(cs[j], other) ==> r[j] == cs[j])
    {
    }
    if j :| 0 <= j < |cs| && Member(cs[j], other) {
      Membership(cs, j, other);
      Membership(r, j, other);
    }
  }

  /** Dissolving frees both, and each may be invited again. */
  lemma DissolveFrees(cs: seq<Couple>, id: nat, user: nat)
    requires Inv(cs) && Dissolve(cs, id, user).1.Done?
    ensures var r := Dissolve(cs, id, user).0;
            FindByUser(r, cs[id].user1).None? && (cs[id].user2.Some? ==> FindByUser(r, cs[id].user2.value).None?)
  {
    var r := Dissolve(cs, id, user).0;
    forall u, i | (u == cs[id].user1 || cs[id].user2 == Some(u)) && 0 <= i < |r| ensures !Member(r[i], u) {
      assert Member(cs[id], u);
      assert i != id ==> r[i] == cs[i];
    }
  }

  /** ... and leaves every other user's partner as it was. */
  lemma DissolveLeavesOthers(cs: seq<Couple>, id: nat, user: nat, other: nat)
    requires Inv(cs) && Dissolve(cs, id, user).1.Done? && !Member(cs[id], other)
    ensures Partner(Dissolve(cs, id, user).0, other) == Partner(cs, other)
  {
    StepKeeps(cs, DoDissolve(id, user));
    var r := Dissolve(cs, id, user).0;
    forall j | 0 <= j < |cs|
      ensures Member(r[j], other) == Member(cs[j], other) && (Member(cs[j], other) ==> r[j] == cs[j])
    {
    }
    if j :| 0 <= j < |cs| && Member(cs[j], other) {
      Membership(cs, j, other);
      Membership(r, j, other);
    }
  }

  /** Creating an invite leaves its user waiting, alone in the couple, and changes nobody's partner. */
  lemma CreateInvites(cs: seq<Couple>, user: nat, codes: seq<string>, other: nat)
    requires Inv(cs)
    ensures var (r, answer) := Create(cs, user, codes);
            && Partner(r, other) == Partner(cs, other)
            && (answer.Done? ==> answer.id < |r| && r[answer.id].user1 == user && r[answer.id].user2.None?
                                 && r[answer.id].status == Waiting && !r[answer.id].deleted
                                 && FindByUser(r, user) == Some(answer.id))
            && (answer == AlreadyMatched <==> Partner(cs, user).Some?)
  {
    CreateKeeps(cs, user, codes);
    var (r, answer) := Create(cs, user, codes);
    if |r| > |cs| {
      assert r[..|cs|] == cs;
      assert FindByUser(r, other) == if FindByUser(cs, other).Some? then FindByUser(cs, other)
                                     else if other == user then Some(|cs|) else None;
    }
    if answer.Done? { Membership(r, answer.id, user); }
  }

  lemma JoinInto(cs: seq<Couple>, user: nat, code: string)
    requires Inv(cs)
    ensures var (r, answer) := Join(cs, user, code);
            && Inv(r)
            && (answer.Done? ==>
                  && answer.id < |cs| && cs[answer.id].code == code
                  && (var inviter := cs[answer.id].user1;
                      && Partner(r, user) == Some(inviter) && Partner(r, inviter) == Some(user)
                      && Partner(cs, user).None? && Partner(cs, inviter).None?
                      && forall other :: other != user && other != inviter ==> Partner(r, other) == Partner(cs, other)))
  {
    JoinKeeps(cs, user, code);
    var (r, answer) := Join(cs, user, code);
    if answer.Done? {
      JoinMatches(cs, user, code);
      forall other | other != user && other != cs[answer.id].user1 ensures Partner(r, other) == Partner(cs, other) {
        JoinLeavesOthers(cs, user, code, other);
      }
    }
  }

  lemma DissolveInto(cs: seq<Couple>, id: nat, user: nat)
    requires Inv(cs)
    ensures var (r, answer) := Dissolve(cs, id, user);
            && Inv(r)
            && (answer.Done? ==>
                  && id < |cs| && Member(cs[id], user)
                  && forall other :: if Member(cs[id], other) then FindByUser(r, other).None?
                                     else Partner(r, other) == Partner(cs, other))
  {
    StepKeeps(cs, DoDissolve(id, user));
    var (r, answer) := Dissolve(cs, id, user);
    if answer.Done? {
      DissolveFrees(cs, id, user);
      forall other | !Member(cs[id], other) ensures Partner(r, other) == Partner(cs, other) {
        DissolveLeavesOthers(cs, id, user, other);
      }
    }
  }

  // ---------- every answer, read off the rows ----------

  /** The row's user, as its inviter or its guest, and the row is not deleted. */
  predicate Holds(c: Couple, user: nat, status: Status) {
    !c.deleted && c.status == status && (c.user1 == user || c.user2 == Some(user))
  }

  predicate Invites(c: Couple, code: string) {
    !c.deleted && c.status == Waiting && c.code == code
  }

  /** Only the first five drawn codes count, and this is the first of them that no row carries. */
  ghost predicate FirstUnused(cs: seq<Couple>, codes: seq<string>, k: int) {
    && 0 <= k < |codes| && k < 5 && (forall i :: 0 <= i < |cs| ==> cs[i].code != codes[k])
    && forall j :: 0 <= j < k ==> exists i :: 0 <= i < |cs| && cs[i].code == codes[j]
  }

  /** A matched user is refused, a waiting one gets the couple they wait in, and anybody else one new couple under the
      first unused code, if there is one. */
  ghost predicate CreatedAs(cs: seq<Couple>, user: nat, codes: seq<string>, r: seq<Couple>, answer: Answer) {
    var (matched, waiting) := (exists i :: 0 <= i < |cs| && Holds(cs[i], user, Matched),
                               exists i :: 0 <= i < |cs| && Holds(cs[i], user, Waiting));
    && (answer == AlreadyMatched <==> matched)
    && (answer == NoFreeCode <==> !matched && !waiting && forall k :: !FirstUnused(cs, codes, k))
    && (answer.Done? <==> !matched && (waiting || exists k :: FirstUnused(cs, codes, k)))
    && (if answer.Done? && !waiting
        then answer.id == |cs| && exists k :: FirstUnused(cs, codes, k)
                                              && r == cs + [Couple(user, None, codes[k], Waiting, false)]
        else r == cs)
    && (answer.Done? && waiting ==> answer.id < |cs| && Holds(cs[answer.id], user, Waiting))
  }

  /** A matched user is refused, and so is a code that opens no waiting couple or only the user's own. Anybody else is
      matched with the couple's user, and the couple they waited in is withdrawn. */
  ghost predicate JoinedAs(cs: seq<Couple>, user: nat, code: string, r: seq<Couple>, answer: Answer) {
    var matched := exists i :: 0 <= i < |cs| && Holds(cs[i], user, Matched);
    && (answer == AlreadyMatched <==> matched)
    && (answer == UnknownCode <==> !matched && forall i :: 0 <= i < |cs| ==> !Invites(cs[i], code))
    && (answer == OwnCode <==> !matched && exists i :: 0 <= i < |cs| && Invites(cs[i], code) && cs[i].user1 == user)
    && (answer.Done? <==> !matched && exists i :: 0 <= i < |cs| && Invites(cs[i], code) && cs[i].user1 != user)
    && (!answer.Done? ==> r == cs)
    && (answer.Done? ==>
          && |r| == |cs| && answer.id < |cs| && Invites(cs[answer.id], code) && cs[answer.id].user1 != user
          && r[answer.id] == cs[answer.id].(user2 := Some(user), status := Matched)
          && forall i :: 0 <= i < |cs| && i != answer.id ==>
               r[i] == if Holds(cs[i], user, Waiting) then cs[i].(deleted := true) else cs[i])
  }

  /** Only one of the two can dissolve a couple, and only once; then this one row is dissolved and deleted. */
  ghost predicate DissolvedAs(cs: seq<Couple>, id: nat, user: nat, r: seq<Couple>, answer: Answer) {
    && (answer == NotFound <==> id >= |cs| || cs[id].deleted)
    && (answer == NotAllowed <==> id < |cs| && !cs[id].deleted && cs[id].user1 != user && cs[id].user2 != Some(user))
    && (answer.Done? <==> id < |cs| && !cs[id].deleted && (cs[id].user1 == user || cs[id].user2 == Some(user)))
    && (if answer.Done? then answer.id == id && r == cs[id := cs[id].(status := Dissolved, deleted := true)]
        else r == cs)
  }

  lemma StatusOfUser(cs: seq<Couple>, user: nat, status: Status)
    requires Inv(cs)
    ensures (exists i :: 0 <= i < |cs| && Holds(cs[i], user, status))
            <==> FindByUser(cs, user).Some? && cs[FindByUser(cs, user).value].status == status
  {
    if i :| 0 <= i < |cs| && Holds(cs[i], user, status) { Membership(cs, i, user); }
    var found := FindByUser(cs, user);
    if found.Some? && cs[found.value].status == status { assert Holds(cs[found.value], user, status); }
  }

  lemma {:induction false} FreeExactly(cs: seq<Couple>, codes: seq<string>)
    ensures match FirstFree(cs, codes)
            case Some(code) => exists k :: 0 <= k < |codes| && codes[k] == code && !CodeTaken(cs, code)
                                           && forall j :: 0 <= j < k ==> CodeTaken(cs, codes[j])
            case None => forall k :: 0 <= k < |codes| ==> CodeTaken(cs, codes[k])
  {
    if codes != [] {
      var n := |codes| - 1;
      FreeExactly(cs, codes[..n]);
      assert forall k :: 0 <= k < n ==> codes[..n][k] == codes[k];
      var front := FirstFree(cs, codes[..n]);
      if front.Some? {
        var k :| 0 <= k < n && codes[..n][k] == front.value && forall j :: 0 <= j < k ==> CodeTaken(cs, codes[..n][j]);
        assert codes[k] == front.value && forall j :: 0 <= j < k ==> CodeTaken(cs, codes[j]);
      }
    }
  }

  lemma DrawExactly(cs: seq<Couple>, codes: seq<string>)
    ensures var tried := if |codes| > CODE_TRIES then codes[..CODE_TRIES] else codes;
            match FirstFree(cs, tried)
            case Some(code) => exists k :: FirstUnused(cs, codes, k) && codes[k] == code
            case None => forall k :: !FirstUnused(cs, codes, k)
  {
    var tried := if |codes| > CODE_TRIES then codes[..CODE_TRIES] else codes;
    FreeExactly(cs, tried);
    match FirstFree(cs, tried)
    case Some(code) =>
      var k :| 0 <= k < |tried| && tried[k] == code && forall j :: 0 <= j < k ==> CodeTaken(cs, tried[j]);
      assert forall j :: 0 <= j <= k ==> tried[j] == codes[j];
      assert FirstUnused(cs, codes, k);
    case None =>
      forall k ensures !FirstUnused(cs, codes, k) {
        if 0 <= k < |tried| { assert tried[k] == codes[k] && CodeTaken(cs, tried[k]); }
      }
  }

  lemma CreateExactly(cs: seq<Couple>, user: nat, codes: seq<string>)
    requires Inv(cs)
    ensures CreatedAs(cs, user, codes, Create(cs, user, codes).0, Create(cs, user, codes).1)
  {
    StatusOfUser(cs, user, Matched);
    StatusOfUser(cs, user, Waiting);
    DrawExactly(cs, codes);
  }

  lemma SameCode(cs: seq<Couple>, i: nat, j: nat)
    requires Inv(cs) && i < |cs| && j < |cs| && cs[i].code == cs[j].code
    ensures i == j
  {
  }

  lemma InviteExactly(cs: seq<Couple>, code: string)
    requires Inv(cs)
    ensures FindByCode(cs, code).None? <==> forall i :: 0 <= i < |cs| ==> !Invites(cs[i], code)
    ensures forall i :: 0 <= i < |cs| && Invites(cs[i], code) ==> FindByCode(cs, code) == Some(i)
  {
    var found := FindByCode(cs, code);
    forall i | 0 <= i < |cs| && Invites(cs[i], code) ensures found == Some(i) {
      SameCode(cs, i, found.value);
    }
    if found.Some? { assert Invites(cs[found.value], code); }
  }

  lemma JoinExactly(cs: seq<Couple>, user: nat, code: string)
    requires Inv(cs)
    ensures JoinedAs(cs, user, code, Join(cs, user, code).0, Join(cs, user, code).1)
  {
    StatusOfUser(cs, user, Matched);
    InviteExactly(cs, code);
    var (r, answer) := Join(cs, user, code);
    if answer.Done? {
      forall i | 0 <= i < |cs| && i != answer.id
        ensures r[i] == if Holds(cs[i], user, Waiting) then cs[i].(deleted := true) else cs[i]
      {
        if Holds(cs[i], user, Waiting) { Membership(cs, i, user); }
      }
    }
  }

  lemma DissolveExactly(cs: seq<Couple>, id: nat, user: nat)
    ensures DissolvedAs(cs, id, user, Dissolve(cs, id, user).0, Dissolve(cs, id, user).1)
  {
  }

  /** The service over its table. */
  class CoupleService {
    var couples: seq<Couple>

    /** One couple per user, waiting alone or matched with somebody else, and no code handed out twice. */
    ghost predicate Valid()
      reads this
    {
      Inv(couples)
    }

    constructor ()
      ensures Valid() && couples == []
    {
      couples := [];
    }

    /** The rows that are read and the one that is added. */
    method AddInvite(user: nat, codes: seq<string>) returns (r: Answer)
      modifies this
      ensures (couples, r) == Create(old(couples), user, codes)
    {
      var existing := FindByUser(couples, user);
      if existing.Some? && couples[existing.value].status == Matched {
        return AlreadyMatched;
      }
      if existing.Some? && couples[existing.value].status == Waiting {
        return Done(existing.value);
      }
      ghost var tried := if |codes| > CODE_TRIES then codes[..CODE_TRIES] else codes;
      var i := 0;
      while i < |codes| && i < CODE_TRIES
        invariant 0 <= i <= |tried| && couples == old(couples)
        invariant FirstFree(couples, tried[..i]).None?
      {
        assert tried[..i + 1][..i] == tried[..i];
        if !CodeTaken(couples, codes[i]) {
          FirstFreeStays(couples, tried, i + 1);
          couples := couples + [Couple(user, None, codes[i], Waiting, false)];
          return Done(|couples| - 1);
        }
        i := i + 1;
      }
      assert tried[..i] == tried;
      return NoFreeCode;
    }

    /** Whoever has no partner is left waiting with an invite code, unless five draws find none that is free. */
    method CreateCouple(user: nat, codes: seq<string>) returns (r: Answer)
      requires Valid()
      modifies this
      ensures Valid() && (couples, r) == Create(old(couples), user, codes)
      ensures CreatedAs(old(couples), user, codes, couples, r)
      ensures r == AlreadyMatched <==> Partner(old(couples), user).Some?
      ensures r.Done? ==> FindByUser(couples, user) == Some(r.id) && couples[r.id].status == Waiting
      ensures forall other :: Partner(couples, other) == Partner(old(couples), other)
    {
      CreateExactly(couples, user, codes);
      CreateKeeps(couples, user, codes);
      forall other ensures Partner(Create(couples, user, codes).0, other) == Partner(couples, other) {
        CreateInvites(couples, user, codes, other);
      }
      CreateInvites(couples, user, codes, user);
      r := AddInvite(user, codes);
    }

    /** On success the inviter and the joiner, both free before, are each other's partner, and nobody else is
        affected. */
    method JoinCouple(user: nat, code: string) returns (r: Answer)
      requires Valid()
      modifies this
      ensures Valid() && (couples, r) == Join(old(couples), user, code)
      ensures JoinedAs(old(couples), user, code, couples, r)
      ensures r.Done? ==> var inviter := old(couples)[r.id].user1;
                && Partner(couples, user) == Some(inviter) && Partner(couples, inviter) == Some(user)
                && Partner(old(couples), user).None? && Partner(old(couples), inviter).None?
                && forall other :: other != user && other != inviter ==>
                       Partner(couples, other) == Partner(old(couples), other)
    {
      JoinExactly(couples, user, code);
      JoinInto(couples, user, code);
      var existing := FindByUser(couples, user);
      if existing.Some? && couples[existing.value].status == Matched {
        return AlreadyMatched;
      }
      var found := FindByCode(couples, code);
      if found.None? {
        return UnknownCode;
      }
      var couple := couples[found.value];
      if couple.user1 == user {
        return OwnCode;
      }
      if couple.user2 != None && couple.user2 != Some(user) {
        return CodeUsed;
      }
      couples := couples[found.value := couple.(user2 := Some(user), status := Matched)];
      if existing.Some? && couples[existing.value].status == Waiting {
        couples := couples[existing.value := couples[existing.value].(deleted := true)];
      }
      return Done(found.value);
    }

    /** On success its one or two users are free again, and nobody else is affected. */
    method DissolveCouple(id: nat, user: nat) returns (r: Answer)
      requires Valid()
      modifies this
      ensures Valid() && (couples, r) == Dissolve(old(couples), id, user)
      ensures DissolvedAs(old(couples), id, user, couples, r)
      ensures r.Done? ==> forall other ::
                if Member(old(couples)[id], other) then FindByUser(couples, other).None?
                else Partner(couples, other) == Partner(old(couples), other)
    {
      DissolveInto(couples, id, user);
      if id >= |couples| || couples[id].deleted {
        return NotFound;
      }
      if couples[id].user1 != user && couples[id].user2 != Some(user) {
        return NotAllowed;
      }
      couples := couples[id := couples[id].(status := Dissolved)];
      couples := couples[id := couples[id].(deleted := true)];
      assert couples == old(couples)[id := old(couples)[id].(status := Dissolved, deleted := true)];
      return Done(id);
    }
  }

  lemma {:induction false} FirstFreeStays(cs: seq<Couple>, codes: seq<string>, i: nat)
    requires i <= |codes| && FirstFree(cs, codes[..i]).Some?
    ensures FirstFree(cs, codes) == FirstFree(cs, codes[..i])
  {
    var n := |codes| - 1;
    if i == |codes| {
      assert codes[..i] == codes;
    } else {
      assert codes[..n][..i] == codes[..i];
      FirstFreeStays(cs, codes[..n], i);
    }
  }
}
