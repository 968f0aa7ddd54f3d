/** Refresh-token sessions: issued at login, replaced one for one by the rotation script. */
module RefreshTokens {
  import opened Wrappers

  /** What a refresh session is bound to. */
  datatype Claims = Claims(subject: string, version: int, scope: string)

  /** A signed token: `login` names the first token of its family, `depth` counts the rotations since then. */
  datatype Issued = Issued(claims: Claims, expires: int, login: nat, depth: nat)

  datatype Entry = Entry(claims: Claims, expires: int)

  /** `sessions` is the Redis store; `issued` and `logins` record what was ever signed, and for whom. */
  datatype State = State(sessions: map<nat, Entry>, now: int, issued: map<nat, Issued>, logins: map<nat, Claims>)

  const TTL: int := 30 * 24 * 60 * 60

  /** `create_token_pair` at a login; the token was signed at `built`, the session is stored now. */
  function Login(s: State, id: nat, claims: Claims, built: int): State {
    s.(sessions := s.sessions[id := Entry(claims, s.now + TTL)],
       issued := s.issued[id := Issued(claims, built + TTL, id, 0)],
       logins := s.logins[id := claims])
  }

  /** The checks made on the decoded token before the script is sent. */
  predicate Acceptable(s: State, id: nat, subject: string, version: int, decodedAt: int) {
    && id in s.issued && decodedAt <= s.issued[id].expires
    && s.issued[id].claims.subject == subject && s.issued[id].claims.version == version
    && s.issued[id].claims.scope != ""
  }

  predicate Alive(sessions: map<nat, Entry>, id: nat, now: int) {
    id in sessions && now < sessions[id].expires
  }

  /** The script finds the old session bound to the same claims and the new key unused. */
  predicate Replaceable(s: State, id: nat, claims: Claims, newId: nat) {
    Alive(s.sessions, id, s.now) && s.sessions[id].claims == claims && !Alive(s.sessions, newId, s.now)
  }

  function Replaced(s: State, id: nat, newId: nat, decodedAt: int): State
    requires id in s.issued
  {
    var was := s.issued[id];
    s.(sessions := s.sessions[newId := Entry(was.claims, s.now + TTL)] - {id},
       issued := s.issued[newId := Issued(was.claims, decodedAt + TTL, was.login, was.depth + 1)])
  }

  /** `rotate_refresh_token`: the token is decoded and a successor signed at `decodedAt`; the script runs now. */
  function Rotate(s: State, id: nat, subject: string, version: int, newId: nat, decodedAt: int): (State, bool) {
    if Acceptable(s, id, subject, version, decodedAt) && Replaceable(s, id, s.issued[id].claims, newId)
    then (Replaced(s, id, newId, decodedAt), true)
    else (s, false)
  }

  datatype Action =
    | DoLogin(id: nat, claims: Claims, built: int)
    | DoRotate(id: nat, subject: string, version: int, newId: nat, decodedAt: int)
    | Tick(elapsed: nat)

  /** Token ids are drawn once, and no step uses a time that has not come. */
  predicate Enabled(s: State, a: Action) {
    match a
    case DoLogin(id, _, built) => id !in s.issued && id !in s.logins && built <= s.now
    case DoRotate(_, _, _, newId, decodedAt) => newId !in s.issued && decodedAt <= s.now
    case Tick(_) => true
  }

  function Step(s: State, a: Action): State {
    match a
    case DoLogin(id, claims, built) => Login(s, id, claims, built)
    case DoRotate(id, subject, version, newId, decodedAt) => Rotate(s, id, subject, version, newId, decodedAt).0
    case Tick(elapsed) => s.(now := s.now + elapsed)
  }

  function Run(s: State, actions: seq<Action>): State {
    if actions == [] then s
    else
      var mid := Run(s, actions[..|actions| - 1]);
      if Enabled(mid, actions[|actions| - 1]) then Step(mid, actions[|actions| - 1]) else mid
  }

  function Start(now: int): State {
    State(map[], now, map[], map[])
  }

  /** Every token carries the claims of its login. */
  ghost predicate ClaimsOk(s: State) {
    forall i :: i in s.issued ==> s.issued[i].login in s.logins && s.issued[i].claims == s.logins[s.issued[i].login]
  }

  /** One token per family and depth. */
  ghost predicate ChainOk(s: State) {
    forall i, j ::
      i in s.issued && j in s.issued && s.issued[i].login == s.issued[j].login
      && s.issued[i].depth == s.issued[j].depth ==>
        i == j
  }

  /** Only the deepest token of a family is stored, with the claims it was signed for. */
  ghost predicate StoredOk(s: State) {
    && (forall i :: i in s.sessions ==> i in s.issued && s.sessions[i].claims == s.issued[i].claims)
    && (forall i, j :: i in s.sessions && j in s.issued && s.issued[j].login == s.issued[i].login ==>
          s.issued[j].depth <= s.issued[i].depth)
  }

  ghost predicate Inv(s: State) {
    ClaimsOk(s) && ChainOk(s) && StoredOk(s)
  }

  lemma LoginKeepsChain(s: State, id: nat, claims: Claims, built: int)
    requires Inv(s) && id !in s.issued && id !in s.logins
    ensures var t := Login(s, id, claims, built); ClaimsOk(t) && ChainOk(t)
  {
    var t := Login(s, id, claims, built);
    forall i | i in t.issued && i != id ensures i in s.issued && t.issued[i] == s.issued[i] && t.issued[i].login != id {
    }
  }

  lemma LoginKeeps(s: State, id: nat, claims: Claims, built: int)
    requires Inv(s) && id !in s.issued && id !in s.logins
    ensures Inv(Login(s, id, claims, built))
  {
    LoginKeepsChain(s, id, claims, built);
    var t := Login(s, id, claims, built);
    forall j | j in s.issued ensures s.issued[j].login != id {
    }
    forall i, j | i in t.sessions && j in t.issued && t.issued[j].login == t.issued[i].login
      ensures t.issued[j].depth <= t.issued[i].depth
    {
    }
  }

  lemma ReplacedKeeps(s: State, id: nat, newId: nat, decodedAt: int)
    requires Inv(s) && newId !in s.issued && id in s.sessions
    ensures Inv(Replaced(s, id, newId, decodedAt))
  {
    var t := Replaced(s, id, newId, decodedAt);
    forall i | i in t.issued && i != newId ensures i in s.issued && t.issued[i] == s.issued[i] {
    }
    forall i | i in t.sessions && i != newId ensures i in s.sessions && i != id && t.sessions[i] == s.sessions[i] {
    }
    forall i | i in t.sessions && i != newId ensures s.issued[i].login != s.issued[id].login {
    }
  }

  lemma StepInv(s: State, a: Action)
    requires Inv(s) && Enabled(s, a)
    ensures Inv(Step(s, a))
  {
    match a
    case DoLogin(id, claims, built) => LoginKeeps(s, id, claims, built);
    case DoRotate(id, subject, version, newId, decodedAt) =>
      if Rotate(s, id, subject, version, newId, decodedAt).1 { ReplacedKeeps(s, id, newId, decodedAt); }
    case Tick(_) =>
  }

  lemma {:induction false} RunInv(s: State, actions: seq<Action>)
    requires Inv(s)
    ensures Inv(Run(s, actions))
  {
    if actions != [] {
      RunInv(s, actions[..|actions| - 1]);
      var mid := Run(s, actions[..|actions| - 1]);
      if Enabled(mid, actions[|actions| - 1]) { StepInv(mid, actions[|actions| - 1]); }
    }
  }

  /** Over every run the tokens that descend from one login form a chain, one token per depth: only its last token can
      be stored, so at most one is, and all keep the subject, version and scope of the login. */
  lemma FamilyIsAChain(now: int, actions: seq<Action>, i: nat, j: nat)
    ensures var s := Run(Start(now), actions);
            i in s.issued && j in s.issued && s.issued[i].login == s.issued[j].login ==>
              && (s.issued[i].depth == s.issued[j].depth ==> i == j)
              && (i in s.sessions && i != j ==> j !in s.sessions && s.issued[j].depth < s.issued[i].depth)
              && s.issued[i].claims == s.issued[j].claims
              && (i in s.sessions ==> s.sessions[i].claims == s.issued[j].claims)
  {
    RunInv(Start(now), actions);
  }

  /** A successor of `id` was signed. */
  ghost predicate Superseded(s: State, id: nat) {
    id in s.issued
    && exists j :: j in s.issued && s.issued[j].login == s.issued[id].login && s.issued[id].depth < s.issued[j].depth
  }

  lemma StepKeepsIssued(s: State, a: Action, i: nat)
    requires Inv(s) && Enabled(s, a) && i in s.issued
    ensures i in Step(s, a).issued && Step(s, a).issued[i] == s.issued[i]
  {
  }

  lemma SupersededStays(s: State, a: Action, id: nat)
    requires Inv(s) && Enabled(s, a) && Superseded(s, id)
    ensures Superseded(Step(s, a), id)
  {
    var j :| j in s.issued && s.issued[j].login == s.issued[id].login && s.issued[id].depth < s.issued[j].depth;
    StepKeepsIssued(s, a, id);
    StepKeepsIssued(s, a, j);
  }

  /** After one rotation of a token succeeded, no rotation of that token succeeds again: not a repeat, not one that was
      decoded earlier and ran concurrently, whatever happens in between. */
  lemma {:induction false} SingleUse(s: State, a: Action, actions: seq<Action>, subject: string, version: int,
                                     newId: nat, decodedAt: int)
    requires Inv(s) && a.DoRotate? && Enabled(s, a) && Rotate(s, a.id, a.subject, a.version, a.newId, a.decodedAt).1
    ensures var t := Run(Step(s, a), actions);
            Inv(t) && Superseded(t, a.id) && Rotate(t, a.id, subject, version, newId, decodedAt) == (t, false)
  {
    StepInv(s, a);
    RunInv(Step(s, a), actions);
    if actions == [] {
      assert a.newId in Step(s, a).issued;
    } else {
      var n := |actions| - 1;
      SingleUse(s, a, actions[..n], subject, version, newId, decodedAt);
      var mid := Run(Step(s, a), actions[..n]);
      if Enabled(mid, actions[n]) { SupersededStays(mid, actions[n], a.id); }
    }
    assert a.id !in Run(Step(s, a), actions).sessions;
  }

  /** A rotation succeeds exactly for the stored, unexpired token presented with its own subject and version; it then
      swaps that one session for a new one of thirty days and leaves every other session alone. */
  lemma RotatesExactlyTheLiveToken(s: State, id: nat, subject: string, version: int, newId: nat, decodedAt: int)
    requires Inv(s) && newId !in s.issued
    ensures var (t, ok) := Rotate(s, id, subject, version, newId, decodedAt);
            && (ok <==> id in s.sessions && s.now < s.sessions[id].expires && decodedAt <= s.issued[id].expires
                        && s.sessions[id].claims.subject == subject && s.sessions[id].claims.version == version
                        && s.sessions[id].claims.scope != "")
            && (ok ==> t.sessions == (s.sessions - {id})[newId := Entry(s.sessions[id].claims, s.now + 2_592_000)]
                       && newId in t.issued && t.issued[newId].expires == decodedAt + 2_592_000 && t.now == s.now)
            && (!ok ==> t == s)
  {
    assert newId !in s.sessions;
    if Rotate(s, id, subject, version, newId, decodedAt).1 {
      var a := s.sessions[newId := Entry(s.sessions[id].claims, s.now + TTL)] - {id};
      var b := (s.sessions - {id})[newId := Entry(s.sessions[id].claims, s.now + TTL)];
      assert a.Keys == b.Keys;
      assert a == b;
    }
  }

  /** What a rotation means for the other sessions, and for its own token from then on. */
  lemma RotateInto(s: State, id: nat, subject: string, version: int, newId: nat, decodedAt: int)
    requires Inv(s) && newId !in s.issued && decodedAt <= s.now
    ensures var (t, ok) := Rotate(s, id, subject, version, newId, decodedAt);
            && Inv(t)
            && (ok ==> id in s.sessions && Superseded(t, id))
            && (ok ==> t.sessions == (s.sessions - {id})[newId := Entry(s.sessions[id].claims, s.now + 2_592_000)])
  {
    StepInv(s, DoRotate(id, subject, version, newId, decodedAt));
    RotatesExactlyTheLiveToken(s, id, subject, version, newId, decodedAt);
    if Rotate(s, id, subject, version, newId, decodedAt).1 {
      assert newId in Rotate(s, id, subject, version, newId, decodedAt).0.issued;
    }
  }

  /** The store itself. */
  class SessionStore {
    var sessions: map<nat, Entry>
    var now: int
    ghost var issued: map<nat, Issued>
    ghost var logins: map<nat, Claims>

    ghost function View(): State
      reads this
    {
      State(sessions, now, issued, logins)
    }

    /** Families are chains, and only their last token can be stored. */
    ghost predicate Valid()
      reads this
    {
      Inv(View())
    }

    constructor (now: int)
      ensures Valid() && View() == Start(now)
    {
      sessions, this.now, issued, logins := map[], now, map[], map[];
    }

    method CreatePair(id: nat, claims: Claims, built: int)
      requires Valid() && id !in issued && id !in logins
      modifies this
      ensures Valid() && View() == Login(old(View()), id, claims, built)
      ensures sessions == old(sessions)[id := Entry(claims, now + 2_592_000)] && issued[id].expires == built + 2_592_000
    {
      ghost var before := View();
      sessions := sessions[id := Entry(claims, now + TTL)];
      issued := issued[id := Issued(claims, built + TTL, id, 0)];
      logins := logins[id := claims];
      assert View() == Login(before, id, claims, built);
      LoginKeeps(before, id, claims, built);
    }

    /** `token` is what decoding gives: its claims and expiry, or nothing for a token this server never signed. On
        success the old session is out for good, the new one carries its claims and every other session stays;
        otherwise nothing changes. */
    method RotateToken(id: nat, token: Option<(Claims, int)>, subject: string, version: int, newId: nat, decodedAt: int)
      returns (ok: bool)
      requires Valid() && newId !in issued && decodedAt <= now
      requires token == if id in issued then Some((issued[id].claims, issued[id].expires)) else None
      modifies this
      ensures Valid() && (View(), ok) == Rotate(old(View()), id, subject, version, newId, decodedAt)
      ensures ok ==> id in old(sessions) && Superseded(View(), id)
      ensures ok ==> sessions == (old(sessions) - {id})[newId := Entry(old(sessions)[id].claims, now + 2_592_000)]
      ensures ok <==> && id in old(sessions) && now < old(sessions)[id].expires && decodedAt <= old(issued)[id].expires
                      && old(sessions)[id].claims.subject == subject && old(sessions)[id].claims.version == version
                      && old(sessions)[id].claims.scope != ""
      ensures !ok ==> View() == old(View())
    {
      ghost var before := View();
      RotatesExactlyTheLiveToken(before, id, subject, version, newId, decodedAt);
      RotateInto(before, id, subject, version, newId, decodedAt);
      if token.None? || token.value.1 < decodedAt {
        return false;
      }
      var claims := token.value.0;
      if claims.subject != subject || claims.version != version || claims.scope == "" {
        return false;
      }
      if !Alive(sessions, id, now) || sessions[id].claims != claims || Alive(sessions, newId, now) {
        return false;
      }
      Replace(id, claims, newId, decodedAt);
      return true;
    }

    /** The script's writes. */
    method Replace(id: nat, claims: Claims, newId: nat, decodedAt: int)
      requires id in issued && issued[id].claims == claims
      modifies this
      ensures View() == Replaced(old(View()), id, newId, decodedAt)
    {
      sessions := sessions[newId := Entry(claims, now + TTL)];
      sessions := sessions - {id};
      issued := issued[newId := Issued(claims, decodedAt + TTL, issued[id].login, issued[id].depth + 1)];
    }
  }
}
