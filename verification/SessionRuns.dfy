/** Runs of the session store: logins, refreshes with any token at any time, every kind of revocation,
    and changes of the user table, in any order. */
module SessionRuns {
  import opened Basics
  import opened SessionFamilies
  import opened Sessions

  datatype Sys = Sys(auth: Auth, users: map<Id, User>)

  datatype Call =
    | LoginCall(
        user: Id, client: Client, now: Time, absTtl: int, idleTtl: int, id: Id, hash: Hash, family: Id, issued: bool)
    | RefreshCall(hash: Hash, client: Client, now: Time, idleTtl: int, newId: Id, newHash: Hash, issued: bool)
    | RevokeCall(target: Target, now: Time, reason: string)
    | UsersChange(users: map<Id, User>)

  const EMPTY := Auth(map[], map[], [], [])

  /** The call is a refresh, and this is how it ends. */
  ghost predicate Answers(s: Sys, c: Call, r: Outcome) {
    c.RefreshCall? && Presented(s.auth, s.users, c.hash, c.client, c.now, c.issued, c.newId, r)
  }

  ghost predicate Refreshes(s: Sys, c: Call, mode: TxMode, r: Outcome, s': Sys)
    requires c.RefreshCall?
  {
    Answers(s, c, r)
    && RefreshEffect(s.auth, s.users, c.hash, c.client, c.now, c.idleTtl, c.newId, c.newHash, mode, r, s'.auth)
  }

  ghost predicate Next(s: Sys, c: Call, mode: TxMode, s': Sys) {
    match c
    case LoginCall(user, client, now, absTtl, idleTtl, id, hash, family, issued) =>
      && FreshSession(s.auth, id, hash) && !Known(s.auth.rows, family) && s'.users == s.users
      && s'.auth == if issued || mode == KeepWrites
                    then Add(s.auth, RootSession(id, user, client, hash, family, absTtl, idleTtl, now))
                    else s.auth
    case RefreshCall(_, _, _, _, newId, newHash, _) =>
      && FreshSession(s.auth, newId, newHash) && s'.users == s.users
      && exists r :: Refreshes(s, c, mode, r, s')
    case RevokeCall(target, now, reason) =>
      s'.users == s.users && s'.auth == Revoke(s.auth, target, now, reason)
    case UsersChange(users) => s'.users == users && s'.auth == s.auth
  }

  ghost predicate IsRun(states: seq<Sys>, calls: seq<Call>, mode: TxMode) {
    && |states| == |calls| + 1 && states[0].auth == EMPTY
    && (forall i {:trigger calls[i]} :: 0 <= i < |calls| ==> Next(states[i], calls[i], mode, states[i + 1]))
  }

  lemma {:induction false} StepKeeps(s: Sys, c: Call, mode: TxMode, s': Sys)
    requires Valid(s.auth) && Next(s, c, mode, s')
    ensures Valid(s'.auth) && Evolves(s.auth, s'.auth)
  {
    hide Valid, Evolves, RefreshEffect, Revoke;
    EvolvesSelf(s.auth);
    match c
    case LoginCall(user, client, now, absTtl, idleTtl, id, hash, family, _) =>
      RootKeeps(s.auth, RootSession(id, user, client, hash, family, absTtl, idleTtl, now));
    case RefreshCall(hash, client, now, idleTtl, newId, newHash, _) =>
      var r :| Refreshes(s, c, mode, r, s');
      RefreshKeeps(s.auth, s.users, hash, client, now, idleTtl, newId, newHash, mode, r, s'.auth);
    case RevokeCall(target, now, reason) => RevokeKeeps(s.auth, target, now, reason);
    case UsersChange(_) =>
  }

  /** At every state of every run each family is a chain with at most one live session, its last. */
  lemma {:induction false} InvHolds(states: seq<Sys>, calls: seq<Call>, mode: TxMode, i: nat)
    requires IsRun(states, calls, mode) && i < |states|
    ensures Valid(states[i].auth)
  {
    if i > 0 {
      hide Valid, Next;
      InvHolds(states, calls, mode, i - 1);
      assert Next(states[i - 1], calls[i - 1], mode, states[i]);
      StepKeeps(states[i - 1], calls[i - 1], mode, states[i]);
    }
  }

  /** Whatever is called, sessions are never removed or revived, a dead family stays dead, and a token
      that was exchanged stays on record. */
  lemma {:induction false} DeathIsPermanent(states: seq<Sys>, calls: seq<Call>, mode: TxMode, i: nat, j: nat)
    requires IsRun(states, calls, mode) && i <= j < |states|
    ensures Evolves(states[i].auth, states[j].auth)
    decreases j
  {
    hide Valid, Next, Evolves;
    EvolvesSelf(states[i].auth);
    if i < j {
      DeathIsPermanent(states, calls, mode, i, j - 1);
      InvHolds(states, calls, mode, j - 1);
      assert Next(states[j - 1], calls[j - 1], mode, states[j]);
      StepKeeps(states[j - 1], calls[j - 1], mode, states[j]);
      EvolvesOn(states[i].auth, states[j - 1].auth, states[j].auth);
    }
  }

  /** The call exchanges the token for a new one. */
  ghost predicate Exchanges(s: Sys, c: Call, hash: Hash) {
    c.RefreshCall? && c.hash == hash && Answers(s, c, Rotated(c.newId))
  }

  lemma {:induction false} ExchangeRecords(s: Sys, c: Call, mode: TxMode, s': Sys, hash: Hash)
    requires Valid(s.auth) && Next(s, c, mode, s') && Exchanges(s, c, hash)
    ensures !Dead(s.auth.rows, FamilyOf(s.auth, hash)) && hash !in s.auth.rotated && hash in s'.auth.rotated
  {
    hide Valid, Dead, RefreshEffect, FamilyOf;
    var r :| Refreshes(s, c, mode, r, s');
    assert r == Rotated(c.newId);
    OnlyLiveTokensRotate(s.auth, s.users, hash, c.client, c.now, c.idleTtl, c.newId, c.newHash, c.issued, mode,
                         s'.auth);
  }

  /** Each refresh token is exchanged at most once, however often and by whomever it is presented. */
  lemma {:induction false} TokensRotateOnce(
    states: seq<Sys>, calls: seq<Call>, mode: TxMode, i: nat, j: nat, hash: Hash)
    requires IsRun(states, calls, mode) && i < j < |calls| && Exchanges(states[i], calls[i], hash)
    ensures !Exchanges(states[j], calls[j], hash)
  {
    hide Valid, Next, Exchanges;
    assert Next(states[i], calls[i], mode, states[i + 1]) && Next(states[j], calls[j], mode, states[j + 1]);
    InvHolds(states, calls, mode, i);
    InvHolds(states, calls, mode, j);
    ExchangeRecords(states[i], calls[i], mode, states[i + 1], hash);
    DeathIsPermanent(states, calls, mode, i + 1, j);
    if Exchanges(states[j], calls[j], hash) {
      ExchangeRecords(states[j], calls[j], mode, states[j + 1], hash);
    }
  }

  /** With writes kept, a replay ends its family for good: at every later state it is dead, and no token
      of it is ever exchanged again. */
  lemma {:induction false} ReplayIsFinal(
    states: seq<Sys>, calls: seq<Call>, i: nat, j: nat, hash: Hash)
    requires IsRun(states, calls, KeepWrites) && i < j < |states| && Answers(states[i], calls[i], ReplayDetected)
    ensures Dead(states[j].auth.rows, FamilyOf(states[i].auth, calls[i].hash))
    ensures j < |calls| && FamilyOf(states[j].auth, hash) == FamilyOf(states[i].auth, calls[i].hash) ==>
              !Exchanges(states[j], calls[j], hash)
  {
    hide Valid, Next, Exchanges, Dead, FamilyOf;
    assert Next(states[i], calls[i], KeepWrites, states[i + 1]);
    InvHolds(states, calls, KeepWrites, i);
    InvHolds(states, calls, KeepWrites, j);
    ReplayKills(states[i], calls[i], states[i + 1]);
    DeathIsPermanent(states, calls, KeepWrites, i + 1, j);
    if j < |calls| && Exchanges(states[j], calls[j], hash) {
      assert Next(states[j], calls[j], KeepWrites, states[j + 1]);
      ExchangeRecords(states[j], calls[j], KeepWrites, states[j + 1], hash);
    }
  }

  lemma {:induction false} ReplayKills(s: Sys, c: Call, s': Sys)
    requires Valid(s.auth) && Next(s, c, KeepWrites, s') && Answers(s, c, ReplayDetected)
    ensures Dead(s'.auth.rows, FamilyOf(s.auth, c.hash))
  {
    hide Valid, RefreshEffect, FamilyOf, Dead;
    var r :| Refreshes(s, c, KeepWrites, r, s');
    assert r == ReplayDetected;
    ReplayEndsTheFamily(s.auth, s.users, c.hash, c.client, c.now, c.idleTtl, c.newId, c.newHash, c.issued, KeepWrites,
                        s'.auth);
  }

  // ---------------------------------------------------------------- how long a token is good

  /** The token is known, and its session could be refreshed by this call: right client, not revoked,
      inside both limits, user there and active. */
  ghost predicate Good(s: Sys, hash: Hash, client: Client, now: Time) {
    && hash in s.auth.byRefresh && s.auth.byRefresh[hash] in s.auth.sessions
    && var session := s.auth.sessions[s.auth.byRefresh[hash]];
    && session.client == client && session.revokedAt == None
    && now < session.absoluteExpiry && now < session.idleExpiry
    && session.user in s.users && s.users[session.user].active
  }

  /** A token is exchanged exactly while it is good, when the new access token can be signed. */
  lemma {:induction false} ExchangedWhileGood(states: seq<Sys>, calls: seq<Call>, mode: TxMode, i: nat)
    requires IsRun(states, calls, mode) && i < |calls| && calls[i].RefreshCall?
    ensures Exchanges(states[i], calls[i], calls[i].hash)
            <==> Good(states[i], calls[i].hash, calls[i].client, calls[i].now) && calls[i].issued
  {
    InvHolds(states, calls, mode, i);
    TokensAreKeys(states[i].auth);
  }

  /** The call that made the session: the login, or the refresh that answered with its token. */
  predicate Makes(c: Call, s: Session) {
    match c
    case LoginCall(user, client, now, absTtl, idleTtl, id, hash, family, _) =>
      && s.id == id && s.user == user && s.client == client && s.hash == hash && s.family == family
      && s.absoluteExpiry == now + absTtl && s.createdAt == now && EndsAfter(s, now + idleTtl)
    case RefreshCall(_, _, now, idleTtl, newId, newHash, _) =>
      s.id == newId && s.hash == newHash && s.createdAt == now && EndsAfter(s, now + idleTtl)
    case _ => false
  }

  /** The idle limit is the one given, cut to the absolute one. */
  predicate EndsAfter(s: Session, idle: Time) {
    s.idleExpiry == if idle < s.absoluteExpiry then idle else s.absoluteExpiry
  }

  /** The login a session's family began with; all of the family ends with it at the latest. */
  predicate Begins(c: Call, s: Session) {
    && c.LoginCall? && s.family == c.family && s.user == c.user && s.client == c.client
    && s.absoluteExpiry == c.now + c.absTtl
  }

  lemma {:induction false} NewRow(s: Sys, c: Call, mode: TxMode, s': Sys)
    requires Valid(s.auth) && Next(s, c, mode, s') && |s'.auth.rows| > |s.auth.rows|
    ensures |s'.auth.rows| == |s.auth.rows| + 1
    ensures c.LoginCall? || c.RefreshCall?
    ensures c.LoginCall? ==> Makes(c, s'.auth.rows[|s.auth.rows|]) && Begins(c, s'.auth.rows[|s.auth.rows|])
    ensures c.RefreshCall? ==>
              && Makes(c, s'.auth.rows[|s.auth.rows|])
              && exists p :: 0 <= p < |s.auth.rows| && IsParent(s.auth.rows[p], s'.auth.rows[|s.auth.rows|])
  {
    if c.RefreshCall? {
      var r :| Refreshes(s, c, mode, r, s');
      var p :| 0 <= p < |s.auth.rows| && s.auth.rows[p].id == s.auth.byRefresh[c.hash]
               && s'.auth
                  == Rotate(s.auth, p, ChildSession(s.auth.rows[p], c.newId, c.newHash, c.idleTtl, c.now), c.now);
      assert IsParent(s.auth.rows[p], s'.auth.rows[|s.auth.rows|]);
    }
  }

  predicate IsParent(s: Session, child: Session) {
    && child.family == s.family && child.user == s.user && child.client == s.client
    && child.absoluteExpiry == s.absoluteExpiry
  }

  /** Every session comes from a call that made it, and its family from a login. */
  lemma {:induction false} Origin(states: seq<Sys>, calls: seq<Call>, mode: TxMode, n: nat, k: nat)
    returns (l: nat, c: nat)
    requires IsRun(states, calls, mode) && n < |states| && k < |states[n].auth.rows|
    ensures l <= c < n && Makes(calls[c], states[n].auth.rows[k]) && Begins(calls[l], states[n].auth.rows[k])
    decreases n, k
  {
    hide Valid, Next;
    assert n > 0;
    var s, s' := states[n - 1], states[n];
    assert Next(s, calls[n - 1], mode, s');
    InvHolds(states, calls, mode, n - 1);
    StepKeeps(s, calls[n - 1], mode, s');
    if k < |s.auth.rows| {
      l, c := Origin(states, calls, mode, n - 1, k);
    } else {
      NewRow(s, calls[n - 1], mode, s');
      c := n - 1;
      if calls[c].LoginCall? {
        l := c;
      } else {
        var p :| 0 <= p < |s.auth.rows| && IsParent(s.auth.rows[p], s'.auth.rows[|s.auth.rows|]);
        var made;
        l, made := Origin(states, calls, mode, n - 1, p);
      }
    }
  }

  /** A token is exchanged only within the idle limit after the login or refresh that issued it, and within
      the absolute limit after its family's login. */
  lemma {:induction false} ExchangedInTime(states: seq<Sys>, calls: seq<Call>, mode: TxMode, i: nat, hash: Hash)
    returns (l: nat, c: nat)
    requires IsRun(states, calls, mode) && i < |calls| && Exchanges(states[i], calls[i], hash)
    ensures l <= c < i && calls[l].LoginCall? && calls[i].now < calls[l].now + calls[l].absTtl
    ensures (calls[c].LoginCall? && calls[c].hash == hash) || (calls[c].RefreshCall? && calls[c].newHash == hash)
    ensures calls[i].now < calls[c].now + calls[c].idleTtl
    ensures calls[l].family == FamilyOf(states[i].auth, hash)
  {
    ExchangedWhileGood(states, calls, mode, i);
    var k := RowOfToken(states, calls, mode, i, hash);
    l, c := Origin(states, calls, mode, i, k);
  }

  lemma {:induction false} RowOfToken(states: seq<Sys>, calls: seq<Call>, mode: TxMode, i: nat, hash: Hash)
    returns (k: nat)
    requires IsRun(states, calls, mode) && i < |states| && hash in states[i].auth.byRefresh
    ensures var a := states[i].auth;
            k < |a.rows| && a.byRefresh[hash] in a.sessions && a.rows[k] == a.sessions[a.byRefresh[hash]]
            && a.rows[k].hash == hash && FamilyOf(a, hash) == a.rows[k].family
  {
    InvHolds(states, calls, mode, i);
    var a := states[i].auth;
    var id := a.byRefresh[hash];
    assert Listed(a.rows, a.sessions[id]);
    k :| k < |a.rows| && a.rows[k] == a.sessions[id];
  }

  // ---------------------------------------------------------------- who ends a session, and when

  /** Revoking names one session, a family, or all sessions of a user. */
  predicate Names(target: Target, s: Session) {
    (target.OneSession? ==> s.id == target.id) && (target.WholeFamily? ==> s.family == target.family)
    && (target.AllOfUser? ==> s.user == target.user)
  }

  lemma {:induction false} RevokedNow(s: Sys, c: Call, mode: TxMode, s': Sys, k: nat)
    requires Valid(s.auth) && Next(s, c, mode, s') && k < |s.auth.rows| <= |s'.auth.rows|
    requires s.auth.rows[k].revokedAt == None && s'.auth.rows[k].revokedAt != None
    ensures c.RevokeCall? || c.RefreshCall?
    ensures c.RevokeCall? ==> Names(c.target, s.auth.rows[k]) && s'.auth.rows[k].revokedAt == Some(c.now)
                              && s'.auth.rows[k].reason == Some(c.reason)
    ensures c.RefreshCall? ==> FamilyOf(s.auth, c.hash) == s.auth.rows[k].family
                               && s'.auth.rows[k].revokedAt == Some(c.now)
  {
    if c.RefreshCall? {
      var r :| Refreshes(s, c, mode, r, s');
    }
  }

  /** A session ends only by a call that names it, or by a refresh with a token of its own family; the
      time of that call is on record for good. */
  lemma {:induction false} EndedBy(states: seq<Sys>, calls: seq<Call>, mode: TxMode, i: nat, j: nat, k: nat)
    requires IsRun(states, calls, mode) && i < j < |states| && k < |states[i].auth.rows|
    requires k < |states[i + 1].auth.rows| && k < |states[j].auth.rows|
    requires states[i].auth.rows[k].revokedAt == None && states[i + 1].auth.rows[k].revokedAt != None
    ensures calls[i].RevokeCall? || calls[i].RefreshCall?
    ensures calls[i].RevokeCall? ==> Names(calls[i].target, states[i].auth.rows[k])
    ensures calls[i].RefreshCall? ==> FamilyOf(states[i].auth, calls[i].hash) == states[i].auth.rows[k].family
    ensures states[j].auth.rows[k].revokedAt == Some(calls[i].now)
  {
    hide Valid, Next;
    assert Next(states[i], calls[i], mode, states[i + 1]);
    InvHolds(states, calls, mode, i);
    StepKeeps(states[i], calls[i], mode, states[i + 1]);
    RevokedNow(states[i], calls[i], mode, states[i + 1], k);
    DeathIsPermanent(states, calls, mode, i + 1, j);
  }

  /** And revoking ends every session it names. */
  lemma {:induction false} NamedAreEnded(states: seq<Sys>, calls: seq<Call>, mode: TxMode, i: nat, k: nat)
    requires IsRun(states, calls, mode) && i < |calls| && calls[i].RevokeCall? && k < |states[i].auth.rows|
    requires Names(calls[i].target, states[i].auth.rows[k])
    ensures k < |states[i + 1].auth.rows| && states[i + 1].auth.rows[k].revokedAt != None
  {
    assert Next(states[i], calls[i], mode, states[i + 1]);
  }

  // ---------------------------------------------------------------- refreshes that fail

  /** A known token of the right client, not revoked, but past one of its limits. */
  ghost predicate PastLimit(s: Sys, c: Call) {
    && c.RefreshCall? && c.hash in s.auth.byRefresh && s.auth.byRefresh[c.hash] in s.auth.sessions
    && var session := s.auth.sessions[s.auth.byRefresh[c.hash]];
    && session.client == c.client && session.revokedAt == None
    && (session.absoluteExpiry <= c.now || session.idleExpiry <= c.now)
  }

  /** A good token, but its user has been deactivated. */
  ghost predicate OfInactiveUser(s: Sys, c: Call) {
    && c.RefreshCall? && c.hash in s.auth.byRefresh && s.auth.byRefresh[c.hash] in s.auth.sessions
    && var session := s.auth.sessions[s.auth.byRefresh[c.hash]];
    && session.client == c.client && session.revokedAt == None
    && c.now < session.absoluteExpiry && c.now < session.idleExpiry
    && session.user in s.users && !s.users[session.user].active
  }

  /** A lapsed token is refused as invalid; with writes kept its session, and no other, is revoked as expired. */
  lemma {:induction false} LapsedTokenIsRevoked(
    states: seq<Sys>, calls: seq<Call>, mode: TxMode, i: nat, r: Outcome, k: nat)
    requires IsRun(states, calls, mode) && i < |calls| && PastLimit(states[i], calls[i])
    requires Answers(states[i], calls[i], r) && k < |states[i].auth.rows|
    ensures r == InvalidToken && k < |states[i + 1].auth.rows|
    ensures if mode == KeepWrites && states[i].auth.rows[k].hash == calls[i].hash
            then states[i + 1].auth.rows[k].revokedAt == Some(calls[i].now)
                 && states[i + 1].auth.rows[k].reason == Some("EXPIRED")
            else states[i + 1].auth.rows[k] == states[i].auth.rows[k]
  {
    InvHolds(states, calls, mode, i);
    var s, c, s' := states[i], calls[i], states[i + 1];
    assert Next(s, c, mode, s');
    var q :| Refreshes(s, c, mode, q, s');
    var a := s.auth;
    assert a.rows[k].id in a.sessions && a.sessions[a.rows[k].id] == a.rows[k];
    assert a.rows[k].hash == c.hash <==> a.rows[k].id == a.byRefresh[c.hash];
  }

  /** A refresh for a deactivated user is refused; with writes kept the whole family is dead from then on. */
  lemma {:induction false} InactiveUserLosesTheFamily(
    states: seq<Sys>, calls: seq<Call>, i: nat, j: nat, r: Outcome)
    requires IsRun(states, calls, KeepWrites) && i < j < |states| && OfInactiveUser(states[i], calls[i])
    requires Answers(states[i], calls[i], r)
    ensures r == AccountInactive && Dead(states[j].auth.rows, FamilyOf(states[i].auth, calls[i].hash))
  {
    InvHolds(states, calls, KeepWrites, i);
    assert Next(states[i], calls[i], KeepWrites, states[i + 1]);
    var q :| Refreshes(states[i], calls[i], KeepWrites, q, states[i + 1]);
    hide Valid;
    FamilyOfIsKnown(states[i].auth, calls[i].hash);
    FamilyDies(states[i].auth.rows, FamilyOf(states[i].auth, calls[i].hash), calls[i].now, "ACCOUNT_INACTIVE");
    DeathIsPermanent(states, calls, KeepWrites, i + 1, j);
  }
}
