/** The session store and the calls that create, rotate and revoke sessions. Calls are serialized;
    what a failing call leaves behind depends on whether its rollback really undoes writes. */
module Sessions {
  import opened Basics
  import opened SessionFamilies

  /** The in-memory store keeps the writes of a failed transaction; a database undoes them. */
  datatype TxMode = KeepWrites | UndoWrites

  datatype User = User(active: bool, stamp: nat)

  datatype Principal = Principal(user: Id, session: Id, stamp: nat)

  /** How a refresh call ends, and why. */
  datatype Outcome =
    | Rotated(session: Id)
    | InvalidToken
    | ReplayDetected
    | UserMissing
    | AccountInactive
    | IssueFailed

  /** What a presented token turns out to be. */
  datatype Case = UnknownToken | WrongClient | Replay | Lapsed | NoUser | InactiveUser | Live

  function Classify(a: Auth, users: map<Id, User>, hash: Hash, client: Client, now: Time): Case
    requires hash in a.byRefresh ==> a.byRefresh[hash] in a.sessions
  {
    if hash !in a.byRefresh then UnknownToken
    else
      var s := a.sessions[a.byRefresh[hash]];
      if s.client != client then WrongClient
      else if IsRevoked(s) then Replay
      else if IsExpired(s, now) then Lapsed
      else if s.user !in users then NoUser
      else if !users[s.user].active then InactiveUser
      else Live
  }

  class AuthStore {
    var sessions: map<Id, Session>
    var byRefresh: map<Hash, Id>
    var users: map<Id, User>
    ghost var rows: seq<Session>
    ghost var rotated: seq<Hash>

    ghost function State(): Auth
      reads this`sessions, this`byRefresh, this`rows, this`rotated
    {
      Auth(sessions, byRefresh, rows, rotated)
    }

    constructor (users: map<Id, User>)
      ensures Valid(State()) && State() == Auth(map[], map[], [], []) && this.users == users
    {
      sessions, byRefresh, rows, rotated := map[], map[], [], [];
      this.users := users;
    }

    // -------------------------------------------------------------- repository

    method CreateSession(s: Session)
      modifies this`sessions, this`byRefresh, this`rows
      ensures State() == Add(old(State()), s)
    {
      sessions := sessions[s.id := s];
      byRefresh := byRefresh[s.hash := s.id];
      rows := rows + [s];
    }

    method RevokeSession(id: Id, now: Time, reason: string)
      requires Valid(State()) && id in sessions
      modifies this`sessions, this`rows
      ensures State() == Revoke(old(State()), OneSession(id), now, reason)
    {
      var s := sessions[id];
      if s.revokedAt.None? {
        s := s.(revokedAt := Some(now), reason := Some(reason));
      }
      ghost var was := sessions;
      IdsAreKeys(State());
      sessions := sessions[id := s];
      assert sessions == RevokeTable(was, OneSession(id), now, reason);
      rows := RevokeRows(rows, OneSession(id), now, reason);
    }

    /** Closes the session in favour of its replacement. */
    method RevokeReplaced(id: Id, now: Time, replacedBy: Id, ghost p: nat)
      requires id in sessions && p < |rows| && rows[p] == sessions[id]
      modifies this`sessions, this`rows
      ensures sessions == old(sessions)[id := Replaced(old(sessions)[id], replacedBy, now)]
      ensures rows == old(rows)[p := Replaced(old(rows)[p], replacedBy, now)]
    {
      var s := sessions[id];
      if s.revokedAt.None? {
        s := s.(revokedAt := Some(now), reason := Some("ROTATED"));
      }
      if s.replacedBy.None? {
        s := s.(replacedBy := Some(replacedBy));
      }
      sessions := sessions[id := s];
      rows := rows[p := s];
    }

    method RevokeWhere(t: Target, now: Time, reason: string)
      modifies this`sessions, this`rows
      ensures State() == Revoke(old(State()), t, now, reason)
    {
      ghost var was := sessions;
      ghost var goal := RevokeTable(was, t, now, reason);
      var todo := sessions.Keys;
      while todo != {}
        invariant sessions.Keys == was.Keys && todo <= was.Keys && rows == old(rows)
        invariant forall id :: id in was ==> sessions[id] == if id in todo then was[id] else goal[id]
        decreases todo
      {
        var id :| id in todo;
        todo := todo - {id};
        var s := sessions[id];
        if Hits(t, s) && s.revokedAt.None? {
          sessions := sessions[id := s.(revokedAt := Some(now), reason := Some(reason))];
        }
      }
      assert sessions == goal;
      rows := RevokeRows(rows, t, now, reason);
    }

    // -------------------------------------------------------------- login

    /** Creating the first session of a new family; `issued` is whether the access token could be signed. */
    method Login(
      user: Id, client: Client, now: Time, absTtl: int, idleTtl: int, id: Id, hash: Hash, family: Id,
      issued: bool, mode: TxMode) returns (ok: bool)
      requires Valid(State()) && FreshSession(State(), id, hash) && !Known(rows, family)
      modifies this`sessions, this`byRefresh, this`rows
      ensures Valid(State()) && Evolves(old(State()), State())
      ensures ok <==> issued
      ensures State() == if ok || mode == KeepWrites
                         then Add(old(State()), RootSession(id, user, client, hash, family, absTtl, idleTtl, now))
                         else old(State())
    {
      var s := Session(id, user, client, hash, family, None, now + absTtl, now + idleTtl, None, None, now, now);
      if s.idleExpiry > s.absoluteExpiry {
        s := s.(idleExpiry := s.absoluteExpiry);
      }
      RootKeeps(State(), s);
      var savedSessions, savedIndex := sessions, byRefresh;
      ghost var savedRows := rows;
      CreateSession(s);
      if !issued && mode == UndoWrites {
        sessions, byRefresh, rows := savedSessions, savedIndex, savedRows;
      }
      return issued;
    }

    // -------------------------------------------------------------- refresh

    /** Where a stored session sits in the creation order. */
    lemma {:induction false} Place(id: Id) returns (p: nat)
      requires Valid(State()) && id in sessions
      ensures p < |rows| && rows[p] == sessions[id] && rows[p].id == id
    {
      assert AllListed(sessions, rows);
      assert Listed(rows, sessions[id]);
      p :| p < |rows| && rows[p] == sessions[id];
    }

    /** The writes of a successful rotation. */
    method RotateSession(id: Id, now: Time, idleTtl: int, newId: Id, newHash: Hash)
      requires Valid(State()) && id in sessions && !IsRevoked(sessions[id]) && !IsExpired(sessions[id], now)
      requires FreshSession(State(), newId, newHash)
      modifies this`sessions, this`byRefresh, this`rows, this`rotated
      ensures Valid(State()) && Evolves(old(State()), State())
      ensures RotatedTo(old(State()), id, newId, newHash, idleTtl, now, State())
    {
      var sess := sessions[id];
      ghost var p := Place(id);
      ghost var was := State();
      var child := Session(newId, sess.user, sess.client, newHash, sess.family, None, sess.absoluteExpiry,
                           now + idleTtl, None, None, now, now);
      if child.idleExpiry > child.absoluteExpiry {
        child := child.(idleExpiry := child.absoluteExpiry);
      }
      RotateKeeps(was, p, child, now);
      CreateSession(child);
      RevokeReplaced(id, now, child.id, p);
      rotated := rotated + [sess.hash];
      assert rows == was.rows[p := Replaced(was.rows[p], child.id, now)] + [child];
      assert State() == Rotate(was, p, child, now);
    }

    /** The transaction body of a refresh. */
    method RefreshBody(hash: Hash, client: Client, now: Time, idleTtl: int, newId: Id, newHash: Hash, issued: bool)
      returns (r: Outcome)
      requires Valid(State()) && FreshSession(State(), newId, newHash)
      modifies this`sessions, this`byRefresh, this`rows, this`rotated
      ensures Valid(State()) && Evolves(old(State()), State())
      ensures Presented(old(State()), users, hash, client, now, issued, newId, r)
      ensures BodyEffect(old(State()), users, hash, client, now, idleTtl, newId, newHash, State())
    {
      hide Valid, Evolves, RotatedTo, Revoke, FreshSession;
      EvolvesSelf(State());
      TokensAreKeys(State());
      if hash !in byRefresh {
        return InvalidToken;
      }
      var sess := sessions[byRefresh[hash]];
      if sess.client != client {
        return InvalidToken;
      }
      if sess.revokedAt.Some? {
        RevokeKeeps(State(), WholeFamily(sess.family), now, "REFRESH_REPLAY");
        RevokeWhere(WholeFamily(sess.family), now, "REFRESH_REPLAY");
        return ReplayDetected;
      }
      if IsExpired(sess, now) {
        RevokeKeeps(State(), OneSession(byRefresh[hash]), now, "EXPIRED");
        RevokeSession(byRefresh[hash], now, "EXPIRED");
        return InvalidToken;
      }
      if sess.user !in users {
        return UserMissing;
      }
      if !users[sess.user].active {
        RevokeKeeps(State(), WholeFamily(sess.family), now, "ACCOUNT_INACTIVE");
        RevokeWhere(WholeFamily(sess.family), now, "ACCOUNT_INACTIVE");
        return AccountInactive;
      }
      // The check that the new session starts before its absolute expiry cannot fail here.
      assert now < sess.absoluteExpiry;
      RotateSession(byRefresh[hash], now, idleTtl, newId, newHash);
      return if issued then Rotated(newId) else IssueFailed;
    }

    method Refresh(
      token: Option<Hash>, client: Option<Client>, now: Time, idleTtl: int, newId: Id, newHash: Hash,
      issued: bool, mode: TxMode) returns (r: Outcome)
      requires Valid(State()) && FreshSession(State(), newId, newHash)
      modifies this`sessions, this`byRefresh, this`rows, this`rotated
      ensures Valid(State()) && Evolves(old(State()), State())
      ensures token.None? || client.None? ==> r == InvalidToken && State() == old(State())
      ensures token.Some? && client.Some? ==>
                && Presented(old(State()), users, token.value, client.value, now, issued, newId, r)
                && RefreshEffect(old(State()), users, token.value, client.value, now, idleTtl, newId, newHash, mode,
                    r, State())
    {
      hide Valid, Evolves, BodyEffect, Presented;
      EvolvesSelf(State());
      if token.None? || client.None? {
        return InvalidToken;
      }
      var savedSessions, savedIndex := sessions, byRefresh;
      ghost var savedRows, savedRotated := rows, rotated;
      r := RefreshBody(token.value, client.value, now, idleTtl, newId, newHash, issued);
      if !r.Rotated? && mode == UndoWrites {
        sessions, byRefresh, rows, rotated := savedSessions, savedIndex, savedRows, savedRotated;
      }
    }

    // -------------------------------------------------------------- revocation

    method Logout(principal: Option<Principal>, now: Time) returns (r: Result<()>)
      requires Valid(State())
      modifies this`sessions, this`rows
      ensures Valid(State()) && Evolves(old(State()), State())
      ensures r.Err? ==> State() == old(State())
      ensures r.Ok? <==> principal.Some? && principal.value.user in users && users[principal.value.user].active
                         && users[principal.value.user].stamp == principal.value.stamp
                         && principal.value.session in old(sessions)
                         && old(sessions)[principal.value.session].user == principal.value.user
      ensures r.Ok? ==> State() == Revoke(old(State()), OneSession(principal.value.session), now, "LOGOUT")
    {
      if principal.None? {
        return Err(Unauthenticated);
      }
      var p := principal.value;
      if p.user !in users {
        return Err(Unauthenticated);
      }
      if !users[p.user].active {
        return Err(Forbidden);
      }
      if users[p.user].stamp != p.stamp {
        return Err(Unauthenticated);
      }
      if p.session !in sessions {
        return Err(Unauthenticated);
      }
      if sessions[p.session].user != p.user {
        return Err(Unauthenticated);
      }
      RevokeKeeps(State(), OneSession(p.session), now, "LOGOUT");
      if sessions[p.session].revokedAt.Some? {
        RevokedAlready(State(), p.session, now, "LOGOUT");
        return Ok(());
      }
      RevokeSession(p.session, now, "LOGOUT");
      return Ok(());
    }

    method LogoutAllSessions(user: Id, now: Time) returns (r: Result<()>)
      requires Valid(State())
      modifies this`sessions, this`rows
      ensures Valid(State()) && Evolves(old(State()), State())
      ensures r.Err? ==> State() == old(State())
      ensures r.Ok? <==> user in users && users[user].active
      ensures r.Ok? ==> State() == Revoke(old(State()), AllOfUser(user), now, "LOGOUT_ALL")
      ensures r.Ok? ==> (forall id :: id in sessions && sessions[id].user == user ==> IsRevoked(sessions[id]))
                        && (forall id :: id in sessions && sessions[id].user != user ==>
                            sessions[id] == old(sessions)[id])
    {
      if user !in users {
        return Err(NotFound);
      }
      if !users[user].active {
        return Err(Forbidden);
      }
      RevokeKeeps(State(), AllOfUser(user), now, "LOGOUT_ALL");
      RevokeWhere(AllOfUser(user), now, "LOGOUT_ALL");
      return Ok(());
    }

    method RevokeMySession(user: Id, id: Id, now: Time) returns (r: Result<bool>)
      requires Valid(State())
      modifies this`sessions, this`rows
      ensures Valid(State()) && Evolves(old(State()), State())
      ensures r.Err? ==> State() == old(State())
      ensures r.Ok? <==> user in users && users[user].active && id in old(sessions) && old(sessions)[id].user == user
      ensures r.Ok? ==> State() == Revoke(old(State()), OneSession(id), now, "USER_REVOKE")
                        && r.value == !IsRevoked(old(sessions)[id])
    {
      if user !in users {
        return Err(NotFound);
      }
      if !users[user].active {
        return Err(Forbidden);
      }
      if id !in sessions || sessions[id].user != user {
        return Err(NotFound);
      }
      RevokeKeeps(State(), OneSession(id), now, "USER_REVOKE");
      if sessions[id].revokedAt.Some? {
        RevokedAlready(State(), id, now, "USER_REVOKE");
        return Ok(false);
      }
      RevokeSession(id, now, "USER_REVOKE");
      return Ok(true);
    }
  }

  // ---------------------------------------------------------------- what the contracts say

  lemma {:induction false} IdsAreKeys(a: Auth)
    requires Valid(a)
    ensures forall id :: id in a.sessions ==> a.sessions[id].id == id
  {
    forall id | id in a.sessions
      ensures a.sessions[id].id == id
    {
      var _ := Listed(a.rows, a.sessions[id]);
    }
  }

  lemma {:induction false} TokensAreKeys(a: Auth)
    requires Valid(a)
    ensures forall h :: h in a.byRefresh ==> a.byRefresh[h] in a.sessions
  {
  }

  ghost function FamilyOf(a: Auth, hash: Hash): Id {
    if hash in a.byRefresh && a.byRefresh[hash] in a.sessions then a.sessions[a.byRefresh[hash]].family else NIL_ID
  }

  lemma {:induction false} FamilyOfIsKnown(a: Auth, hash: Hash)
    requires Valid(a) && hash in a.byRefresh
    ensures Known(a.rows, FamilyOf(a, hash))
  {
    var id := a.byRefresh[hash];
    assert Listed(a.rows, a.sessions[id]);
  }

  /** The outcome follows from what the presented token is. */
  ghost predicate Presented(
    a: Auth, users: map<Id, User>, hash: Hash, client: Client, now: Time, issued: bool, newId: Id, r: Outcome)
  {
    && (hash in a.byRefresh ==> a.byRefresh[hash] in a.sessions)
    && r == match Classify(a, users, hash, client, now)
            case Replay => ReplayDetected
            case NoUser => UserMissing
            case InactiveUser => AccountInactive
            case Live => if issued then Rotated(newId) else IssueFailed
            case _ => InvalidToken
  }

  /** What the body of a refresh writes, before any rollback. */
  ghost predicate BodyEffect(
    a: Auth, users: map<Id, User>, hash: Hash, client: Client, now: Time, idleTtl: int, newId: Id, newHash: Hash,
        b: Auth)
  {
    && (hash in a.byRefresh ==> a.byRefresh[hash] in a.sessions)
    && match Classify(a, users, hash, client, now)
       case Replay => b == Revoke(a, WholeFamily(FamilyOf(a, hash)), now, "REFRESH_REPLAY")
       case Lapsed => b == Revoke(a, OneSession(a.byRefresh[hash]), now, "EXPIRED")
       case InactiveUser => b == Revoke(a, WholeFamily(FamilyOf(a, hash)), now, "ACCOUNT_INACTIVE")
       case Live => RotatedTo(a, a.byRefresh[hash], newId, newHash, idleTtl, now, b)
       case _ => b == a
  }

  /** A failed refresh leaves its writes behind exactly when the rollback does not undo them. */
  ghost predicate RefreshEffect(
    a: Auth, users: map<Id, User>, hash: Hash, client: Client, now: Time, idleTtl: int, newId: Id, newHash: Hash,
    mode: TxMode, r: Outcome, b: Auth)
  {
    if r.Rotated? || mode == KeepWrites then BodyEffect(a, users, hash, client, now, idleTtl, newId, newHash, b)
        else b == a
  }

  /** Presenting a spent token again, with the client it was issued to, ends its whole family in the
      in-memory store; under a rollback that undoes writes the family is dead only if it already was. */
  lemma {:induction false} ReplayEndsTheFamily(
    a: Auth, users: map<Id, User>, hash: Hash, client: Client, now: Time, idleTtl: int, newId: Id, newHash: Hash,
    issued: bool, mode: TxMode, b: Auth)
    requires Valid(a) && Presented(a, users, hash, client, now, issued, newId, ReplayDetected)
    requires RefreshEffect(a, users, hash, client, now, idleTtl, newId, newHash, mode, ReplayDetected, b)
    ensures Dead(b.rows, FamilyOf(a, hash)) <==> mode == KeepWrites || Dead(a.rows, FamilyOf(a, hash))
  {
    FamilyOfIsKnown(a, hash);
    FamilyDies(a.rows, FamilyOf(a, hash), now, "REFRESH_REPLAY");
  }

  /** Only a live session of a family that is not dead rotates, and its token is spent from then on. */
  lemma {:induction false} OnlyLiveTokensRotate(
    a: Auth, users: map<Id, User>, hash: Hash, client: Client, now: Time, idleTtl: int, newId: Id, newHash: Hash,
    issued: bool, mode: TxMode, b: Auth)
    requires Valid(a) && FreshSession(a, newId, newHash)
    requires Presented(a, users, hash, client, now, issued, newId, Rotated(newId))
    requires RefreshEffect(a, users, hash, client, now, idleTtl, newId, newHash, mode, Rotated(newId), b)
    ensures !Dead(a.rows, FamilyOf(a, hash)) && hash !in a.rotated && b.rotated == a.rotated + [hash]
    ensures newId in b.sessions && !IsRevoked(b.sessions[newId]) && b.sessions[newId].family == FamilyOf(a, hash)
  {
    var p :| 0 <= p < |a.rows| && a.rows[p].id == a.byRefresh[hash]
             && b == Rotate(a, p, ChildSession(a.rows[p], newId, newHash, idleTtl, now), now);
    assert a.sessions[a.rows[p].id] == a.rows[p];
    RotateKeeps(a, p, ChildSession(a.rows[p], newId, newHash, idleTtl, now), now);
  }

  ghost predicate RotatedTo(a: Auth, id: Id, newId: Id, newHash: Hash, idleTtl: int, now: Time, b: Auth) {
    exists p :: 0 <= p < |a.rows| && a.rows[p].id == id
                && b == Rotate(a, p, ChildSession(a.rows[p], newId, newHash, idleTtl, now), now)
  }

  lemma {:induction false} RevokedAlready(a: Auth, id: Id, now: Time, reason: string)
    requires Valid(a) && id in a.sessions && IsRevoked(a.sessions[id])
    ensures Revoke(a, OneSession(id), now, reason) == a
  {
    IdsAreKeys(a);
    assert RevokeTable(a.sessions, OneSession(id), now, reason) == a.sessions;
    assert RevokeRows(a.rows, OneSession(id), now, reason) == a.rows;
  }

  lemma {:induction false} LiveTokenPlace(
    a: Auth, users: map<Id, User>, hash: Hash, client: Client, now: Time, p: nat)
    requires Valid(a) && hash in a.byRefresh && a.byRefresh[hash] in a.sessions && p < |a.rows|
    requires Classify(a, users, hash, client, now) == Live && a.rows[p].id == a.byRefresh[hash]
    ensures !IsRevoked(a.rows[p])
  {
    assert a.sessions[a.rows[p].id] == a.rows[p];
  }

  /** A refresh keeps the families in order, whatever is presented and however it ends. */
  lemma {:induction false} RefreshKeeps(
    a: Auth, users: map<Id, User>, hash: Hash, client: Client, now: Time, idleTtl: int, newId: Id, newHash: Hash,
    mode: TxMode, r: Outcome, b: Auth)
    requires Valid(a) && FreshSession(a, newId, newHash)
    requires RefreshEffect(a, users, hash, client, now, idleTtl, newId, newHash, mode, r, b)
    ensures Valid(b) && Evolves(a, b)
  {
    hide Valid, Evolves;
    EvolvesSelf(a);
    TokensAreKeys(a);
    if b != a {
      match Classify(a, users, hash, client, now)
      case Replay => RevokeKeeps(a, WholeFamily(FamilyOf(a, hash)), now, "REFRESH_REPLAY");
      case Lapsed => RevokeKeeps(a, OneSession(a.byRefresh[hash]), now, "EXPIRED");
      case InactiveUser => RevokeKeeps(a, WholeFamily(FamilyOf(a, hash)), now, "ACCOUNT_INACTIVE");
      case Live =>
        var p :| 0 <= p < |a.rows| && a.rows[p].id == a.byRefresh[hash]
                 && b == Rotate(a, p, ChildSession(a.rows[p], newId, newHash, idleTtl, now), now);
        LiveTokenPlace(a, users, hash, client, now, p);
        RotateKeeps(a, p, ChildSession(a.rows[p], newId, newHash, idleTtl, now), now);
      case _ =>
    }
  }

  method LoginAndRotate() returns (store: AuthStore, first: Outcome)
    ensures fresh(store) && Valid(store.State()) && first == Rotated(2)
    ensures store.byRefresh == map[11 := 1, 12 := 2] && store.sessions.Keys == {1, 2}
    ensures store.sessions[1].family == 30 == store.sessions[2].family
    ensures store.sessions[1].client == PublicWeb && IsRevoked(store.sessions[1]) && !IsRevoked(store.sessions[2])
    ensures store.rows == [store.sessions[1], store.sessions[2]]
  {
    hide Valid, Evolves;
    store := new AuthStore(map[7 := User(true, 0)]);
    var ok := store.Login(7, PublicWeb, 0, 100, 10, 1, 11, 30, true, UndoWrites);
    first := store.Refresh(Some(11), Some(PublicWeb), 1, 10, 2, 12, true, UndoWrites);
  }

  /** A login, then its token is refreshed twice, under a rollback that undoes writes: the second refresh
      reports a replay, and the family is as live as before. */
  method ReplayUndone() returns (store: AuthStore, first: Outcome, second: Outcome)
    ensures Valid(store.State()) && first == Rotated(2) && second == ReplayDetected
    ensures Known(store.rows, 30) && !Dead(store.rows, 30)
  {
    hide Valid, Evolves;
    store, first := LoginAndRotate();
    second := store.Refresh(Some(11), Some(PublicWeb), 2, 10, 3, 13, true, UndoWrites);
    assert store.rows[1].family == 30 && !IsRevoked(store.rows[1]);
  }
}
