/** Refresh-token families: the sessions descended from one login by rotation. A table keeps
    the sessions by id and by token hash; `rows` lists them in the order they were created. */
module SessionFamilies {
  import opened Basics

  /** The hash of a refresh token. */
  type Hash = nat

  datatype Client = PublicWeb | MobileApp | AdminBackOffice

  datatype Session = Session(
    id: Id, user: Id, client: Client, hash: Hash, family: Id, replacedBy: Option<Id>,
    absoluteExpiry: Time, idleExpiry: Time, revokedAt: Option<Time>, reason: Option<string>,
    createdAt: Time, lastUsedAt: Time)

  /** rotated lists the tokens that have been exchanged for a new one. */
  datatype Auth = Auth(sessions: map<Id, Session>, byRefresh: map<Hash, Id>, rows: seq<Session>, rotated: seq<Hash>)

  predicate IsRevoked(s: Session) {
    s.revokedAt.Some?
  }

  predicate IsExpired(s: Session, now: Time) {
    now >= s.absoluteExpiry || now >= s.idleExpiry
  }

  // ---------------------------------------------------------------- chains

  predicate Relatives(rows: seq<Session>, i: int, j: int) {
    0 <= i < j < |rows| && rows[i].family == rows[j].family
  }

  /** j is the next session of i's family. */
  ghost predicate Successor(rows: seq<Session>, i: int, j: int) {
    Relatives(rows, i, j) && forall k :: i < k < j ==> !Relatives(rows, i, k)
  }

  ghost predicate IsLast(rows: seq<Session>, i: int) {
    0 <= i < |rows| && forall j :: !Relatives(rows, i, j)
  }

  ghost predicate Linked(rows: seq<Session>) {
    && (forall i, j :: Successor(rows, i, j) ==> rows[i].replacedBy == Some(rows[j].id))
    && (forall i :: IsLast(rows, i) ==> rows[i].replacedBy == None)
  }

  predicate SameOwner(s: Session, t: Session) {
    s.user == t.user && s.client == t.client && s.absoluteExpiry == t.absoluteExpiry
  }

  ghost predicate ClosedBehind(rows: seq<Session>) {
    forall i, j :: Relatives(rows, i, j) ==> IsRevoked(rows[i]) && SameOwner(rows[i], rows[j])
  }

  predicate Capped(rows: seq<Session>) {
    forall i :: 0 <= i < |rows| ==> rows[i].idleExpiry <= rows[i].absoluteExpiry
  }

  /** Every family is a chain: linked by replacedBy in creation order, only its last session can be
      live, and owner, client and absolute expiry never change along it. */
  ghost predicate Chained(rows: seq<Session>) {
    Linked(rows) && ClosedBehind(rows) && Capped(rows)
  }

  // ---------------------------------------------------------------- the table

  ghost predicate Listed(rows: seq<Session>, s: Session) {
    exists i :: 0 <= i < |rows| && rows[i] == s
  }

  ghost predicate Stored(sessions: map<Id, Session>, rows: seq<Session>) {
    && (forall i :: 0 <= i < |rows| ==> rows[i].id in sessions && sessions[rows[i].id] == rows[i])
    && (forall i, j :: 0 <= i < j < |rows| ==> rows[i].id != rows[j].id)
  }

  ghost predicate AllListed(sessions: map<Id, Session>, rows: seq<Session>) {
    forall id {:trigger Listed(rows, sessions[id])} ::
      id in sessions ==> sessions[id].id == id && Listed(rows, sessions[id])
  }

  ghost predicate Hashed(sessions: map<Id, Session>, byRefresh: map<Hash, Id>) {
    && (forall id :: id in sessions ==> sessions[id].hash in byRefresh && byRefresh[sessions[id].hash] == id)
    && (forall h :: h in byRefresh ==> byRefresh[h] in sessions && sessions[byRefresh[h]].hash == h)
  }

  /** The table, its hash index and the creation order agree. */
  ghost predicate Indexed(sessions: map<Id, Session>, byRefresh: map<Hash, Id>, rows: seq<Session>) {
    match rows
    case _ => Stored(sessions, rows) && AllListed(sessions, rows) && Hashed(sessions, byRefresh)
  }

  /** A token rotates at most once, and a rotated one is spent. */
  ghost predicate RotationsOk(sessions: map<Id, Session>, byRefresh: map<Hash, Id>, rotated: seq<Hash>) {
    && (forall i, j :: 0 <= i < j < |rotated| ==> rotated[i] != rotated[j])
    && (forall i :: 0 <= i < |rotated| ==>
          rotated[i] in byRefresh && byRefresh[rotated[i]] in sessions && IsRevoked(sessions[byRefresh[rotated[i]]]))
  }

  ghost predicate Valid(a: Auth) {
    match a
    case Auth(sessions, byRefresh, rows, rotated) =>
      Indexed(sessions, byRefresh, rows) && Chained(rows) && RotationsOk(sessions, byRefresh, rotated)
  }

  // ---------------------------------------------------------------- what every step keeps

  ghost predicate Known(rows: seq<Session>, family: Id) {
    exists i :: 0 <= i < |rows| && rows[i].family == family
  }

  ghost predicate Dead(rows: seq<Session>, family: Id) {
    Known(rows, family) && forall i :: 0 <= i < |rows| && rows[i].family == family ==> IsRevoked(rows[i])
  }

  /** Everything about a session is fixed when it is created, but for its end; and that is written once. */
  predicate SameSession(s: Session, s': Session) {
    && s'.id == s.id && s'.user == s.user && s'.client == s.client && s'.hash == s.hash && s'.family == s.family
    && s'.absoluteExpiry == s.absoluteExpiry && s'.idleExpiry == s.idleExpiry && s'.createdAt == s.createdAt
    && (s.revokedAt.Some? ==> s'.revokedAt == s.revokedAt && s'.reason == s.reason)
    && (s.replacedBy.Some? ==> s'.replacedBy == s.replacedBy)
  }

  /** Sessions are never removed or revived, and no dead family gains a live session. */
  ghost predicate RowsEvolve(rows: seq<Session>, rows': seq<Session>) {
    && |rows| <= |rows'|
    && (forall i :: 0 <= i < |rows| ==>
          SameSession(rows[i], rows'[i]) && (IsRevoked(rows[i]) ==> IsRevoked(rows'[i])))
    && (forall family :: Dead(rows, family) ==> Dead(rows', family))
  }

  ghost predicate Evolves(a: Auth, b: Auth) {
    a.rotated <= b.rotated && RowsEvolve(a.rows, b.rows)
  }

  lemma {:induction false} EvolvesSelf(a: Auth)
    ensures Evolves(a, a)
  {
  }

  lemma {:induction false} EvolvesOn(a: Auth, b: Auth, c: Auth)
    requires Evolves(a, b) && Evolves(b, c)
    ensures Evolves(a, c)
  {
  }

  // ---------------------------------------------------------------- revoking

  function Revoked(s: Session, now: Time, reason: string): Session {
    if s.revokedAt.None? then s.(revokedAt := Some(now), reason := Some(reason)) else s
  }

  datatype Target = OneSession(id: Id) | WholeFamily(family: Id) | AllOfUser(user: Id)

  predicate Hits(t: Target, s: Session) {
    match t
    case OneSession(id) => s.id == id
    case WholeFamily(family) => s.family == family
    case AllOfUser(user) => s.user == user
  }

  function RevokedIf(s: Session, t: Target, now: Time, reason: string): Session {
    if Hits(t, s) then Revoked(s, now, reason) else s
  }

  function RevokeTable(sessions: map<Id, Session>, t: Target, now: Time, reason: string): map<Id, Session> {
    map id | id in sessions :: RevokedIf(sessions[id], t, now, reason)
  }

  function RevokeRows(rows: seq<Session>, t: Target, now: Time, reason: string): (rows': seq<Session>)
    ensures |rows'| == |rows| && forall i :: 0 <= i < |rows| ==> rows'[i] == RevokedIf(rows[i], t, now, reason)
  {
    seq(|rows|, i requires 0 <= i < |rows| => RevokedIf(rows[i], t, now, reason))
  }

  /** Every session the target names is revoked unless it already was. */
  function Revoke(a: Auth, t: Target, now: Time, reason: string): Auth {
    Auth(RevokeTable(a.sessions, t, now, reason), a.byRefresh, RevokeRows(a.rows, t, now, reason), a.rotated)
  }

  lemma {:induction false} RevokeShape(rows: seq<Session>, t: Target, now: Time, reason: string)
    ensures var rows' := RevokeRows(rows, t, now, reason);
            && (forall i, j :: Relatives(rows', i, j) <==> Relatives(rows, i, j))
            && (forall i, j :: Successor(rows', i, j) <==> Successor(rows, i, j))
            && (forall i :: IsLast(rows', i) <==> IsLast(rows, i))
  {
    var rows' := RevokeRows(rows, t, now, reason);
    forall i, j
      ensures Relatives(rows', i, j) <==> Relatives(rows, i, j)
    {
    }
  }

  lemma {:induction false} RevokeChained(rows: seq<Session>, t: Target, now: Time, reason: string)
    requires Chained(rows)
    ensures Chained(RevokeRows(rows, t, now, reason)) && RowsEvolve(rows, RevokeRows(rows, t, now, reason))
  {
    RevokeShape(rows, t, now, reason);
    var rows' := RevokeRows(rows, t, now, reason);
    forall family | Dead(rows, family)
      ensures Dead(rows', family)
    {
      var i :| 0 <= i < |rows| && rows[i].family == family;
      assert rows'[i].family == family;
    }
  }

  lemma {:induction false} RevokeStored(
    sessions: map<Id, Session>, rows: seq<Session>, t: Target, now: Time, reason: string)
    requires Stored(sessions, rows) && AllListed(sessions, rows)
    ensures Stored(RevokeTable(sessions, t, now, reason), RevokeRows(rows, t, now, reason))
    ensures AllListed(RevokeTable(sessions, t, now, reason), RevokeRows(rows, t, now, reason))
  {
    var sessions', rows' := RevokeTable(sessions, t, now, reason), RevokeRows(rows, t, now, reason);
    forall id | id in sessions'
      ensures sessions'[id].id == id && Listed(rows', sessions'[id])
    {
      assert Listed(rows, sessions[id]);
      var i :| 0 <= i < |rows| && rows[i] == sessions[id];
      assert rows'[i] == sessions'[id];
    }
  }

  lemma {:induction false} RevokeHashed(
    sessions: map<Id, Session>, byRefresh: map<Hash, Id>, t: Target, now: Time, reason: string)
    requires Hashed(sessions, byRefresh)
    ensures Hashed(RevokeTable(sessions, t, now, reason), byRefresh)
  {
  }

  lemma {:induction false} RevokeRotations(a: Auth, t: Target, now: Time, reason: string)
    requires RotationsOk(a.sessions, a.byRefresh, a.rotated)
    ensures RotationsOk(RevokeTable(a.sessions, t, now, reason), a.byRefresh, a.rotated)
  {
  }

  /** Revoking keeps the chains and never brings a family back. */
  lemma {:induction false} RevokeKeeps(a: Auth, t: Target, now: Time, reason: string)
    requires Valid(a)
    ensures Valid(Revoke(a, t, now, reason)) && Evolves(a, Revoke(a, t, now, reason))
  {
    RevokeStored(a.sessions, a.rows, t, now, reason);
    RevokeHashed(a.sessions, a.byRefresh, t, now, reason);
    RevokeRotations(a, t, now, reason);
    RevokeChained(a.rows, t, now, reason);
  }

  lemma {:induction false} FamilyDies(rows: seq<Session>, family: Id, now: Time, reason: string)
    requires Known(rows, family)
    ensures Dead(RevokeRows(rows, WholeFamily(family), now, reason), family)
  {
    var i :| 0 <= i < |rows| && rows[i].family == family;
    assert RevokeRows(rows, WholeFamily(family), now, reason)[i].family == family;
  }

  // ---------------------------------------------------------------- creating

  function Add(a: Auth, s: Session): Auth {
    Auth(a.sessions[s.id := s], a.byRefresh[s.hash := s.id], a.rows + [s], a.rotated)
  }

  predicate FreshSession(a: Auth, id: Id, hash: Hash) {
    id !in a.sessions && hash !in a.byRefresh
  }

  function Cap(idle: Time, absolute: Time): Time {
    if idle > absolute then absolute else idle
  }

  function RootSession(
    id: Id, user: Id, client: Client, hash: Hash, family: Id, absTtl: int, idleTtl: int, now: Time): Session
  {
    Session(id, user, client, hash, family, None, now + absTtl, Cap(now + idleTtl, now + absTtl), None, None, now, now)
  }

  lemma {:induction false} AddStored(sessions: map<Id, Session>, rows: seq<Session>, s: Session)
    requires Stored(sessions, rows) && AllListed(sessions, rows) && s.id !in sessions
    ensures Stored(sessions[s.id := s], rows + [s]) && AllListed(sessions[s.id := s], rows + [s])
  {
    var sessions', rows' := sessions[s.id := s], rows + [s];
    assert rows'[|rows|] == s;
    forall id | id in sessions
      ensures sessions[id].id == id && Listed(rows', sessions[id])
    {
      assert Listed(rows, sessions[id]);
      var i :| 0 <= i < |rows| && rows[i] == sessions[id];
      assert rows'[i] == sessions[id];
    }
  }

  lemma {:induction false} AddHashed(sessions: map<Id, Session>, byRefresh: map<Hash, Id>, s: Session)
    requires Hashed(sessions, byRefresh) && s.id !in sessions && s.hash !in byRefresh
    ensures Hashed(sessions[s.id := s], byRefresh[s.hash := s.id])
  {
  }

  lemma {:induction false} RootChained(rows: seq<Session>, s: Session)
    requires Chained(rows) && !Known(rows, s.family) && s.replacedBy == None && s.idleExpiry <= s.absoluteExpiry
    ensures Chained(rows + [s])
  {
    var rows' := rows + [s];
    forall i, j
      ensures Relatives(rows', i, j) <==> Relatives(rows, i, j)
    {
    }
    forall i, j | Successor(rows', i, j)
      ensures Successor(rows, i, j)
    {
    }
    forall i | IsLast(rows', i) && i < |rows|
      ensures IsLast(rows, i)
    {
    }
  }

  lemma {:induction false} DeadAfterAdd(rows: seq<Session>, s: Session)
    requires !Dead(rows, s.family)
    ensures RowsEvolve(rows, rows + [s])
  {
    var rows' := rows + [s];
    forall family | Dead(rows, family)
      ensures Dead(rows', family)
    {
      var i :| 0 <= i < |rows| && rows[i].family == family;
      assert rows'[i].family == family;
    }
  }

  /** A login starts a new chain. */
  lemma {:induction false} RootKeeps(a: Auth, s: Session)
    requires Valid(a) && FreshSession(a, s.id, s.hash) && !Known(a.rows, s.family)
    requires s.replacedBy == None && s.idleExpiry <= s.absoluteExpiry
    ensures Valid(Add(a, s)) && Evolves(a, Add(a, s))
  {
    AddStored(a.sessions, a.rows, s);
    AddHashed(a.sessions, a.byRefresh, s);
    RootChained(a.rows, s);
    DeadAfterAdd(a.rows, s);
  }

  // ---------------------------------------------------------------- rotating

  function ChildSession(parent: Session, id: Id, hash: Hash, idleTtl: int, now: Time): Session {
    Session(id, parent.user, parent.client, hash, parent.family, None, parent.absoluteExpiry,
            Cap(now + idleTtl, parent.absoluteExpiry), None, None, now, now)
  }

  function Replaced(parent: Session, child: Id, now: Time): Session {
    var p := Revoked(parent, now, "ROTATED");
    if p.replacedBy.None? then p.(replacedBy := Some(child)) else p
  }

  /** The session at position p is closed in favour of its child. */
  function Rotate(a: Auth, p: nat, child: Session, now: Time): Auth
    requires p < |a.rows|
  {
    var parent := a.rows[p];
    var closed := Replaced(parent, child.id, now);
    Auth(a.sessions[child.id := child][parent.id := closed], a.byRefresh[child.hash := child.id],
         a.rows[p := closed] + [child], a.rotated + [parent.hash])
  }

  /** The child carries on its parent. */
  predicate ChildOf(child: Session, parent: Session) {
    && child.replacedBy == None && child.family == parent.family && SameOwner(child, parent)
    && child.idleExpiry <= child.absoluteExpiry
  }

  /** A live session is the last of its family. */
  lemma {:induction false} LiveIsLast(rows: seq<Session>, p: nat)
    requires Chained(rows) && p < |rows| && !IsRevoked(rows[p])
    ensures IsLast(rows, p) && rows[p].replacedBy == None
  {
  }

  lemma {:induction false} CloseStored(sessions: map<Id, Session>, rows: seq<Session>, p: nat, closed: Session)
    requires Stored(sessions, rows) && AllListed(sessions, rows) && p < |rows| && closed.id == rows[p].id
    ensures Stored(sessions[closed.id := closed], rows[p := closed])
    ensures AllListed(sessions[closed.id := closed], rows[p := closed])
  {
    var sessions', rows' := sessions[closed.id := closed], rows[p := closed];
    assert rows'[p] == closed;
    forall id | id in sessions && id != closed.id
      ensures sessions[id].id == id && Listed(rows', sessions[id])
    {
      assert Listed(rows, sessions[id]);
      var i :| 0 <= i < |rows| && rows[i] == sessions[id];
      assert rows'[i] == sessions[id];
    }
  }

  lemma {:induction false} RotateIndexed(a: Auth, p: nat, child: Session, now: Time)
    requires Indexed(a.sessions, a.byRefresh, a.rows) && p < |a.rows| && FreshSession(a, child.id, child.hash)
    ensures var c := Rotate(a, p, child, now); Indexed(c.sessions, c.byRefresh, c.rows)
  {
    var closed := Replaced(a.rows[p], child.id, now);
    assert a.rows[p].id in a.sessions;
    CloseStored(a.sessions, a.rows, p, closed);
    AddStored(a.sessions[closed.id := closed], a.rows[p := closed], child);
    AddHashed(a.sessions, a.byRefresh, child);
    assert a.sessions[child.id := child][closed.id := closed] == a.sessions[closed.id := closed][child.id := child];
    CloseHashed(a.sessions[child.id := child], a.byRefresh[child.hash := child.id], closed);
  }

  lemma {:induction false} CloseHashed(sessions: map<Id, Session>, byRefresh: map<Hash, Id>, closed: Session)
    requires Hashed(sessions, byRefresh) && closed.id in sessions && sessions[closed.id].hash == closed.hash
    ensures Hashed(sessions[closed.id := closed], byRefresh)
  {
  }

  lemma {:induction false} RotateRelatives(rows: seq<Session>, p: nat, closed: Session, child: Session)
    requires p < |rows| && IsLast(rows, p) && closed.family == rows[p].family == child.family
    ensures var rows' := rows[p := closed] + [child];
            forall i, j :: Relatives(rows', i, j) <==>
                           Relatives(rows, i, j) || (j == |rows| && (i == p || Relatives(rows, i, p)))
  {
    var rows' := rows[p := closed] + [child];
    forall i, j
      ensures Relatives(rows', i, j) <==>
              Relatives(rows, i, j) || (j == |rows| && (i == p || Relatives(rows, i, p)))
    {
      if j == |rows| && 0 <= i < |rows| {
        assert !Relatives(rows, p, i);
      }
    }
  }

  lemma {:induction false} RotateLinked(rows: seq<Session>, p: nat, closed: Session, child: Session)
    requires Linked(rows) && p < |rows| && IsLast(rows, p) && closed.family == rows[p].family == child.family
    requires closed.id == rows[p].id && closed.replacedBy == Some(child.id) && child.replacedBy == None
    ensures Linked(rows[p := closed] + [child])
  {
    var rows' := rows[p := closed] + [child];
    RotateRelatives(rows, p, closed, child);
    forall i, j | Successor(rows', i, j)
      ensures rows'[i].replacedBy == Some(rows'[j].id)
    {
      if j < |rows| {
        assert Successor(rows, i, j);
        assert i == p ==> !Relatives(rows, i, j);
      } else {
        assert Relatives(rows, i, p) ==> Relatives(rows', i, p);
      }
    }
    forall i | IsLast(rows', i)
      ensures rows'[i].replacedBy == None
    {
      assert !Relatives(rows', p, |rows|) || i != p;
      assert i < |rows| ==> IsLast(rows, i);
    }
  }

  /** Rotation extends the chain by one and closes the old end. */
  lemma {:induction false} RotateChained(rows: seq<Session>, p: nat, closed: Session, child: Session)
    requires Chained(rows) && p < |rows| && IsLast(rows, p) && ChildOf(child, rows[p])
    requires closed.id == rows[p].id && closed.family == rows[p].family && IsRevoked(closed)
              && SameOwner(closed, rows[p])
    requires closed.replacedBy == Some(child.id) && closed.idleExpiry <= closed.absoluteExpiry
    ensures Chained(rows[p := closed] + [child])
  {
    RotateLinked(rows, p, closed, child);
    RotateRelatives(rows, p, closed, child);
  }

  lemma {:induction false} RotateEvolves(rows: seq<Session>, p: nat, closed: Session, child: Session)
    requires p < |rows| && !IsRevoked(rows[p]) && child.family == rows[p].family
    requires SameSession(rows[p], closed)
    ensures RowsEvolve(rows, rows[p := closed] + [child])
  {
    var rows' := rows[p := closed] + [child];
    forall family | Dead(rows, family)
      ensures Dead(rows', family)
    {
      var i :| 0 <= i < |rows| && rows[i].family == family;
      assert rows'[i].family == family;
    }
  }

  lemma {:induction false} RotateRecorded(a: Auth, p: nat, child: Session, now: Time)
    requires Indexed(a.sessions, a.byRefresh, a.rows) && RotationsOk(a.sessions, a.byRefresh, a.rotated)
    requires p < |a.rows| && !IsRevoked(a.rows[p]) && FreshSession(a, child.id, child.hash)
    ensures var c := Rotate(a, p, child, now); RotationsOk(c.sessions, c.byRefresh, c.rotated)
    ensures a.rows[p].hash !in a.rotated
  {
  }

  /** Rotating a live session keeps the chains, and its token had not been rotated before. */
  lemma {:induction false} RotateKeeps(a: Auth, p: nat, child: Session, now: Time)
    requires Valid(a) && p < |a.rows| && !IsRevoked(a.rows[p])
    requires FreshSession(a, child.id, child.hash) && ChildOf(child, a.rows[p])
    ensures Valid(Rotate(a, p, child, now)) && Evolves(a, Rotate(a, p, child, now))
    ensures a.rows[p].hash !in a.rotated
  {
    LiveIsLast(a.rows, p);
    RotateIndexed(a, p, child, now);
    RotateChained(a.rows, p, Replaced(a.rows[p], child.id, now), child);
    RotateEvolves(a.rows, p, Replaced(a.rows[p], child.id, now), child);
    RotateRecorded(a, p, child, now);
  }

  /** A family has at most one live session. */
  lemma {:induction false} AtMostOneLive(a: Auth, i: nat, j: nat)
    requires Valid(a) && i < |a.rows| && j < |a.rows| && a.rows[i].family == a.rows[j].family
    requires !IsRevoked(a.rows[i]) && !IsRevoked(a.rows[j])
    ensures i == j
  {
    assert i < j ==> Relatives(a.rows, i, j);
    assert j < i ==> Relatives(a.rows, j, i);
  }

  /** Following replacedBy from a session visits the rest of its family in creation order. */
  lemma {:induction false} ChainIsFollowed(a: Auth, i: nat)
    requires Valid(a) && i < |a.rows|
    ensures a.rows[i].replacedBy.None? <==> IsLast(a.rows, i)
    ensures a.rows[i].replacedBy.Some? ==>
              exists j :: Successor(a.rows, i, j) && a.rows[i].replacedBy == Some(a.rows[j].id)
  {
    if !IsLast(a.rows, i) {
      var j :| Relatives(a.rows, i, j);
      var k := FirstRelative(a.rows, i, j);
      assert Successor(a.rows, i, k);
    }
  }

  lemma {:induction false} FirstRelative(rows: seq<Session>, i: int, j: int) returns (k: int)
    requires Relatives(rows, i, j)
    ensures Successor(rows, i, k)
    decreases j
  {
    if m :| i < m < j && Relatives(rows, i, m) {
      k := FirstRelative(rows, i, m);
    } else {
      k := j;
    }
  }
}
