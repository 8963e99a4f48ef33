/** The scheduler that expires package assignments: bounded batches of due assignments, each of
    which also ends the advert's urgent activation and takes a published advert down. */
module Expiry {
  import opened Basics
  import opened Entitlements
  import opened Listing
  import opened Strides

  const MAX_BATCHES := 1000
  const PACKAGE_EXPIRED := "PACKAGE_EXPIRED"

  datatype Snapshot = Snapshot(owner: Id, status: AdvertStatus)

  /** Assignments by id, urgent activations and adverts by advert. */
  datatype State = State(assignments: map<Id, Assignment>, urgent: map<int, Activation>, adverts: map<int, Snapshot>)

  predicate Due(a: Assignment, now: Time) {
    a.status == ActiveAssignment && a.endsAt.Some? && a.endsAt.value <= now
  }

  ghost function DueIds(assignments: map<Id, Assignment>, now: Time): set<Id> {
    set id | id in assignments && Due(assignments[id], now)
  }

  /** The due assignments in the order the scheduler takes them. */
  ghost function DueList(assignments: map<Id, Assignment>, now: Time): seq<Id> {
    ListingOf(DueIds(assignments, now))
  }

  // ---------------------------------------------------------------- what expiring a set does

  function ExpiredRow(a: Assignment, now: Time): Assignment {
    a.(status := Expired, closedAt := Some(now), updatedAt := now)
  }

  function UrgentOff(f: Activation, now: Time): Activation {
    if f.active then Deactivated(f, now, Some(PACKAGE_EXPIRED)) else f
  }

  function TakenDown(a: Snapshot): Snapshot {
    if a.status == Published then a.(status := Suspended) else a
  }

  /** The adverts the first n assignments of the list belong to. */
  ghost predicate Affected(assignments: map<Id, Assignment>, ids: seq<Id>, advert: int) {
    exists i :: 0 <= i < |ids| && ids[i] in assignments && assignments[ids[i]].advert == advert
  }

  /** Exactly the listed assignments are expired, exactly their adverts lose a live urgent activation
      and a published status, and nothing else changes. */
  ghost predicate ExpiredExactly(s: State, ids: seq<Id>, now: Time, s': State) {
    match (s, s')
    case (State(assignments, urgent, adverts), State(assignments', urgent', adverts')) =>
      && assignments'.Keys == assignments.Keys && urgent'.Keys == urgent.Keys && adverts'.Keys == adverts.Keys
      && (forall id :: id in assignments ==>
            assignments'[id] == if id in ids then ExpiredRow(assignments[id], now) else assignments[id])
      && (forall a :: a in urgent ==>
            urgent'[a] == if Affected(assignments, ids, a) then UrgentOff(urgent[a], now) else urgent[a])
      && (forall a :: a in adverts ==>
            adverts'[a] == if Affected(assignments, ids, a) then TakenDown(adverts[a]) else adverts[a])
  }

  lemma {:induction false} NothingExpired(s: State, now: Time)
    ensures ExpiredExactly(s, [], now, s)
  {
  }

  lemma {:induction false} AffectedConcat(assignments: map<Id, Assignment>, a: seq<Id>, b: seq<Id>, advert: int)
    ensures Affected(assignments, a + b, advert) <==>
            Affected(assignments, a, advert) || Affected(assignments, b, advert)
  {
    if Affected(assignments, a, advert) {
      var i :| 0 <= i < |a| && a[i] in assignments && assignments[a[i]].advert == advert;
      assert (a + b)[i] == a[i];
    }
    if Affected(assignments, b, advert) {
      var i :| 0 <= i < |b| && b[i] in assignments && assignments[b[i]].advert == advert;
      assert (a + b)[|a| + i] == b[i];
    }
  }

  lemma {:induction false} AffectedSame(
    before: map<Id, Assignment>, after: map<Id, Assignment>, ids: seq<Id>, advert: int)
    requires before.Keys == after.Keys && forall id :: id in before ==> after[id].advert == before[id].advert
    ensures Affected(after, ids, advert) <==> Affected(before, ids, advert)
  {
  }

  /** Expiring one list and then another is expiring both. */
  lemma {:induction false} ExpireMore(s: State, a: seq<Id>, b: seq<Id>, now: Time, mid: State, s': State)
    requires ExpiredExactly(s, a, now, mid) && ExpiredExactly(mid, b, now, s')
    requires forall id :: id in b ==> id !in a
    ensures ExpiredExactly(s, a + b, now, s')
  {
    forall x
      ensures Affected(s.assignments, a + b, x) <==> Affected(s.assignments, a, x) || Affected(mid.assignments, b, x)
    {
      AffectedConcat(s.assignments, a, b, x);
      AffectedSame(s.assignments, mid.assignments, b, x);
    }
  }

  lemma {:induction false} KeysStay(s: State, ids: seq<Id>, now: Time, s': State)
    requires ExpiredExactly(s, ids, now, s')
    ensures s'.assignments.Keys == s.assignments.Keys
  {
  }

  lemma {:induction false} DueListFacts(assignments: map<Id, Assignment>, now: Time)
    ensures var l := DueList(assignments, now);
            && (forall i :: 0 <= i < |l| ==> l[i] in assignments)
            && (forall i, j :: 0 <= i < j < |l| ==> l[i] != l[j])
  {
    var l := DueList(assignments, now);
    assert Ascending(l);
    assert forall i :: 0 <= i < |l| ==> l[i] in DueIds(assignments, now);
  }

  /** What is due after a prefix of the list is expired is the rest of the list. */
  lemma {:induction false} RestIsDue(s: State, n: nat, now: Time, s': State)
    requires n <= |DueList(s.assignments, now)|
    requires ExpiredExactly(s, DueList(s.assignments, now)[..n], now, s')
    ensures DueList(s'.assignments, now) == DueList(s.assignments, now)[n..]
  {
    var l, l' := DueList(s.assignments, now), DueList(s'.assignments, now);
    var head, tail := l[..n], l[n..];
    assert l == head + tail;
    forall id
      ensures id in l' <==> id in tail
    {
      assert id in l <==> id in DueIds(s.assignments, now);
      assert id in l' <==> id in DueIds(s'.assignments, now);
      NotInBoth(l, n, id);
    }
    assert Ascending(tail);
    ListingUnique(l', tail);
  }

  lemma {:induction false} NotInBoth(l: seq<Id>, n: nat, id: Id)
    requires Ascending(l) && n <= |l|
    ensures !(id in l[..n] && id in l[n..])
    ensures id in l <==> id in l[..n] || id in l[n..]
  {
    assert l == l[..n] + l[n..];
  }

  class ExpiryStore {
    var assignments: map<Id, Assignment>
    var urgent: map<int, Activation>
    var adverts: map<int, Snapshot>

    ghost function Now(): State
      reads this
    {
      State(assignments, urgent, adverts)
    }

    method CollectDue(before: Time) returns (ids: seq<Id>)
      ensures forall i, j :: 0 <= i < j < |ids| ==> ids[i] != ids[j]
      ensures forall x :: x in ids <==> x in DueIds(assignments, before)
    {
      ids := [];
      var todo := assignments.Keys;
      while todo != {}
        invariant todo <= assignments.Keys
        invariant forall i, j :: 0 <= i < j < |ids| ==> ids[i] != ids[j]
        invariant forall x :: x in ids <==> x in assignments && x !in todo && Due(assignments[x], before)
        decreases todo
      {
        var id :| id in todo;
        todo := todo - {id};
        var a := assignments[id];
        if a.status != ActiveAssignment || a.endsAt.None? {
          continue;
        }
        if a.endsAt.value > before {
          continue;
        }
        ids := ids + [id];
      }
    }

    method ListActivePastEndsAt(before: Time, limit: nat) returns (ids: seq<Id>)
      ensures ids == Take(DueList(assignments, before), limit)
    {
      var found := CollectDue(before);
      SortLists(found);
      ListingUnique(Sort(found), DueList(assignments, before));
      ids := Sort(found);
      if |ids| > limit {
        ids := ids[..limit];
      }
    }

    method MarkAssignmentExpired(id: Id, now: Time) returns (r: Result<()>)
      modifies this`assignments
      ensures r == if id in old(assignments) then Ok(()) else Err(NotFound)
      ensures assignments == if r.Ok? then old(assignments)[id := ExpiredRow(old(assignments)[id], now)]
                else old(assignments)
    {
      if id !in assignments {
        return Err(NotFound);
      }
      assignments := assignments[id := ExpiredRow(assignments[id], now)];
      return Ok(());
    }

    method DeactivateActiveUrgent(advert: int, now: Time)
      modifies this`urgent
      ensures urgent == if advert in old(urgent) then old(urgent)[advert := UrgentOff(old(urgent)[advert], now)]
                else old(urgent)
    {
      if advert in urgent && urgent[advert].active {
        urgent := urgent[advert := Deactivated(urgent[advert], now, Some(PACKAGE_EXPIRED))];
      }
      assert advert in old(urgent) ==> urgent == old(urgent)[advert := UrgentOff(old(urgent)[advert], now)];
    }

    method SuspendPublished(advert: int)
      modifies this`adverts
      ensures adverts == if advert in old(adverts) then old(adverts)[advert := TakenDown(old(adverts)[advert])]
                else old(adverts)
    {
      if advert in adverts && adverts[advert].status == Published {
        adverts := adverts[advert := adverts[advert].(status := Suspended)];
      }
      assert advert in old(adverts) ==> adverts == old(adverts)[advert := TakenDown(old(adverts)[advert])];
    }

    method ExpireOne(id: Id, now: Time)
      requires id in assignments
      modifies this
      ensures ExpiredExactly(old(Now()), [id], now, Now())
    {
      var advert := assignments[id].advert;
      assert forall a :: Affected(assignments, [id], a) <==> a == advert by {
        assert [id][0] == id;
      }
      var marked := MarkAssignmentExpired(id, now);
      assert marked == Ok(());
      DeactivateActiveUrgent(advert, now);
      SuspendPublished(advert);
    }

    method ExpireNext(ghost was: State, ids: seq<Id>, i: nat, now: Time)
      requires i < |ids| && ids[i] in was.assignments && ExpiredExactly(was, ids[..i], now, Now())
      requires forall j :: 0 <= j < i ==> ids[j] != ids[i]
      modifies this
      ensures ExpiredExactly(was, ids[..i + 1], now, Now())
    {
      ghost var mid := Now();
      KeysStay(was, ids[..i], now, mid);
      hide ExpiredExactly;
      ExpireOne(ids[i], now);
      ExpireMore(was, ids[..i], [ids[i]], now, mid, Now());
      assert ids[..i + 1] == ids[..i] + [ids[i]];
    }

    method ExpireBatch(now: Time, batchSize: nat) returns (processed: nat)
      modifies this
      ensures processed == Min(batchSize, |DueList(old(assignments), now)|)
      ensures ExpiredExactly(old(Now()), DueList(old(assignments), now)[..processed], now, Now())
    {
      hide ExpiredExactly, DueList;
      ghost var was := Now();
      var ids := ListActivePastEndsAt(now, batchSize);
      NothingExpired(was, now);
      DueListFacts(was.assignments, now);
      for i := 0 to |ids|
        invariant ExpiredExactly(was, ids[..i], now, Now())
      {
        ExpireNext(was, ids, i, now);
      }
      assert ids[..|ids|] == ids;
      return |ids|;
    }

    /** One more batch of the outer loop. */
    method RunBatch(ghost was: State, ghost due: seq<Id>, i: nat, now: Time, batchSize: nat) returns (processed: nat)
      requires due == DueList(was.assignments, now)
      requires ExpiredExactly(was, due[..Progress(|due|, batchSize, i)], now, Now())
      modifies this
      ensures ExpiredExactly(was, due[..Progress(|due|, batchSize, i + 1)], now, Now())
      ensures processed < batchSize ==> Progress(|due|, batchSize, i + 1) == |due|
    {
      hide ExpiredExactly, DueList;
      ghost var mid := Now();
      processed := ExpireBatch(now, batchSize);
      BatchStep(was, due, i, batchSize, now, mid, processed, Now());
    }

    /** Through both loops the first min(D, 1000 * batchSize) due assignments, in id order, are
        expired with everything that hangs on them, and nothing else is touched. */
    method ExpireDueAssignments(now: Time, batchSize: nat)
      requires batchSize >= 1
      modifies this
      ensures var due := DueList(old(assignments), now);
              ExpiredExactly(old(Now()), due[..Min(|due|, MAX_BATCHES * batchSize)], now, Now())
    {
      hide ExpiredExactly, DueList;
      ghost var was := Now();
      ghost var due := DueList(assignments, now);
      NothingExpired(was, now);
      OffsetIsProduct(batchSize, MAX_BATCHES);
      var i := 0;
      while i < MAX_BATCHES
        invariant 0 <= i <= MAX_BATCHES
        invariant ExpiredExactly(was, due[..Progress(|due|, batchSize, i)], now, Now())
      {
        var processed := RunBatch(was, due, i, now, batchSize);
        if processed < batchSize {
          ProgressMonotone(|due|, batchSize, i + 1, MAX_BATCHES);
          return;
        }
        i := i + 1;
      }
    }
  }

  /** How many of the due assignments are expired after i batches. */
  function Progress(total: nat, batch: nat, i: nat): (n: nat)
    ensures n <= total
  {
    Min(total, Offset(batch, i))
  }

  lemma {:induction false} ProgressMonotone(total: nat, batch: nat, i: nat, j: nat)
    requires i <= j
    ensures Progress(total, batch, i) <= Progress(total, batch, j)
  {
    if i < j {
      OffsetMonotone(batch, i, j);
    }
  }

  lemma {:induction false} BatchStep(
    was: State, due: seq<Id>, i: nat, batch: nat, now: Time, mid: State, processed: nat, after: State)
    requires due == DueList(was.assignments, now)
    requires ExpiredExactly(was, due[..Progress(|due|, batch, i)], now, mid)
    requires processed == Min(batch, |DueList(mid.assignments, now)|)
    requires ExpiredExactly(mid, DueList(mid.assignments, now)[..processed], now, after)
    ensures ExpiredExactly(was, due[..Progress(|due|, batch, i + 1)], now, after)
    ensures processed < batch ==> Progress(|due|, batch, i + 1) == |due|
  {
    hide ExpiredExactly, DueList;
    var done := Progress(|due|, batch, i);
    RestIsDue(was, done, now, mid);
    assert done + processed == Progress(|due|, batch, i + 1);
    NextBatch(was, due, done, processed, now, mid, after);
  }

  lemma {:induction false} NextBatch(was: State, due: seq<Id>, done: nat, n: nat, now: Time, mid: State, after: State)
    requires due == DueList(was.assignments, now) && done + n <= |due|
    requires ExpiredExactly(was, due[..done], now, mid) && ExpiredExactly(mid, due[done..][..n], now, after)
    ensures ExpiredExactly(was, due[..done + n], now, after)
  {
    forall id | id in due[done..][..n]
      ensures id !in due[..done]
    {
      NotInBoth(due, done, id);
    }
    ExpireMore(was, due[..done], due[done..][..n], now, mid, after);
    assert due[..done + n] == due[..done] + due[done..][..n];
  }

  /** Afterwards no affected advert has a live urgent activation or is still published. */
  lemma {:induction false} NothingLeftBehind(s: State, ids: seq<Id>, now: Time, s': State, advert: int)
    requires ExpiredExactly(s, ids, now, s') && Affected(s.assignments, ids, advert)
    ensures advert in s'.urgent ==> !s'.urgent[advert].active
    ensures advert in s'.adverts ==> s'.adverts[advert].status != Published
  {
  }

  /** When the backlog fits the bound, nothing due remains. */
  lemma {:induction false} BacklogCleared(s: State, now: Time, batchSize: nat, s': State)
    requires |DueList(s.assignments, now)| <= MAX_BATCHES * batchSize
    requires ExpiredExactly(s,
              DueList(s.assignments, now)[..Min(|DueList(s.assignments, now)|, MAX_BATCHES * batchSize)], now, s')
    ensures DueIds(s'.assignments, now) == {}
  {
    var l := DueList(s.assignments, now);
    RestIsDue(s, |l|, now, s');
    assert forall id :: id in DueIds(s'.assignments, now) <==> id in DueList(s'.assignments, now);
  }

  // ---------------------------------------------------------------- what an expiry run means

  /** An active assignment whose end has come. */
  ghost predicate Overdue(a: Assignment, now: Time) {
    a.status == ActiveAssignment && a.endsAt.Some? && a.endsAt.value <= now
  }

  ghost function OverdueIds(assignments: map<Id, Assignment>, now: Time): set<Id> {
    set id | id in assignments && Overdue(assignments[id], now)
  }

  /** Some expired assignment is this advert's. */
  ghost predicate LosesPackage(assignments: map<Id, Assignment>, ids: seq<Id>, advert: int) {
    exists id :: id in ids && id in assignments && assignments[id].advert == advert
  }

  /** The listed assignments are EXPIRED and closed now. Their adverts lose a live urgent, with the reason,
      and go from PUBLISHED to SUSPENDED. Nothing else changes. */
  lemma {:induction false} ExpiredMeans(s: State, ids: seq<Id>, now: Time, s': State)
    requires ExpiredExactly(s, ids, now, s')
    ensures s'.assignments.Keys == s.assignments.Keys
    ensures s'.urgent.Keys == s.urgent.Keys && s'.adverts.Keys == s.adverts.Keys
    ensures forall id :: id in s.assignments ==>
              var a, a' := s.assignments[id], s'.assignments[id];
              if id in ids
              then a'.status == Expired && a'.closedAt == Some(now) && a'.updatedAt == now && a'.advert == a.advert
                   && a'.pkg == a.pkg && a'.startsAt == a.startsAt && a'.endsAt == a.endsAt
              else a' == a
    ensures forall x :: x in s.urgent ==>
              var f, f' := s.urgent[x], s'.urgent[x];
              if LosesPackage(s.assignments, ids, x) && f.active
              then !f'.active && f'.deactivatedAt == Some(now) && f'.reason == Some("PACKAGE_EXPIRED")
              else f' == f
    ensures forall x :: x in s.adverts ==>
              var a, a' := s.adverts[x], s'.adverts[x];
              if LosesPackage(s.assignments, ids, x) && a.status == Published
              then a'.status == Suspended && a'.owner == a.owner
              else a' == a
  {
    forall x
      ensures LosesPackage(s.assignments, ids, x) <==> Affected(s.assignments, ids, x)
    {
      LosesMeansAffected(s.assignments, ids, x);
    }
  }

  lemma {:induction false} LosesMeansAffected(assignments: map<Id, Assignment>, ids: seq<Id>, advert: int)
    ensures LosesPackage(assignments, ids, advert) <==> Affected(assignments, ids, advert)
  {
    if LosesPackage(assignments, ids, advert) {
      var id :| id in ids && id in assignments && assignments[id].advert == advert;
      var i :| 0 <= i < |ids| && ids[i] == id;
    }
  }

  lemma {:induction false} DueIsOverdue(assignments: map<Id, Assignment>, now: Time)
    ensures DueIds(assignments, now) == OverdueIds(assignments, now)
  {
  }

  /** One run expires overdue assignments only, smaller ids first, and leaves none when there were no more
      than a thousand batches of them. */
  lemma {:induction false} RunClearsOverdue(s: State, now: Time, batchSize: nat, s': State)
    requires var due := DueList(s.assignments, now);
             ExpiredExactly(s, due[..Min(|due|, MAX_BATCHES * batchSize)], now, s')
    ensures forall id :: id in s.assignments && id in s'.assignments && s'.assignments[id] != s.assignments[id] ==>
              Overdue(s.assignments[id], now) && s'.assignments[id].status == Expired
    ensures forall x, y :: x in s.assignments && x in s'.assignments && y in s'.assignments
                           && s'.assignments[x] != s.assignments[x] && Overdue(s'.assignments[y], now) ==>
              x < y
    ensures |OverdueIds(s.assignments, now)| <= 1000 * batchSize ==> OverdueIds(s'.assignments, now) == {}
  {
    var due := DueList(s.assignments, now);
    var n := Min(|due|, MAX_BATCHES * batchSize);
    DueIsOverdue(s.assignments, now);
    DueIsOverdue(s'.assignments, now);
    assert forall id :: id in due <==> id in DueIds(s.assignments, now);
    ListingSize(due, DueIds(s.assignments, now));
    if |due| <= MAX_BATCHES * batchSize {
      BacklogCleared(s, now, batchSize, s');
    }
    forall id | id in due[..n]
      ensures id in due
    {
    }
    assert forall k :: 0 <= k < n ==> due[..n][k] == due[k] && due[k] in due[..n];
    forall x, y | x in due[..n] && y in s'.assignments && Overdue(s'.assignments[y], now)
      ensures x < y
    {
      var i :| 0 <= i < n && due[..n][i] == x;
      assert y !in due[..n];
      assert y in due;
      var j :| 0 <= j < |due| && due[j] == y;
    }
  }

  lemma {:induction false} ListingSize(l: seq<Id>, s: set<Id>)
    requires Ascending(l) && forall x :: x in l <==> x in s
    ensures |l| == |s|
  {
    if l == [] {
      assert s == {};
    } else {
      assert l == [l[0]] + l[1..];
      ListingSize(l[1..], s - {l[0]});
    }
  }
}
