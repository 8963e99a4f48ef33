/** The advert store and the calls of owners, administrators and the auto-archive worker, each as the
    steps of a run. Transactions are serialized and a rollback undoes nothing; what may come between
    the worker's writes and everybody else's is the subject of AdvertRuns. */
module AdvertLifecycle {
  import opened Basics
  import opened AdvertHistory
  import opened AdvertSteps
  import opened AdvertRuns
  import opened Sorting

  const OWNER_REMOVED := "Kullanıcı kendi kaldırmıştır"
  const DAY := 86400
  const DEFAULT_BATCH := 100

  // ---------------------------------------------------------------- what a caller may rely on

  ghost predicate OwnedBy(adverts: map<int, Advert>, owner: Id, id: int) {
    id in adverts && adverts[id].owner == owner
  }

  /** The advert is there, not deleted, and at the version the caller names. */
  ghost predicate IsCurrent(adverts: map<int, Advert>, id: int, expected: int) {
    id in adverts && adverts[id].deletedAt == None && adverts[id].version == expected && expected >= 1
  }

  /** One version on, changed now; its owner, sale time and deletion are as before. */
  ghost predicate OneOn(a: Advert, a': Advert, now: Time) {
    && a'.version == a.version + 1 && a'.updatedAt == now
    && a'.owner == a.owner && a'.soldAt == a.soldAt && a'.deletedAt == a.deletedAt
  }

  ghost predicate OnlyContent(a: Advert, a': Advert, now: Time) {
    OneOn(a, a', now) && a'.status == a.status && a'.publishedAt == a.publishedAt && a'.createdAt == a.createdAt
  }

  /** A change of status; leaving REJECTED restarts the advert's age. */
  ghost predicate OnlyStatus(a: Advert, a': Advert, to: AdvertStatus, now: Time) {
    && OneOn(a, a', now) && a'.status == to
    && a'.details == a.details && a'.category == a.category && a'.properties == a.properties
    && (a.status == Rejected ==> a'.createdAt == now) && (a.status != Rejected ==> a'.createdAt == a.createdAt)
  }

  /** Sold more than a day ago, and not deleted. */
  ghost predicate LongSold(a: Advert, now: Time) {
    a.status == Sold && a.deletedAt == None && a.soldAt.Some? && a.soldAt.value < now - 24 * 60 * 60
  }

  /** Nothing but adverts sold more than a day ago was archived, those sold longest first; all of them, if
      the batch was not full. */
  ghost predicate LongSoldAreArchived(before: map<int, Advert>, now: Time, after: map<int, Advert>, all: bool) {
    && after.Keys == before.Keys
    && (forall id :: id in before && after[id] != before[id] ==>
          LongSold(before[id], now) && OnlyStatus(before[id], after[id], Archived, now))
    && (forall x, y :: x in before && after[x] != before[x]
                       && y in before && LongSold(before[y], now) && after[y] == before[y] ==>
          before[x].soldAt.value < before[y].soldAt.value || (before[x].soldAt == before[y].soldAt && x <= y))
    && (all ==> forall id :: id in before && LongSold(before[id], now) ==> after[id].status == Archived)
  }

  datatype DetailsPatch = NoChange | SetDetails(text: string)

  predicate CanOwnerEditDetails(s: AdvertStatus) {
    s == Draft || s == ChangesRequested || s == Published || s == Rejected
  }

  predicate CanOwnerChangeCategory(s: AdvertStatus) {
    s == Draft || s == Rejected
  }

  predicate CanSoftDelete(s: AdvertStatus) {
    s == Draft || s == ChangesRequested
  }

  predicate CanApprove(s: AdvertStatus) {
    s == PendingReview || s == Suspended || s == Archived
  }

  /** The owner's advert, deleted or not. */
  function FindForOwner(adverts: map<int, Advert>, owner: Id, id: int): Result<Advert> {
    if id !in adverts || adverts[id].owner != owner then Err(NotFound) else Ok(adverts[id])
  }

  /** Any advert that is not soft-deleted. */
  function FindById(adverts: map<int, Advert>, id: int): Result<Advert> {
    if id !in adverts || adverts[id].deletedAt.Some? then Err(NotFound) else Ok(adverts[id])
  }

  /** The write condition of the store: the row exists, is not deleted, and has the expected version. */
  function Condition(adverts: map<int, Advert>, owner: Id, id: int, expected: int): Result<Advert> {
    if id !in adverts || adverts[id].owner != owner then Err(NotFound)
    else if adverts[id].deletedAt.Some? || adverts[id].version != expected then Err(StaleVersion)
    else Ok(adverts[id])
  }

  /** The owner's checks before a write; a stale snapshot is reported before its status is judged. */
  function OwnerGuard(adverts: map<int, Advert>, owner: Id, id: int, expected: int): Result<Advert> {
    if expected < 1 then Err(Validation)
    else if id !in adverts || adverts[id].owner != owner then Err(NotFound)
    else if adverts[id].deletedAt.Some? then Err(InvalidState)
    else if adverts[id].version != expected then Err(StaleVersion)
    else Ok(adverts[id])
  }

  function AdminGuard(adverts: map<int, Advert>, id: int, expected: int): Result<Advert> {
    if expected < 1 then Err(Validation)
    else if id !in adverts || adverts[id].deletedAt.Some? then Err(NotFound)
    else if adverts[id].version != expected then Err(StaleVersion)
    else Ok(adverts[id])
  }

  /** Why an owner's call is refused: its guard, or else the status does not allow it. */
  function OwnerRefusal(adverts: map<int, Advert>, owner: Id, id: int, expected: int): Error {
    if OwnerGuard(adverts, owner, id, expected).Err? then OwnerGuard(adverts, owner, id, expected).error
    else InvalidState
  }

  function AdminRefusal(adverts: map<int, Advert>, id: int, expected: int): Error {
    if AdminGuard(adverts, id, expected).Err? then AdminGuard(adverts, id, expected).error else InvalidState
  }

  function Bumped(a: Advert, now: Time): Advert {
    a.(version := a.version + 1, updatedAt := now)
  }

  /** A status change; an advert leaving REJECTED starts a new age. */
  function Transitioned(a: Advert, to: AdvertStatus, publishedAt: Option<Time>, now: Time): Advert {
    Bumped(a, now).(status := to,
    publishedAt := if publishedAt.Some? then publishedAt else a.publishedAt,
    createdAt := if a.status == Rejected then now else a.createdAt)
  }

  predicate SoldFirst(a: SoldRow, b: SoldRow) {
    a.soldAt < b.soldAt || (a.soldAt == b.soldAt && a.id <= b.id)
  }

  ghost predicate DueRow(adverts: map<int, Advert>, cutoff: Time, row: SoldRow) {
    && row.id in adverts && Due(adverts[row.id], cutoff)
    && adverts[row.id].soldAt == Some(row.soldAt) && adverts[row.id].version == row.version
  }

  /** The first due adverts, longest sold first: all of them, or as many as the limit. */
  ghost predicate IsBatch(adverts: map<int, Advert>, cutoff: Time, limit: nat, rows: seq<SoldRow>) {
    && |rows| <= limit && Ordered(rows, SoldFirst)
    && (forall i :: 0 <= i < |rows| ==> DueRow(adverts, cutoff, rows[i]))
    && (forall i, j :: 0 <= i < j < |rows| ==> rows[i].id != rows[j].id)
    && (forall row :: DueRow(adverts, cutoff, row) && row !in rows ==>
          |rows| == limit && forall i :: 0 <= i < |rows| ==> SoldFirst(rows[i], row))
  }

  /** The first n adverts of the batch are archived and nothing else is different. */
  ghost predicate ArchivedFirst(
    before: map<int, Advert>, rows: seq<SoldRow>, n: nat, now: Time, after: map<int, Advert>)
  {
    && n <= |rows| && after.Keys == before.Keys
    && (forall id :: id in before ==>
          after[id] == if InFirst(rows, n, id) then Archive(before[id], now) else before[id])
  }

  ghost predicate InFirst(rows: seq<SoldRow>, n: nat, id: int) {
    exists i :: 0 <= i < n && i < |rows| && rows[i].id == id
  }

  lemma {:induction false} ArchivedNext(
    before: map<int, Advert>, rows: seq<SoldRow>, n: nat, now: Time, mid: map<int, Advert>, after: map<int, Advert>)
    requires ArchivedFirst(before, rows, n, now, mid) && n < |rows|
    requires forall i, j :: 0 <= i < j < |rows| ==> rows[i].id != rows[j].id
    requires rows[n].id in mid && after == mid[rows[n].id := Archive(mid[rows[n].id], now)]
    ensures ArchivedFirst(before, rows, n + 1, now, after)
  {
    forall id
      ensures InFirst(rows, n + 1, id) <==> InFirst(rows, n, id) || id == rows[n].id
    {
    }
  }

  function RowOf(adverts: map<int, Advert>, id: int): SoldRow
    requires id in adverts && adverts[id].soldAt.Some?
  {
    SoldRow(id, adverts[id].version, adverts[id].soldAt.value)
  }

  lemma {:induction false} BatchArchives(
    before: map<int, Advert>, limit: nat, rows: seq<SoldRow>, now: Time, after: map<int, Advert>)
    requires IsBatch(before, now - DAY, limit, rows) && ArchivedFirst(before, rows, |rows|, now, after)
    ensures LongSoldAreArchived(before, now, after, |rows| < limit)
  {
    forall id | id in before && InFirst(rows, |rows|, id)
      ensures LongSold(before[id], now)
    {
      var i :| 0 <= i < |rows| && rows[i].id == id;
      assert DueRow(before, now - DAY, rows[i]);
    }
    forall id | id in before && LongSold(before[id], now)
      ensures InFirst(rows, |rows|, id) || RowOf(before, id) !in rows
      ensures |rows| < limit ==> InFirst(rows, |rows|, id)
      ensures DueRow(before, now - DAY, RowOf(before, id))
    {
      assert DueRow(before, now - DAY, RowOf(before, id));
      if RowOf(before, id) in rows {
        var i :| 0 <= i < |rows| && rows[i] == RowOf(before, id);
      }
    }
    forall x, y | x in before && InFirst(rows, |rows|, x)
                  && y in before && LongSold(before[y], now) && !InFirst(rows, |rows|, y)
      ensures before[x].soldAt.value < before[y].soldAt.value || (before[x].soldAt == before[y].soldAt && x <= y)
    {
      var i :| 0 <= i < |rows| && rows[i].id == x;
      assert RowOf(before, y) !in rows;
      assert DueRow(before, now - DAY, rows[i]) && SoldFirst(rows[i], RowOf(before, y));
    }
  }

  lemma {:induction false} SoldTotal()
    ensures TotalOrder(SoldFirst)
  {
  }

  lemma {:induction false} CutIsBatch(adverts: map<int, Advert>, cutoff: Time, limit: nat, all: seq<SoldRow>)
    requires Ordered(all, SoldFirst) && Distinct(all)
    requires forall row :: row in all <==> DueRow(adverts, cutoff, row)
    ensures IsBatch(adverts, cutoff, limit, if |all| > limit then all[..limit] else all)
  {
    var rows := if |all| > limit then all[..limit] else all;
    forall i | 0 <= i < |rows|
      ensures DueRow(adverts, cutoff, rows[i]) && rows[i] == all[i]
    {
      assert all[i] in all;
    }
    assert forall i :: 0 <= i < |rows| ==> all[i] in rows;
    forall i, j | 0 <= i < j < |rows|
      ensures rows[i].id != rows[j].id
    {
      assert all[i] != all[j];
    }
    forall row | DueRow(adverts, cutoff, row) && row !in rows
      ensures |rows| == limit && forall i :: 0 <= i < |rows| ==> SoldFirst(rows[i], row)
    {
      var k :| 0 <= k < |all| && all[k] == row;
      assert k >= |rows|;
    }
  }

  lemma {:induction false} SomeMember(s: set<int>)
    requires s != {}
    ensures exists x :: x in s
  {
    assert (forall x :: x !in s) ==> s == {};
  }

  class AdvertStore {
    var adverts: map<int, Advert>
    var history: seq<Row>
    /** The tables together with what happened to them. */
    ghost var trace: Sys

    /** The store is in a state of some run, and no transaction is open. */
    ghost predicate Valid()
      reads this
    {
      trace.adverts == adverts && trace.history == history && trace.open.None? && Reachable(trace)
    }

    twostate predicate Unchanged()
      reads this
    {
      adverts == old(adverts) && history == old(history) && trace == old(trace)
    }

    /** The call was one step. */
    twostate predicate Took(e: Step)
      reads this
    {
      Enabled(old(trace), e) && trace == Apply(old(trace), e)
    }

    /** One guarded write that leaves the status alone: the expected version is consumed for good. */
    twostate predicate Wrote(actor: Actor, id: int, expected: int, a: Advert)
      reads this
    {
      Took(Edit(actor, id, expected, a)) && adverts == old(adverts)[id := a] && history == old(history)
    }

    /** A guarded status write, then its history row. */
    twostate predicate Moved(id: int, expected: int, a: Advert, row: Row)
      reads this
    {
      && Enabled(old(trace), Transition(id, expected, a, row))
      && trace == Apply(Apply(old(trace), Transition(id, expected, a, row)), LogTransition)
      && adverts == old(adverts)[id := a] && history == old(history) + [row]
    }

    constructor ()
      ensures Valid() && adverts == map[] && history == [] && trace == EMPTY
    {
      EmptyReachable();
      adverts, history, trace := map[], [], EMPTY;
    }

    // -------------------------------------------------------------- writes

    /** A guarded write that leaves the status alone. */
    method PutEdit(actor: Actor, id: int, a: Advert)
      requires Valid() && id in adverts && adverts[id].deletedAt.None?
      requires MayWrite(actor, adverts[id]) && Successor(adverts[id], a) && a.status == adverts[id].status
      modifies this`adverts, this`trace
      ensures Valid() && Wrote(actor, id, old(adverts)[id].version, a)
    {
      ghost var e := Edit(actor, id, adverts[id].version, a);
      EditIsEnabled(trace, e);
      StepReachable(trace, e);
      hide Reachable;
      trace := Apply(trace, e);
      adverts := adverts[id := a];
    }

    /** The status write and its history row, as one transaction makes them. */
    method PutMove(id: int, a: Advert, actor: Actor, reason: Option<string>, now: Time)
      requires Valid() && id in adverts && adverts[id].deletedAt.None?
      requires Successor(adverts[id], a) && a.deletedAt.None?
      requires MayWrite(actor, adverts[id]) && Allowed(actor, adverts[id].status, a.status)
      modifies this`adverts, this`history, this`trace
      ensures Valid()
      ensures Moved(id, old(adverts)[id].version, a,
                    Row(id, Some(old(adverts)[id].status), a.status, actor, reason, now))
    {
      var row := Row(id, Some(adverts[id].status), a.status, actor, reason, now);
      ghost var e := Transition(id, adverts[id].version, a, row);
      TransitionAndLog(trace, e);
      hide Reachable;
      trace := Apply(Apply(trace, e), LogTransition);
      adverts := adverts[id := a];
      history := history + [row];
    }

    // -------------------------------------------------------------- owner calls

    /** A new draft with its first history row. The store numbers adverts by how many it holds, so
        after a permanent deletion the number may be taken and the call refused. */
    method CreateDraft(owner: Id, category: Option<Id>, details: string, now: Time) returns (r: Result<int>)
      requires Valid()
      modifies this
      ensures Valid()
      ensures r == if |old(adverts)| + 1 in old(adverts) then Err(Conflict) else Ok(|old(adverts)| + 1)
      ensures r.Err? ==> Unchanged()
      ensures r.Ok? ==>
                var a := Advert(owner, Draft, 1, None, None, None, category, details, "{}", now, now);
                var row := Row(r.value, None, Draft, Owner(owner), None, now);
                && adverts == old(adverts)[r.value := a] && history == old(history) + [row]
                && Enabled(old(trace), Create(r.value, a, row))
                && trace == Apply(Apply(old(trace), Create(r.value, a, row)), LogTransition)
    {
      var id := |adverts| + 1;
      if id in adverts {
        return Err(Conflict);
      }
      var a := Advert(owner, Draft, 1, None, None, None, category, details, "{}", now, now);
      var row := Row(id, None, Draft, Owner(owner), None, now);
      TransitionAndLog(trace, Create(id, a, row));
      hide Reachable;
      trace := Apply(Apply(trace, Create(id, a, row)), LogTransition);
      adverts := adverts[id := a];
      history := history + [row];
      return Ok(id);
    }

    /** Editing a published advert can announce a price drop after the write; when that fails the
        call fails, and the write stays. */
    method UpdateDetails(
      owner: Id, id: int, patch: DetailsPatch, expected: int, now: Time, announcementFails: bool)
      returns (r: Result<Advert>)
      requires Valid()
      modifies this`adverts, this`trace
      ensures Valid()
      ensures expected >= 1 && !OwnedBy(old(adverts), owner, id) ==> r == Err(NotFound)
      ensures r.Ok? ==> OwnedBy(old(adverts), owner, id) && IsCurrent(old(adverts), id, expected)
                        && old(adverts)[id].status in {Draft, ChangesRequested, Published, Rejected}
      ensures r.Err? && !announcementFails ==>
                !OwnedBy(old(adverts), owner, id) || !IsCurrent(old(adverts), id, expected)
                || old(adverts)[id].status !in {Draft, ChangesRequested, Published, Rejected}
      ensures r.Ok? && patch.SetDetails? && id in adverts ==>
                var a, a' := old(adverts)[id], adverts[id];
                && OnlyContent(a, a', now) && a'.details == patch.text && a'.category == a.category
                && a'.properties == a.properties
      ensures OwnerGuard(old(adverts), owner, id, expected).Ok? && CanOwnerEditDetails(old(adverts)[id].status) ==>
                && (patch.NoChange? ==> r.Ok? && Unchanged())
                && (patch.SetDetails? ==>
                      Wrote(Owner(owner), id, expected, Bumped(old(adverts)[id], now).(details := patch.text)))
                && (r.Err? ==> patch.SetDetails? && announcementFails && old(adverts)[id].status == Published)
                && (r.Ok? ==> r.value == adverts[id])
      ensures !(OwnerGuard(old(adverts), owner, id, expected).Ok? && CanOwnerEditDetails(old(adverts)[id].status)) ==>
                r == Err(OwnerRefusal(old(adverts), owner, id, expected)) && Unchanged()
    {
      var found := OwnerGuard(adverts, owner, id, expected);
      if found.Err? {
        return Err(found.error);
      }
      var current := found.value;
      if !CanOwnerEditDetails(current.status) {
        return Err(InvalidState);
      }
      if patch.NoChange? {
        return Ok(current);
      }
      var updated := Bumped(current, now).(details := patch.text);
      assert Condition(adverts, owner, id, expected).Ok?;
      PutEdit(Owner(owner), id, updated);
      if current.status == Published && announcementFails {
        return Err(Internal);
      }
      return Ok(updated);
    }

    method ChangeCategory(owner: Id, id: int, category: Id, expected: int, now: Time) returns (r: Result<Advert>)
      requires Valid()
      modifies this`adverts, this`trace
      ensures Valid() && (r.Ok? ==> id in adverts && r.value == adverts[id])
      ensures expected >= 1 && !OwnedBy(old(adverts), owner, id) ==> r == Err(NotFound)
      ensures r.Ok? <==> OwnedBy(old(adverts), owner, id) && IsCurrent(old(adverts), id, expected)
                         && old(adverts)[id].status in {Draft, Rejected}
      ensures r.Ok? && adverts != old(adverts) ==>
                var a, a' := old(adverts)[id], adverts[id];
                && OnlyContent(a, a', now) && a'.details == a.details && a'.category == Some(category)
                && a'.properties == "{}"
      ensures r.Ok? <==> OwnerGuard(old(adverts), owner, id, expected).Ok?
                         && CanOwnerChangeCategory(old(adverts)[id].status)
      ensures r.Err? ==> Unchanged() && r == Err(OwnerRefusal(old(adverts), owner, id, expected))
      ensures r.Ok? && old(adverts)[id].category == Some(category) ==> Unchanged()
      ensures r.Ok? && old(adverts)[id].category != Some(category) ==>
                Wrote(Owner(owner), id, expected,
                      Bumped(old(adverts)[id], now).(category := Some(category), properties := "{}"))
    {
      var found := OwnerGuard(adverts, owner, id, expected);
      if found.Err? {
        return Err(found.error);
      }
      var current := found.value;
      if !CanOwnerChangeCategory(current.status) {
        return Err(InvalidState);
      }
      if current.category == Some(category) {
        return Ok(current);
      }
      var updated := Bumped(current, now).(category := Some(category), properties := "{}");
      PutEdit(Owner(owner), id, updated);
      return Ok(updated);
    }

    method ReplaceProperties(owner: Id, id: int, properties: Result<string>, expected: int, now: Time)
      returns (r: Result<Advert>)
      requires Valid()
      modifies this`adverts, this`trace
      ensures Valid() && (r.Ok? ==> id in adverts && r.value == adverts[id])
      ensures expected >= 1 && !OwnedBy(old(adverts), owner, id) ==> r == Err(NotFound)
      ensures r.Ok? <==> OwnedBy(old(adverts), owner, id) && IsCurrent(old(adverts), id, expected)
                         && old(adverts)[id].status in {Draft, ChangesRequested, Published, Rejected}
                         && old(adverts)[id].category.Some? && properties.Ok?
      ensures r.Ok? ==> var a, a' := old(adverts)[id], adverts[id];
                        && OnlyContent(a, a', now) && a'.details == a.details && a'.category == a.category
                        && a'.properties == properties.value
      ensures r.Ok? <==> OwnerGuard(old(adverts), owner, id, expected).Ok?
                         && CanOwnerEditDetails(old(adverts)[id].status)
                         && old(adverts)[id].category.Some? && properties.Ok?
      ensures r.Err? ==> Unchanged()
                         && (r == Err(OwnerRefusal(old(adverts), owner, id, expected))
                             || (properties.Err? && r == Err(properties.error)))
      ensures r.Ok? ==> Wrote(Owner(owner), id, expected,
                              Bumped(old(adverts)[id], now).(properties := properties.value))
    {
      var found := OwnerGuard(adverts, owner, id, expected);
      if found.Err? {
        return Err(found.error);
      }
      var current := found.value;
      if !CanOwnerEditDetails(current.status) {
        return Err(InvalidState);
      }
      if current.category.None? {
        return Err(InvalidState);
      }
      if properties.Err? {
        return Err(properties.error);
      }
      var updated := Bumped(current, now).(properties := properties.value);
      PutEdit(Owner(owner), id, updated);
      return Ok(updated);
    }

    method SoftDeleteDraft(owner: Id, id: int, expected: int, now: Time) returns (r: Result<Advert>)
      requires Valid()
      modifies this`adverts, this`trace
      ensures Valid() && (r.Ok? ==> id in adverts && r.value == adverts[id])
      ensures expected >= 1 && !OwnedBy(old(adverts), owner, id) ==> r == Err(NotFound)
      ensures r.Ok? ==> OwnedBy(old(adverts), owner, id) && adverts[id].deletedAt.Some?
      ensures r.Ok? && old(adverts)[id].deletedAt == None ==>
                && IsCurrent(old(adverts), id, expected) && old(adverts)[id].status in {Draft, ChangesRequested}
                && adverts[id].deletedAt == Some(now) && adverts[id].status == old(adverts)[id].status
      ensures r.Ok? <==> expected >= 1 && id in old(adverts) && old(adverts)[id].owner == owner
                         && (old(adverts)[id].deletedAt.Some?
                             || (old(adverts)[id].version == expected && CanSoftDelete(old(adverts)[id].status)))
      ensures r.Err? || old(adverts)[id].deletedAt.Some? ==> Unchanged()
      ensures r.Ok? && old(adverts)[id].deletedAt.None? ==>
                Wrote(Owner(owner), id, expected, Bumped(old(adverts)[id], now).(deletedAt := Some(now)))
    {
      if expected < 1 {
        return Err(Validation);
      }
      var found := FindForOwner(adverts, owner, id);
      if found.Err? {
        return Err(found.error);
      }
      var current := found.value;
      if current.deletedAt.Some? {
        return Ok(current);
      }
      if current.version != expected {
        return Err(StaleVersion);
      }
      if !CanSoftDelete(current.status) {
        return Err(InvalidState);
      }
      var updated := Bumped(current, now).(deletedAt := Some(now));
      PutEdit(Owner(owner), id, updated);
      return Ok(updated);
    }

    /** Submit and resubmit; `complete` is the outcome of the submission checks. */
    method SubmitForReview(
      owner: Id, activeOwner: bool, id: int, expected: int, allowedFrom: set<AdvertStatus>, complete: bool, now: Time)
      returns (r: Result<Advert>)
      requires Valid() && allowedFrom <= {Draft, ChangesRequested, Rejected, Published}
      modifies this`adverts, this`history, this`trace
      ensures Valid() && (r.Ok? ==> id in adverts && r.value == adverts[id])
      ensures expected >= 1 && activeOwner && !OwnedBy(old(adverts), owner, id) ==> r == Err(NotFound)
      ensures r.Ok? <==> activeOwner && OwnedBy(old(adverts), owner, id) && IsCurrent(old(adverts), id, expected)
                         && old(adverts)[id].status in allowedFrom && complete
      ensures r.Ok? ==> OnlyStatus(old(adverts)[id], adverts[id], PendingReview, now)
                        && adverts[id].publishedAt == old(adverts)[id].publishedAt
      ensures r.Ok? <==> activeOwner && OwnerGuard(old(adverts), owner, id, expected).Ok?
                         && old(adverts)[id].status in allowedFrom && complete
      ensures r.Err? ==> Unchanged()
      ensures expected >= 1 && activeOwner && r.Err? ==>
                r == Err(OwnerRefusal(old(adverts), owner, id, expected)) || (!complete && r == Err(Validation))
      ensures r.Ok? ==> Moved(id, expected, Transitioned(old(adverts)[id], PendingReview, None, now),
                              Row(id, Some(old(adverts)[id].status), PendingReview, Owner(owner), None, now))
    {
      if expected < 1 {
        return Err(Validation);
      }
      if !activeOwner {
        return Err(Forbidden);
      }
      var found := OwnerGuard(adverts, owner, id, expected);
      if found.Err? {
        return Err(found.error);
      }
      var current := found.value;
      if current.status !in allowedFrom {
        return Err(InvalidState);
      }
      if !complete {
        return Err(Validation);
      }
      var updated := Transitioned(current, PendingReview, None, now);
      PutMove(id, updated, Owner(owner), None, now);
      return Ok(updated);
    }

    /** Sold, archive and re-publish. */
    method OwnerTransition(owner: Id, id: int, expected: int, from: AdvertStatus, to: AdvertStatus, now: Time)
      returns (r: Result<Advert>)
      requires Valid()
      modifies this`adverts, this`history, this`trace
      ensures Valid() && (r.Ok? ==> id in adverts && r.value == adverts[id])
      ensures expected >= 1 && OwnerAllowed(from, to) && !OwnedBy(old(adverts), owner, id) ==> r == Err(NotFound)
      ensures r.Ok? <==> OwnedBy(old(adverts), owner, id) && IsCurrent(old(adverts), id, expected)
                         && old(adverts)[id].status == from
                         && ((to == PendingReview && from in {Draft, ChangesRequested, Rejected, Published})
                             || (to in {Sold, Archived} && from == Published) || (to == Published && from == Archived))
      ensures r.Ok? ==> OnlyStatus(old(adverts)[id], adverts[id], to, now)
                        && (to == Published ==> adverts[id].publishedAt == Some(now))
                        && (to != Published ==> adverts[id].publishedAt == old(adverts)[id].publishedAt)
      ensures r.Ok? <==> OwnerAllowed(from, to) && OwnerGuard(old(adverts), owner, id, expected).Ok?
                         && old(adverts)[id].status == from
      ensures r.Err? ==> Unchanged()
      ensures r.Err? && OwnerAllowed(from, to) ==> r == Err(OwnerRefusal(old(adverts), owner, id, expected))
      ensures r.Ok? ==>
                Moved(id, expected,
                      Transitioned(old(adverts)[id], to, if to == Published then Some(now) else None, now),
                      Row(id, Some(from), to, Owner(owner), if to == Archived then Some(OWNER_REMOVED) else None, now))
    {
      if expected < 1 {
        return Err(Validation);
      }
      if !OwnerAllowed(from, to) {
        return Err(Internal);
      }
      var found := OwnerGuard(adverts, owner, id, expected);
      if found.Err? {
        return Err(found.error);
      }
      var current := found.value;
      if current.status != from {
        return Err(InvalidState);
      }
      var updated := Transitioned(current, to, if to == Published then Some(now) else None, now);
      PutMove(id, updated, Owner(owner), if to == Archived then Some(OWNER_REMOVED) else None, now);
      return Ok(updated);
    }

    // -------------------------------------------------------------- administrator calls

    /** The administrator's edit carries no version of its own: it consumes the current one. */
    method UpdateAdmin(actor: Id, id: int, details: string, now: Time) returns (r: Result<Advert>)
      requires Valid()
      modifies this`adverts, this`trace
      ensures Valid() && (r.Ok? ==> id in adverts && r.value == adverts[id])
      ensures r.Ok? <==> id in old(adverts) && old(adverts)[id].deletedAt == None
      ensures r.Ok? ==> var a, a' := old(adverts)[id], adverts[id];
                        && OnlyContent(a, a', now) && a'.details == details && a'.category == a.category
                        && a'.properties == a.properties
      ensures r.Ok? <==> FindById(old(adverts), id).Ok?
      ensures r.Err? ==> Unchanged()
      ensures r.Ok? ==> Wrote(Admin(actor), id, old(adverts)[id].version,
                              Bumped(old(adverts)[id], now).(details := details))
    {
      var found := FindById(adverts, id);
      if found.Err? {
        return Err(found.error);
      }
      var updated := Bumped(found.value, now).(details := details);
      PutEdit(Admin(actor), id, updated);
      return Ok(updated);
    }

    method DeleteAdvert(id: int) returns (r: Result<()>)
      requires Valid()
      modifies this`adverts, this`history, this`trace
      ensures Valid()
      ensures r.Ok? <==> id in old(adverts) && old(adverts)[id].deletedAt == None
                         && old(adverts)[id].status in {Suspended, Archived, Rejected}
      ensures r.Ok? <==> FindById(old(adverts), id).Ok? && CanHardDelete(old(adverts)[id].status)
      ensures r.Err? ==> Unchanged()
      ensures r.Ok? ==> Took(Delete(id)) && adverts == old(adverts) - {id} && history == Purged(old(history), id)
    {
      var found := FindById(adverts, id);
      if found.Err? {
        return Err(found.error);
      }
      if !CanHardDelete(found.value.status) {
        return Err(InvalidState);
      }
      AllStored(trace);
      StepReachable(trace, Delete(id));
      hide Reachable, Purged;
      trace := Apply(trace, Delete(id));
      adverts := adverts - {id};
      PurgeHistory(id);
      return Ok(());
    }

    method PurgeHistory(id: int)
      modifies this`history
      ensures history == Purged(old(history), id)
    {
      var kept: seq<Row> := [];
      for i := 0 to |history|
        invariant kept == Purged(history[..i], id)
      {
        assert history[..i + 1][..i] == history[..i];
        if history[i].advert != id {
          kept := kept + [history[i]];
        }
      }
      assert history[..|history|] == history;
      history := kept;
    }

    method ApproveAdvert(actor: Id, id: int, expected: int, complete: bool, now: Time) returns (r: Result<Advert>)
      requires Valid()
      modifies this`adverts, this`history, this`trace
      ensures Valid() && (r.Ok? ==> id in adverts && r.value == adverts[id])
      ensures r.Ok? <==> IsCurrent(old(adverts), id, expected) && complete
                         && old(adverts)[id].status in {PendingReview, Suspended, Archived}
      ensures r.Ok? ==> OnlyStatus(old(adverts)[id], adverts[id], Published, now)
                        && (old(adverts)[id].publishedAt.Some? ==>
                              adverts[id].publishedAt == old(adverts)[id].publishedAt)
                        && (old(adverts)[id].publishedAt.None? ==> adverts[id].publishedAt == Some(now))
      ensures r.Ok? <==> AdminGuard(old(adverts), id, expected).Ok? && CanApprove(old(adverts)[id].status) && complete
      ensures r.Err? ==> Unchanged()
      ensures r.Err? ==> r == Err(AdminRefusal(old(adverts), id, expected)) || (!complete && r == Err(Validation))
      ensures r.Ok? ==>
                Moved(id, expected, Transitioned(old(adverts)[id], Published,
                                                 if old(adverts)[id].publishedAt.Some? then None else Some(now), now),
                      Row(id, Some(old(adverts)[id].status), Published, Admin(actor), None, now))
    {
      var found := AdminGuard(adverts, id, expected);
      if found.Err? {
        return Err(found.error);
      }
      var current := found.value;
      if !CanApprove(current.status) {
        return Err(InvalidState);
      }
      assert AdminAllowed(current.status, Published);
      if !complete {
        return Err(Validation);
      }
      var publishedAt := if current.publishedAt.Some? then current.publishedAt else Some(now);
      var updated := Transitioned(current, Published, publishedAt, now);
      PutMove(id, updated, Admin(actor), None, now);
      return Ok(updated);
    }

    /** Request changes, reject and suspend. */
    method AdminTransition(
      actor: Id, id: int, expected: int, reason: string, from: AdvertStatus, to: AdvertStatus, now: Time)
      returns (r: Result<Advert>)
      requires Valid() && to != Published
      modifies this`adverts, this`history, this`trace
      ensures Valid() && (r.Ok? ==> id in adverts && r.value == adverts[id])
      ensures r.Ok? <==> IsCurrent(old(adverts), id, expected) && old(adverts)[id].status == from
                         && ((from == PendingReview && to in {ChangesRequested, Rejected})
                             || (from == Published && to == Suspended))
      ensures r.Ok? ==> OnlyStatus(old(adverts)[id], adverts[id], to, now)
                        && adverts[id].publishedAt == old(adverts)[id].publishedAt
      ensures r.Ok? <==> AdminAllowed(from, to) && AdminGuard(old(adverts), id, expected).Ok?
                         && old(adverts)[id].status == from
      ensures r.Err? ==> Unchanged()
      ensures r.Err? && AdminAllowed(from, to) ==> r == Err(AdminRefusal(old(adverts), id, expected))
      ensures r.Ok? ==> Moved(id, expected, Transitioned(old(adverts)[id], to, None, now),
                              Row(id, Some(from), to, Admin(actor), Some(reason), now))
    {
      if expected < 1 {
        return Err(Validation);
      }
      if !AdminAllowed(from, to) {
        return Err(Internal);
      }
      var found := AdminGuard(adverts, id, expected);
      if found.Err? {
        return Err(found.error);
      }
      var current := found.value;
      if current.status != from {
        return Err(InvalidState);
      }
      var updated := Transitioned(current, to, None, now);
      PutMove(id, updated, Admin(actor), Some(reason), now);
      return Ok(updated);
    }

    // -------------------------------------------------------------- auto-archive

    /** Stamping the sale, which only the database does. */
    method StampSold(id: int, at: Time)
      requires Valid() && id in adverts && adverts[id].status == Sold && adverts[id].deletedAt.None?
      modifies this`adverts, this`trace
      ensures Valid() && Took(Stamp(id, at))
      ensures adverts == old(adverts)[id := old(adverts)[id].(soldAt := Some(at))] && history == old(history)
    {
      AllStored(trace);
      StepReachable(trace, Stamp(id, at));
      hide Reachable;
      trace := Apply(trace, Stamp(id, at));
      adverts := adverts[id := adverts[id].(soldAt := Some(at))];
    }

    /** First of the two writes for a listed advert: the status, under the version the listing saw. */
    method ArchiveWrite(id: int, expected: int, now: Time) returns (r: Result<()>, ghost place: Place)
      requires Valid() && Listed(trace, id, expected)
      modifies this`adverts, this`trace
      ensures Valid()
      ensures r.Ok? <==> id in old(adverts) && old(adverts)[id].deletedAt == None
                         && old(adverts)[id].version == expected && old(adverts)[id].status == Sold
      ensures r.Ok? ==> id in adverts && OnlyStatus(old(adverts)[id], adverts[id], Archived, now)
                        && adverts[id].publishedAt == old(adverts)[id].publishedAt
      ensures r.Ok? <==> FindById(old(adverts), id).Ok? && old(adverts)[id].version == expected
                         && old(adverts)[id].status == Sold
      ensures r.Err? ==> Unchanged()
      ensures r.Ok? ==> Took(AdvertSteps.ArchiveWrite(id, expected, now)) && place == NextPlace(old(trace), id)
                        && adverts == old(adverts)[id := Archive(old(adverts)[id], now)] && history == old(history)
                        && Owes(trace, place, AutoArchiveRow(id, now))
    {
      place := Place(0, 0);
      var found := FindById(adverts, id);
      if found.Err? {
        return Err(NotFound), place;
      }
      if found.value.version != expected || found.value.status != Sold {
        return Err(StaleVersion), place;
      }
      var a := found.value.(status := Archived, version := found.value.version + 1, updatedAt := now);
      AllStored(trace);
      StepReachable(trace, AdvertSteps.ArchiveWrite(id, expected, now));
      hide Reachable;
      place := NextPlace(trace, id);
      trace := Apply(trace, AdvertSteps.ArchiveWrite(id, expected, now));
      adverts := adverts[id := a];
      return Ok(()), place;
    }

    /** Second write: the history row, whatever has happened to the advert meanwhile. */
    method ArchiveLog(id: int, now: Time, ghost place: Place)
      requires Valid() && Owes(trace, place, AutoArchiveRow(id, now))
      modifies this`history, this`trace
      ensures Valid() && Took(AdvertSteps.ArchiveLog(place))
      ensures history == old(history) + [AutoArchiveRow(id, now)]
    {
      StepReachable(trace, AdvertSteps.ArchiveLog(place));
      hide Reachable, RowsOf;
      trace := Apply(trace, AdvertSteps.ArchiveLog(place));
      history := history + [Row(id, Some(Sold), Archived, System, None, now)];
    }

    method CollectSold(cutoff: Time) returns (rows: seq<SoldRow>)
      ensures forall row :: row in rows <==> DueRow(adverts, cutoff, row)
      ensures Distinct(rows)
    {
      rows := [];
      var todo := adverts.Keys;
      while todo != {}
        invariant todo <= adverts.Keys && Distinct(rows)
        invariant forall row :: row in rows <==> DueRow(adverts, cutoff, row) && row.id !in todo
        decreases todo
      {
        SomeMember(todo);
        var id :| id in todo;
        todo := todo - {id};
        var a := adverts[id];
        if a.deletedAt.Some? || a.status != Sold {
          continue;
        }
        if a.soldAt.None? || a.soldAt.value >= cutoff {
          continue;
        }
        rows := rows + [SoldRow(id, a.version, a.soldAt.value)];
      }
    }

    method FirstSold(cutoff: Time, limit: nat) returns (rows: seq<SoldRow>)
      requires limit > 0
      ensures IsBatch(adverts, cutoff, limit, rows)
    {
      var all := CollectSold(cutoff);
      rows := SortBy(all, SoldFirst);
      SortMembers(all, SoldFirst);
      SoldTotal();
      SortOrdered(all, SoldFirst);
      SortDistinct(all, SoldFirst);
      CutIsBatch(adverts, cutoff, limit, rows);
      if |rows| > limit {
        rows := rows[..limit];
      }
    }

    /** The adverts sold before the cutoff, longest sold first; whatever is due now may be archived later. */
    method ListSoldForAutoArchive(cutoff: Time, limit: nat) returns (rows: seq<SoldRow>)
      requires Valid() && limit > 0
      modifies this`trace
      ensures Valid() && Took(List(cutoff)) && IsBatch(adverts, cutoff, limit, rows)
      ensures forall row :: DueRow(adverts, cutoff, row) ==> Listed(trace, row.id, row.version)
    {
      hide Reachable, IsBatch;
      StepReachable(trace, List(cutoff));
      trace := Apply(trace, List(cutoff));
      forall row | DueRow(adverts, cutoff, row)
        ensures Listed(trace, row.id, row.version)
      {
        assert row in trace.listed;
      }
      rows := FirstSold(cutoff, limit);
    }

    /** Both writes with nothing in between. */
    method ArchiveOne(id: int, expected: int, now: Time) returns (r: Result<()>)
      requires Valid() && Listed(trace, id, expected)
      modifies this`adverts, this`history, this`trace
      ensures Valid() && trace.listed == old(trace).listed && (UpToDate(old(trace)) ==> UpToDate(trace))
      ensures r.Ok? <==> FindById(old(adverts), id).Ok? && old(adverts)[id].version == expected
                         && old(adverts)[id].status == Sold
      ensures r.Ok? ==> adverts == old(adverts)[id := Archive(old(adverts)[id], now)]
                        && history == old(history) + [AutoArchiveRow(id, now)]
      ensures r.Err? ==> Unchanged()
    {
      hide Reachable, UpToDate;
      ghost var place;
      ghost var was := trace;
      ReachableInv(trace);
      r, place := ArchiveWrite(id, expected, now);
      if r.Ok? {
        ArchiveLog(id, now, place);
        if UpToDate(was) {
          ArchivingKeepsLogs(was, AdvertSteps.ArchiveWrite(id, expected, now), place);
        }
      }
    }

    /** One run of the worker with nothing else in between its writes: every listed advert is archived
        and logged in the order of the listing, none is refused, and without a sale stamp none is listed. */
    method AutoArchiveSold(batchSize: int, now: Time) returns (archived: nat, errors: nat)
      requires Valid()
      modifies this`adverts, this`history, this`trace
      ensures Valid() && (UpToDate(old(trace)) ==> UpToDate(trace))
      ensures LongSoldAreArchived(old(adverts), now, adverts, archived < (if batchSize <= 0 then 100 else batchSize))
      ensures archived <= (if batchSize <= 0 then 100 else batchSize)
      ensures errors == 0
      ensures exists rows ::
                && IsBatch(old(adverts), now - DAY, if batchSize <= 0 then DEFAULT_BATCH else batchSize, rows)
                && archived == |rows| && ArchivedFirst(old(adverts), rows, |rows|, now, adverts)
                && history == old(history) + ArchiveRows(rows, |rows|, now)
      ensures (forall id :: id in old(adverts) ==> old(adverts)[id].soldAt.None?) ==>
                archived == 0 && adverts == old(adverts) && history == old(history)
    {
      hide Reachable, UpToDate, LongSoldAreArchived;
      var limit := if batchSize <= 0 then DEFAULT_BATCH else batchSize;
      ListingKeepsUpToDate(trace, now - DAY);
      var rows := ListSoldForAutoArchive(now - DAY, limit);
      assert |rows| > 0 ==> DueRow(adverts, now - DAY, rows[0]);
      ghost var was, listed := adverts, trace.listed;
      archived, errors := 0, 0;
      for i := 0 to |rows|
        invariant Valid() && (UpToDate(old(trace)) ==> UpToDate(trace)) && trace.listed == listed
        invariant archived == i && errors == 0 && ArchivedFirst(was, rows, i, now, adverts)
        invariant history == old(history) + ArchiveRows(rows, i, now)
        invariant i == 0 ==> adverts == old(adverts) && history == old(history)
      {
        ghost var mid := adverts;
        StillDue(was, now - DAY, rows, i, now, mid);
        var wrote := ArchiveOne(rows[i].id, rows[i].version, now);
        // A refusal would be counted as an error and skipped; without interference there is none.
        assert wrote.Ok?;
        ArchivedNext(was, rows, i, now, mid, adverts);
        archived := archived + 1;
      }
      BatchArchives(was, limit, rows, now, adverts);
    }
  }

  // ---------------------------------------------------------------- steps

  ghost predicate Listed(s: Sys, id: int, expected: int) {
    exists r :: r in s.listed && r.id == id && r.version == expected
  }

  /** The worker has archived an advert and still owes this row. */
  ghost predicate Owes(s: Sys, p: Place, row: Row) {
    Enabled(s, AdvertSteps.ArchiveLog(p)) && s.moves[p.serial][p.pos].row == row
  }

  /** The rows of the first n adverts of a batch. */
  function ArchiveRows(rows: seq<SoldRow>, n: nat, now: Time): (history: seq<Row>)
    requires n <= |rows|
    ensures |history| == n && forall i :: 0 <= i < n ==> history[i] == AutoArchiveRow(rows[i].id, now)
    ensures forall i :: 0 <= i < n ==>
              && history[i].advert == rows[i].id && history[i].from == Some(Sold) && history[i].to == Archived
              && history[i].actor == System && history[i].at == now
  {
    seq(n, i requires 0 <= i < n => AutoArchiveRow(rows[i].id, now))
  }

  lemma {:induction false} AllStored(s: Sys)
    requires Reachable(s)
    ensures forall id :: id in s.adverts ==> Stored(s, id)
  {
    ReachableInv(s);
  }

  lemma {:induction false} EditIsEnabled(s: Sys, e: Step)
    requires Reachable(s) && e.Edit? && e.id in s.adverts && s.adverts[e.id].deletedAt.None?
    requires e.expected == s.adverts[e.id].version
    requires MayWrite(e.actor, s.adverts[e.id])
    requires Successor(s.adverts[e.id], e.a) && e.a.status == s.adverts[e.id].status
    ensures Enabled(s, e)
  {
    AllStored(s);
  }

  /** A transaction's two writes. */
  lemma {:induction false} TransitionAndLog(s: Sys, e: Step)
    requires Reachable(s) && s.open.None? && (e.Create? || e.Transition?)
    requires e.Create? ==> Enabled(s, e)
    requires e.Transition? ==>
               && e.id in s.adverts && s.adverts[e.id].deletedAt.None? && e.expected == s.adverts[e.id].version
               && Successor(s.adverts[e.id], e.a) && e.a.deletedAt.None?
               && e.row.advert == e.id && e.row.from == Some(s.adverts[e.id].status) && e.row.to == e.a.status
               && MayWrite(e.row.actor, s.adverts[e.id]) && Allowed(e.row.actor, s.adverts[e.id].status, e.a.status)
    ensures var s' := Apply(Apply(s, e), LogTransition);
            && Enabled(s, e) && Reachable(s') && s'.open.None?
            && s'.adverts == s.adverts[e.id := e.a] && s'.history == s.history + [e.row]
  {
    AllStored(s);
    StepReachable(s, e);
    StepReachable(Apply(s, e), LogTransition);
    hide Reachable;
  }

  lemma {:induction false} ListingKeepsUpToDate(s: Sys, cutoff: Time)
    ensures UpToDate(s) ==> UpToDate(Apply(s, List(cutoff)))
  {
    assert forall id :: TraceOf(Apply(s, List(cutoff)), id) == TraceOf(s, id);
    assert UpToDate(s) ==> forall id :: id in s.adverts ==> NothingOwedFor(s, id);
  }

  lemma {:induction false} StillDue(
    before: map<int, Advert>, cutoff: Time, rows: seq<SoldRow>, n: nat, now: Time, after: map<int, Advert>)
    requires ArchivedFirst(before, rows, n, now, after) && n < |rows| && DueRow(before, cutoff, rows[n])
    requires forall i, j :: 0 <= i < j < |rows| ==> rows[i].id != rows[j].id
    ensures DueRow(after, cutoff, rows[n])
  {
    assert !InFirst(rows, n, rows[n].id);
  }

  /** Draft and edit: the edit expects version 1. */
  method DraftAndEdit(store: AdvertStore) returns (id: int, r: Result<Advert>)
    requires store.Valid() && store.adverts == map[]
    modifies store
    ensures store.Valid() && id == 1 && r.Ok? && store.adverts == map[1 := r.value]
    ensures r.value.version == 2 && r.value.owner == 7 && r.value.status == Draft && r.value.deletedAt.None?
  {
    var created := store.CreateDraft(7, None, "old", 0);
    id := created.value;
    r := store.UpdateDetails(7, id, SetDetails("edited"), 1, 1, false);
  }

  method SubmitRejectDelete(store: AdvertStore)
    requires store.Valid() && 1 in store.adverts && store.adverts.Keys == {1} && store.adverts[1].version == 2
    requires store.adverts[1].owner == 7 && store.adverts[1].status == Draft && store.adverts[1].deletedAt.None?
    modifies store
    ensures store.Valid() && store.adverts == map[]
  {
    var submitted := store.SubmitForReview(7, true, 1, 2, {Draft}, true, 2);
    var rejected := store.AdminTransition(9, 1, 3, "incomplete", PendingReview, Rejected, 3);
    var deleted := store.DeleteAdvert(1);
  }

  /** Numbers are reused after a permanent deletion, so the promise is about one advert and not about
      one number: here two requests for number 1 expecting version 1 both write. */
  method NumberReused() returns (id: int, id': int, first: Result<Advert>, second: Result<Advert>)
    ensures id == id' && first.Ok? && second.Ok? && first.value.version == 2 && second.value.version == 2
  {
    var store := new AdvertStore();
    id, first := DraftAndEdit(store);
    SubmitRejectDelete(store);
    id', second := DraftAndEdit(store);
  }

  // ---------------------------------------------------------------- the auto-archive race

  /** All rows of a history about one advert. */
  lemma {:induction false} OneAdvert(history: seq<Row>, id: int)
    requires forall i :: 0 <= i < |history| ==> history[i].advert == id
    ensures RowsOf(history, id) == history && Purged(history, id) == []
  {
    if history != [] {
      OneAdvert(history[..|history| - 1], id);
    }
  }

  lemma {:induction false} SaleLog(rows: seq<Row>)
    requires |rows| == 4 && rows[0].from == None && rows[0].to == Draft
    requires rows[1].from == Some(Draft) && rows[1].to == PendingReview && rows[1].actor.Owner?
    requires rows[2].from == Some(PendingReview) && rows[2].to == Published && rows[2].actor.Admin?
    requires rows[3].from == Some(Published) && rows[3].to == Sold && rows[3].actor.Owner?
    ensures Faithful(rows, Sold)
  {
  }

  lemma {:induction false} NotALog(rows: seq<Row>, i: nat, status: AdvertStatus)
    requires i < |rows| && rows[i].from != if i == 0 then None else Some(rows[i - 1].to)
    ensures !Faithful(rows, status)
  {
  }

  /** Advert 1 is drafted and submitted. */
  method SubmitOne() returns (store: AdvertStore)
    ensures fresh(store) && store.Valid() && store.adverts.Keys == {1}
    ensures var a := store.adverts[1];
            a.owner == 7 && a.status == PendingReview && a.version == 2 && a.deletedAt.None?
    ensures store.history == [Row(1, None, Draft, Owner(7), None, 1),
                              Row(1, Some(Draft), PendingReview, Owner(7), None, 2)]
  {
    hide Apply, Enabled, Reachable;
    store := new AdvertStore();
    var created := store.CreateDraft(7, None, "a horse", 1);
    var submitted := store.SubmitForReview(7, true, 1, 1, {Draft}, true, 2);
  }

  /** It is approved, and sold at time 4 with the sale stamped. */
  method SellOne() returns (store: AdvertStore)
    ensures fresh(store) && store.Valid() && store.adverts.Keys == {1}
    ensures var a := store.adverts[1];
            a.owner == 7 && a.status == Sold && a.version == 4 && a.deletedAt.None? && a.soldAt == Some(4)
    ensures |store.history| == 4 && Faithful(store.history, Sold)
    ensures forall i :: 0 <= i < 4 ==> store.history[i].advert == 1
  {
    hide Apply, Enabled, Reachable, Faithful;
    store := SubmitOne();
    var approved := store.ApproveAdvert(9, 1, 2, true, 3);
    var sold := store.OwnerTransition(7, 1, 3, Published, Sold, 4);
    store.StampSold(1, 4);
    SaleLog(store.history);
  }

  /** Advert 1 is listed a day later, and the worker makes the first of its two writes. */
  method ArchiveHalf() returns (store: AdvertStore, ghost place: Place)
    ensures fresh(store) && store.Valid() && store.adverts.Keys == {1}
    ensures var a := store.adverts[1]; a.owner == 7 && a.status == Archived && a.version == 5 && a.deletedAt.None?
    ensures |store.history| == 4 && Faithful(store.history, Sold)
    ensures forall i :: 0 <= i < 4 ==> store.history[i].advert == 1
    ensures Owes(store.trace, place, AutoArchiveRow(1, 2 * DAY))
  {
    hide Apply, Enabled, Reachable, Faithful, Owes;
    store := SellOne();
    var rows := store.ListSoldForAutoArchive(DAY, DEFAULT_BATCH);
    assert DueRow(store.adverts, DAY, SoldRow(1, 4, 4));
    var wrote;
    wrote, place := store.ArchiveWrite(1, 4, 2 * DAY);
  }

  lemma {:induction false} StillOwed(s: Sys, e: Step, p: Place, row: Row)
    requires Reachable(s) && Owes(s, p, row) && !e.ArchiveLog?
    ensures Owes(Apply(s, e), p, row)
    ensures Owes(Apply(Apply(s, e), LogTransition), p, row)
  {
    ReachableInv(s);
    OwedStays(s, e, p);
    StepReachable(s, e);
    ReachableInv(Apply(s, e));
    hide Reachable, Inv;
    OwedStays(Apply(s, e), LogTransition, p);
  }

  /** The owner re-publishes between the worker's two writes: the log of advert 1 ends in ARCHIVED
      while the advert is published. */
  method RepublishedBetween() returns (store: AdvertStore)
    ensures store.Valid() && store.adverts.Keys == {1} && store.adverts[1].status == Published
    ensures !Faithful(RowsOf(store.history, 1), store.adverts[1].status)
  {
    hide Apply, Enabled, Reachable, Faithful, Owes, RowsOf, Purged;
    ghost var place;
    store, place := ArchiveHalf();
    ghost var was := store.trace;
    var again := store.OwnerTransition(7, 1, 5, Archived, Published, 2 * DAY);
    StillOwed(was, Transition(1, 5, store.adverts[1], store.history[4]), place, AutoArchiveRow(1, 2 * DAY));
    store.ArchiveLog(1, 2 * DAY, place);
    OneAdvert(store.history, 1);
    NotALog(store.history, 5, Published);
  }

  /** The advert is deleted between the worker's two writes, and its number given to a new draft: the
      draft's log begins with the row of the advert that is gone. */
  method DeletedBetween() returns (store: AdvertStore)
    ensures store.Valid() && store.adverts.Keys == {1} && store.adverts[1].status == Draft
    ensures !Faithful(RowsOf(store.history, 1), store.adverts[1].status)
  {
    hide Apply, Enabled, Reachable, Faithful, Owes, RowsOf, Purged;
    ghost var place;
    store, place := ArchiveHalf();
    ghost var was := store.trace;
    OneAdvert(store.history, 1);
    var deleted := store.DeleteAdvert(1);
    StillOwed(was, Delete(1), place, AutoArchiveRow(1, 2 * DAY));
    store.ArchiveLog(1, 2 * DAY, place);
    var created := store.CreateDraft(8, None, "another horse", 2 * DAY);
    OneAdvert(store.history, 1);
    NotALog(store.history, 0, Draft);
  }
}
