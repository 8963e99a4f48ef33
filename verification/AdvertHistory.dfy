/** The status history of an advert as a log, and the bookkeeping of versions. */
module AdvertHistory {
  import opened Basics

  /** Who made a status change. */
  datatype Actor = Owner(user: Id) | Admin(user: Id) | System

  datatype Row = Row(
    advert: int, from: Option<AdvertStatus>, to: AdvertStatus, actor: Actor, reason: Option<string>, at: Time)

  datatype Advert = Advert(
    owner: Id, status: AdvertStatus, version: int, deletedAt: Option<Time>, publishedAt: Option<Time>,
    soldAt: Option<Time>, category: Option<Id>, details: string, properties: string, createdAt: Time, updatedAt: Time)

  predicate OwnerAllowed(from: AdvertStatus, to: AdvertStatus) {
    match from
    case Draft => to == PendingReview
    case ChangesRequested => to == PendingReview
    case Rejected => to == PendingReview
    case Published => to == PendingReview || to == Sold || to == Archived
    case Archived => to == Published
    case _ => false
  }

  predicate AdminAllowed(from: AdvertStatus, to: AdvertStatus) {
    match from
    case PendingReview => to == Published || to == ChangesRequested || to == Rejected
    case Published => to == Suspended
    case Suspended => to == Published
    case Archived => to == Published
    case _ => false
  }

  predicate Allowed(actor: Actor, from: AdvertStatus, to: AdvertStatus) {
    match actor
    case Owner(_) => OwnerAllowed(from, to)
    case Admin(_) => AdminAllowed(from, to)
    case System => from == Sold && to == Archived
  }

  // ---------------------------------------------------------------- one advert's log

  function RowsOf(history: seq<Row>, advert: int): seq<Row> {
    if history == [] then []
    else
      var last := history[|history| - 1];
      RowsOf(history[..|history| - 1], advert) + (if last.advert == advert then [last] else [])
  }

  /** The rows start with the creation of a draft, and each begins where the one before ended. */
  ghost predicate IsLog(rows: seq<Row>) {
    && rows != []
    && rows[0].from == None && rows[0].to == Draft
    && forall i :: 0 < i < |rows| ==>
                     rows[i].from == Some(rows[i - 1].to) && Allowed(rows[i].actor, rows[i - 1].to, rows[i].to)
  }

  function Last(rows: seq<Row>): AdvertStatus
    requires rows != []
  {
    rows[|rows| - 1].to
  }

  /** The log is complete: it ends in the advert's status. */
  ghost predicate Faithful(rows: seq<Row>, status: AdvertStatus) {
    IsLog(rows) && Last(rows) == status
  }

  lemma {:induction false} RowsOfAppend(history: seq<Row>, row: Row, advert: int)
    ensures RowsOf(history + [row], advert) == RowsOf(history, advert) + (if row.advert == advert then [row] else [])
  {
    assert (history + [row])[..|history|] == history;
  }

  lemma {:induction false} LogGrows(rows: seq<Row>, row: Row)
    requires IsLog(rows) && row.from == Some(Last(rows)) && Allowed(row.actor, Last(rows), row.to)
    ensures Faithful(rows + [row], row.to)
  {
  }

  predicate NeverPublic(s: AdvertStatus) {
    s == Draft || s == PendingReview || s == ChangesRequested || s == Rejected
  }

  predicate PublishedBefore(rows: seq<Row>, n: nat)
    requires n <= |rows|
  {
    exists i :: 0 <= i < n && rows[i].to == Published
  }

  /** Until the first publication an advert is only ever drafted, reviewed and sent back. */
  lemma {:induction false} PrivateUntilPublished(rows: seq<Row>, n: nat)
    requires IsLog(rows) && n < |rows| && !PublishedBefore(rows, n + 1)
    ensures NeverPublic(rows[n].to)
  {
    if n > 0 {
      PrivateUntilPublished(rows, n - 1);
    }
  }

  /** Never published without approval: the first arrival at PUBLISHED is an administrator's
      approval of an advert under review. */
  lemma {:induction false} FirstPublicationIsApproval(rows: seq<Row>, n: nat)
    requires IsLog(rows) && n < |rows| && rows[n].to == Published && !PublishedBefore(rows, n)
    ensures rows[n].from == Some(PendingReview) && rows[n].actor.Admin?
  {
    PrivateUntilPublished(rows, n - 1);
  }

  /** SOLD, SUSPENDED and ARCHIVED come only after a publication. */
  lemma {:induction false} AfterPublication(rows: seq<Row>, n: nat)
    requires IsLog(rows) && n < |rows| && (rows[n].to == Sold || rows[n].to == Suspended || rows[n].to == Archived)
    ensures PublishedBefore(rows, n)
  {
    if !PublishedBefore(rows, n) {
      PrivateUntilPublished(rows, n);
    }
  }

  lemma {:induction false} FirstPublication(rows: seq<Row>, n: nat) returns (i: nat)
    requires n <= |rows| && PublishedBefore(rows, n)
    ensures i < n && rows[i].to == Published && !PublishedBefore(rows, i)
  {
    if PublishedBefore(rows, n - 1) {
      i := FirstPublication(rows, n - 1);
    } else {
      i := n - 1;
    }
  }

  /** An advert that is or was public has an administrator's approval in its log, and nothing but
      drafting and review before it. */
  lemma {:induction false} PublicMeansApproved(rows: seq<Row>, status: AdvertStatus) returns (i: nat)
    requires Faithful(rows, status)
              && (status == Published || status == Sold || status == Suspended || status == Archived)
    ensures i < |rows| && rows[i].from == Some(PendingReview) && rows[i].to == Published && rows[i].actor.Admin?
    ensures forall j :: 0 <= j < i ==> NeverPublic(rows[j].to)
  {
    if status != Published {
      AfterPublication(rows, |rows| - 1);
      assert PublishedBefore(rows, |rows|);
    }
    i := FirstPublication(rows, |rows|);
    FirstPublicationIsApproval(rows, i);
    forall j | 0 <= j < i
      ensures NeverPublic(rows[j].to)
    {
      PrivateUntilPublished(rows, j);
    }
  }

  function AutoArchiveRow(advert: int, now: Time): Row {
    Row(advert, Some(Sold), Archived, System, None, now)
  }

  // ---------------------------------------------------------------- versions

  /** A guarded write: which advert (by order of birth, since ids are reused) and the version it expected. */
  datatype Write = Write(serial: nat, expected: int)

  function CountWrites(writes: seq<Write>, serial: nat): nat {
    if writes == [] then 0
    else CountWrites(writes[..|writes| - 1], serial) + (if writes[|writes| - 1].serial == serial then 1 else 0)
  }

  /** Versions count guarded writes, and no version is consumed twice. */
  ghost predicate VersionsOk(adverts: map<int, Advert>, serial: map<int, nat>, births: nat, writes: seq<Write>) {
    && (forall id :: id in adverts ==> id in serial && serial[id] < births
                                       && adverts[id].version == 1 + CountWrites(writes, serial[id]))
    && (forall x, y :: x in adverts && y in adverts && x in serial && y in serial && serial[x] == serial[y] ==> x == y)
    && (forall i :: 0 <= i < |writes| ==> writes[i].serial < births)
    && (forall i, id :: 0 <= i < |writes| && id in adverts && id in serial && writes[i].serial == serial[id] ==>
                          writes[i].expected < adverts[id].version)
    && (forall i, j :: 0 <= i < j < |writes| ==> writes[i] != writes[j])
  }

  lemma {:induction false} CountAppend(writes: seq<Write>, w: Write, serial: nat)
    ensures CountWrites(writes + [w], serial) == CountWrites(writes, serial) + (if w.serial == serial then 1 else 0)
  {
    assert (writes + [w])[..|writes|] == writes;
  }

  lemma {:induction false} NoneYet(writes: seq<Write>, serial: nat)
    requires forall i :: 0 <= i < |writes| ==> writes[i].serial != serial
    ensures CountWrites(writes, serial) == 0
  {
    if writes != [] {
      NoneYet(writes[..|writes| - 1], serial);
    }
  }

  lemma {:induction false} WriteKeepsVersions(
    adverts: map<int, Advert>, serial: map<int, nat>, births: nat, writes: seq<Write>, id: int, a: Advert)
    requires VersionsOk(adverts, serial, births, writes) && id in adverts && a.version == adverts[id].version + 1
    ensures VersionsOk(adverts[id := a], serial, births, writes + [Write(serial[id], adverts[id].version)])
  {
    var w := Write(serial[id], adverts[id].version);
    forall x | x in adverts
      ensures CountWrites(writes + [w], serial[x]) == CountWrites(writes, serial[x]) + (if x == id then 1 else 0)
    {
      CountAppend(writes, w, serial[x]);
    }
  }

  lemma {:induction false} BirthKeepsVersions(
    adverts: map<int, Advert>, serial: map<int, nat>, births: nat, writes: seq<Write>, id: int, a: Advert)
    requires VersionsOk(adverts, serial, births, writes) && id !in adverts && a.version == 1
    ensures VersionsOk(adverts[id := a], serial[id := births], births + 1, writes)
  {
    NoneYet(writes, births);
  }

  lemma {:induction false} DeathKeepsVersions(
    adverts: map<int, Advert>, serial: map<int, nat>, births: nat, writes: seq<Write>, id: int)
    requires VersionsOk(adverts, serial, births, writes)
    ensures VersionsOk(adverts - {id}, serial, births, writes)
  {
  }

  // ---------------------------------------------------------------- purging

  /** The history without one advert's rows. */
  function Purged(history: seq<Row>, id: int): seq<Row> {
    if history == [] then []
    else
      var last := history[|history| - 1];
      Purged(history[..|history| - 1], id) + (if last.advert != id then [last] else [])
  }

  lemma {:induction false} PurgedRows(history: seq<Row>, id: int, other: int)
    ensures RowsOf(Purged(history, id), other) == if other == id then [] else RowsOf(history, other)
  {
    if history != [] {
      var last := history[|history| - 1];
      PurgedRows(history[..|history| - 1], id, other);
      assert Purged(history[..|history| - 1], id) + [] == Purged(history[..|history| - 1], id);
      RowsOfAppend(Purged(history[..|history| - 1], id), last, other);
    }
  }
}
