/** The notification runtime store and the fan-out page job: one run of the job is a list
    of repository writes, any prefix of which may be all that happens. */
module Fanout {
  import opened Basics
  import opened Listing

  datatype FanoutType = PackageAdvert | AdvancedAdvert | UrgentAdvert

  datatype User = User(active: bool, emailVerified: bool, emailNonBlank: bool)

  datatype EligibleUser = EligibleUser(id: Id, emailVerified: bool, emailNonBlank: bool, allowEmail: bool)

  datatype EmailStatus = NotRequested | EmailQueued | EmailSent | EmailFailed

  datatype Delivery = Delivery(deliveredAt: Time, emailStatus: EmailStatus, hasIdempotencyKey: bool)

  datatype Payload =
    | PageJob(jobType: FanoutType, nid: Id, after: Option<Id>)
    | ChunkJob(nid: Id, users: seq<Id>)
    | OtherJob(tag: string)

  /** Deduplication keys; FanoutKeys shows that their text forms are as distinct as these. */
  datatype Key =
    | PageKey(jobType: FanoutType, nid: Id, after: Option<Id>)
    | ChunkKey(nid: Id, first: Id, last: Id)
    | OtherKey(tag: string)

  datatype FanJob = FanJob(payload: Payload, key: Key, availableAt: Time)

  /** Delivery states by (user, notification), the queued jobs, and the keys already used. */
  datatype Store = Store(states: map<(Id, Id), Delivery>, jobs: seq<FanJob>, dedup: set<Key>)

  /** One fan-out: its job type and notification, the recipients in id order, which of them
      can get e-mail, and the two batch sizes. */
  datatype Plan = Plan(
    jobType: FanoutType, nid: Id, all: seq<Id>, emailable: set<Id>, pageSize: nat, chunkSize: nat)

  datatype Write =
    | InsertStates(users: seq<Id>)
    | EnqueueChunk(users: seq<Id>)
    | EnqueuePage(after: Id)

  // ---------------------------------------------------------------- what one page job writes

  /** Contiguous groups of at most size ids. */
  function ChunksOf(ids: seq<Id>, size: nat): seq<seq<Id>>
    requires size >= 1
  {
    if ids == [] then []
    else if |ids| <= size then [ids]
    else [ids[..size]] + ChunksOf(ids[size..], size)
  }

  function Emailable(ids: seq<Id>, emailable: set<Id>): seq<Id> {
    if ids == [] then []
    else (if ids[0] in emailable then [ids[0]] else []) + Emailable(ids[1..], emailable)
  }

  function ChunkWrites(chunks: seq<seq<Id>>): (ws: seq<Write>)
    ensures |ws| == |chunks| && forall i :: 0 <= i < |ws| ==> ws[i] == EnqueueChunk(chunks[i])
  {
    seq(|chunks|, i requires 0 <= i < |chunks| => EnqueueChunk(chunks[i]))
  }

  predicate ValidPlan(p: Plan) {
    p.pageSize >= 1 && p.chunkSize >= 1
  }

  function Page(p: Plan, after: Option<Id>): seq<Id> {
    Take(Rest(p.all, after), p.pageSize)
  }

  /** The writes of the page job that resumes after a cursor, in program order. */
  function WritesOf(p: Plan, after: Option<Id>): seq<Write>
    requires ValidPlan(p)
  {
    var page := Page(p, after);
    if page == [] then []
    else
      [InsertStates(page)]
      + ChunkWrites(ChunksOf(Emailable(page, p.emailable), p.chunkSize))
      + (if |Rest(p.all, after)| > p.pageSize then [EnqueuePage(page[|page| - 1])] else [])
  }

  // ---------------------------------------------------------------- the repository writes

  function DeliveryFor(p: Plan, user: Id, now: Time): Delivery {
    if user in p.emailable then Delivery(now, EmailQueued, true) else Delivery(now, NotRequested, false)
  }

  function KeyOf(payload: Payload): Key
    requires payload.ChunkJob? ==> payload.users != []
  {
    match payload
    case PageJob(t, n, after) => PageKey(t, n, after)
    case ChunkJob(n, users) => ChunkKey(n, users[0], users[|users| - 1])
    case OtherJob(tag) => OtherKey(tag)
  }

  /** Enqueue, treating a key that is already taken as success. */
  function Enqueued(st: Store, payload: Payload, now: Time): Store
    requires payload.ChunkJob? ==> payload.users != []
  {
    var key := KeyOf(payload);
    if key in st.dedup then st
    else st.(jobs := st.jobs + [FanJob(payload, key, now)], dedup := st.dedup + {key})
  }

  /** Insert-if-absent for each user in turn. */
  function WithStates(states: map<(Id, Id), Delivery>, p: Plan, users: seq<Id>, now: Time): map<(Id, Id), Delivery> {
    if users == [] then states
    else
      var before := WithStates(states, p, users[..|users| - 1], now);
      var k := (users[|users| - 1], p.nid);
      if k in before then before else before[k := DeliveryFor(p, users[|users| - 1], now)]
  }

  predicate WellFormedWrite(w: Write) {
    w.EnqueueChunk? ==> w.users != []
  }

  function Apply(st: Store, p: Plan, w: Write, now: Time): Store
    requires WellFormedWrite(w)
  {
    match w
    case InsertStates(users) => st.(states := WithStates(st.states, p, users, now))
    case EnqueueChunk(users) => Enqueued(st, ChunkJob(p.nid, users), now)
    case EnqueuePage(after) => Enqueued(st, PageJob(p.jobType, p.nid, Some(after)), now)
  }

  function ApplyAll(st: Store, p: Plan, ws: seq<Write>, now: Time): Store
    requires forall i :: 0 <= i < |ws| ==> WellFormedWrite(ws[i])
  {
    if ws == [] then st else Apply(ApplyAll(st, p, ws[..|ws| - 1], now), p, ws[|ws| - 1], now)
  }

  /** The store took the first `budget` writes of the page job, all of them exactly when it finished. */
  ghost predicate WritesDone(
    st: Store, p: Plan, after: Option<Id>, now: Time, budget: nat, st': Store, finished: bool)
    requires ValidPlan(p)
  {
    var ws := WritesOf(p, after);
    WritesAreWellFormed(p, after);
    && (finished <==> |ws| <= budget)
    && st' == ApplyAll(st, p, ws[..Min(budget, |ws|)], now)
  }

  // ---------------------------------------------------------------- facts about chunks

  lemma {:induction false} ChunksNonEmpty(ids: seq<Id>, size: nat)
    requires size >= 1
    ensures forall c :: 0 <= c < |ChunksOf(ids, size)| ==> 1 <= |ChunksOf(ids, size)[c]| <= size
  {
    if |ids| > size {
      ChunksNonEmpty(ids[size..], size);
    }
  }

  lemma {:induction false} WritesAreWellFormed(p: Plan, after: Option<Id>)
    requires ValidPlan(p)
    ensures forall i :: 0 <= i < |WritesOf(p, after)| ==> WellFormedWrite(WritesOf(p, after)[i])
  {
    ChunksNonEmpty(Emailable(Page(p, after), p.emailable), p.chunkSize);
  }

  function Flatten(chunks: seq<seq<Id>>): seq<Id> {
    if chunks == [] then [] else chunks[0] + Flatten(chunks[1..])
  }

  /** Chunking neither loses, repeats nor reorders an id. */
  lemma {:induction false} ChunksFlatten(ids: seq<Id>, size: nat)
    requires size >= 1
    ensures Flatten(ChunksOf(ids, size)) == ids
  {
    if |ids| > size {
      ChunksFlatten(ids[size..], size);
      assert ChunksOf(ids, size)[1..] == ChunksOf(ids[size..], size);
    } else if ids != [] {
      assert ChunksOf(ids, size) == [ids];
      assert Flatten(([ids])[1..]) == [];
    }
  }

  // ---------------------------------------------------------------- the store

  ghost function ActiveIds(users: map<Id, User>): set<Id> {
    set id | id in users && users[id].active
  }

  ghost function EmailableIds(users: map<Id, User>): set<Id> {
    set id | id in users && users[id].emailVerified && users[id].emailNonBlank
  }

  /** The fan-out of a notification to the users as they stand. */
  ghost function PlanFor(users: map<Id, User>, jobType: FanoutType, nid: Id, pageSize: nat, chunkSize: nat): Plan {
    Plan(jobType, nid, ListingOf(ActiveIds(users)), EmailableIds(users), pageSize, chunkSize)
  }

  class RuntimeStore {
    var users: map<Id, User>
    var notifications: set<Id>
    var states: map<(Id, Id), Delivery>
    var jobs: seq<FanJob>
    var jobDedup: set<Key>

    ghost function State(): Store
      reads this
    {
      Store(states, jobs, jobDedup)
    }

    method CollectEligibleIds(after: Option<Id>) returns (ids: seq<Id>)
      ensures forall i, j :: 0 <= i < j < |ids| ==> ids[i] != ids[j]
      ensures forall x :: x in ids <==> x in ActiveIds(users) && (after == None || x > after.value)
    {
      ids := [];
      var todo := users.Keys;
      while todo != {}
        invariant todo <= users.Keys
        invariant forall i, j :: 0 <= i < j < |ids| ==> ids[i] != ids[j]
        invariant forall x :: x in ids <==> x in users && x !in todo && users[x].active
                                            && !(after.Some? && x <= after.value)
        decreases todo
      {
        var id :| id in todo;
        todo := todo - {id};
        if !users[id].active || (after.Some? && id <= after.value) {
          continue;
        }
        ids := ids + [id];
      }
    }

    method ListEligibleUsersAfterCursor(after: Option<Id>, limit: nat) returns (out: seq<EligibleUser>)
      ensures Ids(out) == Take(Rest(ListingOf(ActiveIds(users)), after), limit)
      ensures Listed(out, users)
    {
      var ids := CollectEligibleIds(after);
      CollectedIsRest(ids, ActiveIds(users), after);
      ids := Sort(ids);
      if |ids| > limit {
        ids := ids[..limit];
      }
      assert forall i :: 0 <= i < |ids| ==> ids[i] in users;
      out := ProjectUsers(ids);
    }

    method ProjectUsers(ids: seq<Id>) returns (out: seq<EligibleUser>)
      requires forall i :: 0 <= i < |ids| ==> ids[i] in users
      ensures Ids(out) == ids
      ensures Listed(out, users)
    {
      out := [];
      for i := 0 to |ids|
        invariant |out| == i
        invariant forall j :: 0 <= j < i ==>
                                out[j] == EligibleUser(ids[j], users[ids[j]].emailVerified,
                                                       users[ids[j]].emailNonBlank, true)
      {
        var u := users[ids[i]];
        out := out + [EligibleUser(ids[i], u.emailVerified, u.emailNonBlank, true)];
      }
    }

    method InsertUserNotificationStates(ghost p: Plan, nid: Id, rows: seq<(Id, Delivery)>, now: Time)
      requires nid == p.nid
      requires forall i :: 0 <= i < |rows| ==> rows[i].1 == DeliveryFor(p, rows[i].0, now)
      modifies this`states
      ensures states == WithStates(old(states), p, RowIds(rows), now)
    {
      ghost var ids := RowIds(rows);
      for i := 0 to |rows|
        invariant states == WithStates(old(states), p, ids[..i], now)
      {
        assert ids[..i + 1][..i] == ids[..i];
        var k := (rows[i].0, nid);
        if k in states {
          continue;
        }
        states := states[k := rows[i].1];
      }
      assert ids[..|rows|] == ids;
    }

    method EnqueueJobIgnoringDuplicate(payload: Payload, now: Time)
      requires payload.ChunkJob? ==> payload.users != []
      modifies this`jobs, this`jobDedup
      ensures State() == Enqueued(old(State()), payload, now)
    {
      var key := KeyOf(payload);
      if key in jobDedup {
        return;
      }
      jobDedup := jobDedup + {key};
      jobs := jobs + [FanJob(payload, key, now)];
    }

    method ChunkUserIDs(ids: seq<Id>, size: int) returns (out: seq<seq<Id>>)
      ensures out == ChunksOf(ids, if size < 1 then 1 else size)
    {
      if |ids| == 0 {
        return [];
      }
      var step := if size < 1 then 1 else size;
      out := [];
      var start := 0;
      while start < |ids|
        invariant out + ChunksOf(Drop(ids, start), step) == ChunksOf(ids, step)
      {
        var end := start + step;
        if end > |ids| {
          end := |ids|;
        }
        ChunkStep(ids, start, step);
        out := out + [ids[start..end]];
        start := start + step;
      }
    }

    method BuildStates(ghost p: Plan, listed: seq<EligibleUser>, now: Time)
      returns (rows: seq<(Id, Delivery)>, queued: seq<Id>)
      requires p.emailable == EmailableIds(users)
      requires Listed(listed, users)
      ensures |rows| == |listed|
      ensures forall i :: 0 <= i < |rows| ==> rows[i] == (listed[i].id, DeliveryFor(p, listed[i].id, now))
      ensures queued == Emailable(Ids(listed), p.emailable)
    {
      rows, queued := [], [];
      ghost var page := Ids(listed);
      for i := 0 to |listed|
        invariant |rows| == i
        invariant forall j :: 0 <= j < i ==> rows[j] == (page[j], DeliveryFor(p, page[j], now))
        invariant queued + Emailable(page[i..], p.emailable) == Emailable(page, p.emailable)
      {
        var u := listed[i];
        assert page[i..][1..] == page[i + 1..];
        if u.emailVerified && u.emailNonBlank && u.allowEmail {
          rows := rows + [(u.id, Delivery(now, EmailQueued, true))];
          queued := queued + [u.id];
        } else {
          rows := rows + [(u.id, Delivery(now, NotRequested, false))];
        }
      }
    }

    /** Enqueues the chunk jobs that still fit in the budget. */
    method EnqueueChunks(ghost p: Plan, nid: Id, chunks: seq<seq<Id>>, now: Time, budget: nat) returns (done: bool)
      requires nid == p.nid && forall i :: 0 <= i < |chunks| ==> chunks[i] != []
      modifies this`jobs, this`jobDedup
      ensures done <==> |chunks| <= budget
      ensures State() == ApplyAll(old(State()), p, ChunkWrites(chunks)[..Min(budget, |chunks|)], now)
    {
      ghost var ws := ChunkWrites(chunks);
      for i := 0 to |chunks|
        invariant i <= budget
        invariant State() == ApplyAll(old(State()), p, ws[..i], now)
      {
        if i == budget {
          return false;
        }
        assert ws[..i + 1][..i] == ws[..i];
        EnqueueJobIgnoringDuplicate(ChunkJob(nid, chunks[i]), now);
      }
      return true;
    }

    method WriteStatesAndChunks(
      ghost p: Plan, ghost ws: seq<Write>, nid: Id, rows: seq<(Id, Delivery)>, chunks: seq<seq<Id>>,
      now: Time, budget: nat) returns (done: bool)
      requires nid == p.nid
      requires forall i :: 0 <= i < |rows| ==> rows[i].1 == DeliveryFor(p, rows[i].0, now)
      requires forall i :: 0 <= i < |chunks| ==> chunks[i] != []
      requires ws == [InsertStates(RowIds(rows))] + ChunkWrites(chunks)
      modifies this`states, this`jobs, this`jobDedup
      ensures done <==> |ws| <= budget
      ensures State() == ApplyAll(old(State()), p, ws[..Min(budget, |ws|)], now)
    {
      if budget == 0 {
        return false;
      }
      hide WithStates, Enqueued, DeliveryFor, RowIds;
      ghost var s0, head, cw := State(), ws[..1], ChunkWrites(chunks);
      InsertUserNotificationStates(p, nid, rows, now);
      assert head == [ws[0]] && head[..0] == [];
      assert State() == ApplyAll(s0, p, head, now);
      done := EnqueueChunks(p, nid, chunks, now, budget - 1);
      ghost var m := Min(budget - 1, |cw|);
      ApplyAllConcat(s0, p, head, cw[..m], now);
      assert ws[..m + 1] == head + cw[..m];
    }

    /** The write section of a page job: the states, then the chunks, then the next page. */
    method WritePage(
      ghost p: Plan, ghost ws: seq<Write>, jobType: FanoutType, nid: Id, rows: seq<(Id, Delivery)>,
      chunks: seq<seq<Id>>, next: Option<Id>, now: Time, budget: nat) returns (done: bool)
      requires nid == p.nid && jobType == p.jobType
      requires forall i :: 0 <= i < |rows| ==> rows[i].1 == DeliveryFor(p, rows[i].0, now)
      requires forall i :: 0 <= i < |chunks| ==> chunks[i] != []
      requires ws == [InsertStates(RowIds(rows))] + ChunkWrites(chunks)
                     + (if next.Some? then [EnqueuePage(next.value)] else [])
      modifies this`states, this`jobs, this`jobDedup
      ensures done <==> |ws| <= budget
      ensures State() == ApplyAll(old(State()), p, ws[..Min(budget, |ws|)], now)
    {
      ghost var first := [InsertStates(RowIds(rows))] + ChunkWrites(chunks);
      done := WriteStatesAndChunks(p, first, nid, rows, chunks, now, budget);
      assert first[..Min(budget, |first|)] == ws[..Min(budget, |first|)];
      if !done || next.None? {
        return;
      }
      if |chunks| + 1 == budget {
        return false;
      }
      assert ws[..|ws|][..|ws| - 1] == first[..|first|];
      EnqueueJobIgnoringDuplicate(PageJob(jobType, nid, next), now);
    }

    /** Reads one row past the page, so that the last page knows it is the last. */
    method ReadPage(ghost rest: seq<Id>, after: Option<Id>, pageSize: nat)
      returns (listed: seq<EligibleUser>, next: Option<Id>)
      requires rest == Rest(ListingOf(ActiveIds(users)), after) && pageSize >= 1
      ensures Ids(listed) == Take(rest, pageSize) && Listed(listed, users)
      ensures next.Some? <==> |rest| > pageSize
      ensures next.Some? ==> listed != [] && next.value == listed[|listed| - 1].id
    {
      hide ListingOf, ActiveIds, Rest, Listed, Ids, Take;
      var full := ListEligibleUsersAfterCursor(after, pageSize + 1);
      listed, next := SplitPage(rest, full, pageSize);
      ListedPrefix(full, listed, users);
    }

    method HandlePage(
      ghost p: Plan, after: Option<Id>, jobType: FanoutType, nid: Id, listed: seq<EligibleUser>, next: Option<Id>,
      chunkSize: nat, now: Time, budget: nat) returns (done: bool)
      requires ValidPlan(p) && p.emailable == EmailableIds(users)
      requires p.nid == nid && p.jobType == jobType && p.chunkSize == chunkSize
      requires listed != [] && Ids(listed) == Page(p, after) && Listed(listed, users)
      requires next.Some? <==> |Rest(p.all, after)| > p.pageSize
      requires next.Some? ==> next.value == listed[|listed| - 1].id
      modifies this`states, this`jobs, this`jobDedup
      ensures WritesDone(old(State()), p, after, now, budget, State(), done)
    {
      var rows, queued := BuildStates(p, listed, now);
      var chunks := ChunkUserIDs(queued, chunkSize);
      ChunksNonEmpty(queued, chunkSize);
      assert RowIds(rows) == Page(p, after);
      WritesAreWellFormed(p, after);
      done := WritePage(p, WritesOf(p, after), jobType, nid, rows, chunks, next, now, budget);
    }

    /** One run of the page job after a cursor. The store accepts `budget` writes and then the
        process stops: a crash, or a repository error that ends the job. */
    method ProcessAdvertFanout(
      jobType: FanoutType, nid: Id, after: Option<Id>, pageSize: nat, chunkSize: nat, now: Time, budget: nat)
      returns (r: Result<()>)
      requires pageSize >= 1 && chunkSize >= 1
      modifies this`states, this`jobs, this`jobDedup
      ensures nid !in notifications ==> r == Err(NotFound) && State() == old(State())
      ensures nid in notifications ==>
                WritesDone(old(State()), PlanFor(users, jobType, nid, pageSize, chunkSize), after, now, budget,
                           State(), r.Ok?)
      ensures DeliversNow(users, nid, now, old(State()), State())
    {
      if nid !in notifications {
        return Err(NotFound);
      }
      ghost var p := PlanFor(users, jobType, nid, pageSize, chunkSize);
      var listed, next := ReadPage(Rest(p.all, after), after, pageSize);
      if |listed| == 0 {
        CallDelivers(users, jobType, nid, pageSize, chunkSize, after, now, budget, State(), State(), true);
        return Ok(());
      }
      var done := HandlePage(p, after, jobType, nid, listed, next, chunkSize, now, budget);
      CallDelivers(users, jobType, nid, pageSize, chunkSize, after, now, budget, old(State()), State(), done);
      return if done then Ok(()) else Err(Internal);
    }
  }

  // ---------------------------------------------------------------- what one run leaves behind

  lemma {:induction false} StatesGrow(states: map<(Id, Id), Delivery>, p: Plan, users: seq<Id>, now: Time)
    ensures var after := WithStates(states, p, users, now);
            && (forall key :: key in states ==> key in after && after[key] == states[key])
            && (forall key :: key in after && key !in states ==>
                  key.1 == p.nid && key.0 in users && after[key] == DeliveryFor(p, key.0, now))
            && (forall u :: u in users ==> (u, p.nid) in after)
  {
    if users != [] {
      StatesGrow(states, p, users[..|users| - 1], now);
      assert users == users[..|users| - 1] + [users[|users| - 1]];
    }
  }

  /** Any list of writes only adds: deliveries to users it names, and jobs that are due at once. */
  lemma {:induction false} ApplyAllGrows(st: Store, p: Plan, ws: seq<Write>, now: Time)
    requires forall i :: 0 <= i < |ws| ==> WellFormedWrite(ws[i])
    ensures var st' := ApplyAll(st, p, ws, now);
            && (forall key :: key in st.states ==> key in st'.states && st'.states[key] == st.states[key])
            && (forall key :: key in st'.states && key !in st.states ==>
                  key.1 == p.nid && Named(ws, key.0) && st'.states[key] == DeliveryFor(p, key.0, now))
            && st.jobs <= st'.jobs
            && (forall i :: |st.jobs| <= i < |st'.jobs| ==> st'.jobs[i].availableAt == now)
  {
    if ws != [] {
      var front, w := ws[..|ws| - 1], ws[|ws| - 1];
      ApplyAllGrows(st, p, front, now);
      forall u | Named(front, u)
        ensures Named(ws, u)
      {
        var i :| 0 <= i < |front| && front[i].InsertStates? && u in front[i].users;
        assert ws[i] == front[i];
      }
      if w.InsertStates? {
        StatesGrow(ApplyAll(st, p, front, now).states, p, w.users, now);
      }
    }
  }

  ghost predicate Named(ws: seq<Write>, u: Id) {
    exists i :: 0 <= i < |ws| && ws[i].InsertStates? && u in ws[i].users
  }

  /** What one call adds, in terms of the users as they stand: deliveries of this notification to active
      users, made now, with an e-mail queued exactly for a verified, non-blank address; and jobs due now. */
  ghost predicate DeliversNow(users: map<Id, User>, nid: Id, now: Time, st: Store, st': Store) {
    && (forall key :: key in st.states ==> key in st'.states && st'.states[key] == st.states[key])
    && (forall key :: key in st'.states && key !in st.states ==>
          && key.1 == nid && key.0 in users && users[key.0].active
          && var d, mail := st'.states[key], users[key.0].emailVerified && users[key.0].emailNonBlank;
          && d.deliveredAt == now && d.emailStatus == (if mail then EmailQueued else NotRequested)
          && (d.hasIdempotencyKey <==> mail))
    && st.jobs <= st'.jobs
    && (forall i :: |st.jobs| <= i < |st'.jobs| ==> st'.jobs[i].availableAt == now)
  }

  lemma {:induction false} OnlyThePageIsNamed(p: Plan, after: Option<Id>, n: nat, u: Id)
    requires ValidPlan(p) && Ascending(p.all) && n <= |WritesOf(p, after)| && Named(WritesOf(p, after)[..n], u)
    ensures u in p.all
  {
    var ws := WritesOf(p, after);
    var i :| 0 <= i < n && ws[..n][i].InsertStates? && u in ws[..n][i].users;
    assert ws[i].InsertStates?;
    RestMembers(p.all, after);
    assert u in Page(p, after);
    assert u in Rest(p.all, after);
  }

  lemma {:induction false} CallDelivers(
    users: map<Id, User>, jobType: FanoutType, nid: Id, pageSize: nat, chunkSize: nat, after: Option<Id>, now: Time,
    budget: nat, st: Store, st': Store, finished: bool)
    requires pageSize >= 1 && chunkSize >= 1
    requires WritesDone(st, PlanFor(users, jobType, nid, pageSize, chunkSize), after, now, budget, st', finished)
    ensures DeliversNow(users, nid, now, st, st')
  {
    var p := PlanFor(users, jobType, nid, pageSize, chunkSize);
    var n := Min(budget, |WritesOf(p, after)|);
    WritesAreWellFormed(p, after);
    ApplyAllGrows(st, p, WritesOf(p, after)[..n], now);
    forall key | key in st'.states && key !in st.states
      ensures key.0 in ActiveIds(users)
    {
      OnlyThePageIsNamed(p, after, n, key.0);
    }
  }

  /** The ids a scan collects after a cursor sort to the rest of the listing. */
  lemma {:induction false} CollectedIsRest(ids: seq<Id>, active: set<Id>, after: Option<Id>)
    requires forall i, j :: 0 <= i < j < |ids| ==> ids[i] != ids[j]
    requires forall x :: x in ids <==> x in active && (after == None || x > after.value)
    ensures Sort(ids) == Rest(ListingOf(active), after)
    ensures forall i :: 0 <= i < |Sort(ids)| ==> Sort(ids)[i] in active
  {
    SortLists(ids);
    RestMembers(ListingOf(active), after);
    ListingUnique(Sort(ids), Rest(ListingOf(active), after));
  }

  /** The listed rows are the stored users they name. */
  predicate Listed(listed: seq<EligibleUser>, users: map<Id, User>) {
    forall i :: 0 <= i < |listed| ==>
                  listed[i].id in users
                  && listed[i] == EligibleUser(listed[i].id, users[listed[i].id].emailVerified,
                                               users[listed[i].id].emailNonBlank, true)
  }

  lemma {:induction false} ListedPrefix(full: seq<EligibleUser>, listed: seq<EligibleUser>, users: map<Id, User>)
    requires Listed(full, users) && listed <= full
    ensures Listed(listed, users)
  {
  }

  method SplitPage(ghost rest: seq<Id>, full: seq<EligibleUser>, pageSize: nat)
    returns (listed: seq<EligibleUser>, next: Option<Id>)
    requires pageSize >= 1 && Ids(full) == Take(rest, pageSize + 1)
    ensures Ids(listed) == Take(rest, pageSize) && listed <= full
    ensures next.Some? <==> |rest| > pageSize
    ensures next.Some? ==> listed != [] && next.value == listed[|listed| - 1].id
  {
    listed, next := full, None;
    if |full| > pageSize {
      listed := full[..pageSize];
      next := Some(listed[|listed| - 1].id);
    }
    IdsOfPrefix(full, |listed|);
  }

  lemma {:induction false} IdsOfPrefix(full: seq<EligibleUser>, n: nat)
    requires n <= |full|
    ensures Ids(full[..n]) == Ids(full)[..n]
  {
  }

  function RowIds(rows: seq<(Id, Delivery)>): seq<Id> {
    seq(|rows|, i requires 0 <= i < |rows| => rows[i].0)
  }

  function Ids(listed: seq<EligibleUser>): seq<Id> {
    seq(|listed|, i requires 0 <= i < |listed| => listed[i].id)
  }

  lemma {:induction false} ChunkStep(ids: seq<Id>, start: nat, step: nat)
    requires start < |ids| && step >= 1
    ensures ChunksOf(Drop(ids, start), step)
            == [ids[start..Min(start + step, |ids|)]] + ChunksOf(Drop(ids, start + step), step)
  {
    var left := ids[start..];
    if |left| > step {
      assert left[..step] == ids[start..start + step];
      assert left[step..] == ids[start + step..];
    } else {
      assert left == ids[start..|ids|];
    }
  }

  lemma {:induction false} ApplyAllConcat(st: Store, p: Plan, a: seq<Write>, b: seq<Write>, now: Time)
    requires forall i :: 0 <= i < |a| ==> WellFormedWrite(a[i])
    requires forall i :: 0 <= i < |b| ==> WellFormedWrite(b[i])
    ensures ApplyAll(st, p, a + b, now) == ApplyAll(ApplyAll(st, p, a, now), p, b, now)
  {
    if b == [] {
      assert a + b == a;
    } else {
      ApplyAllConcat(st, p, a, b[..|b| - 1], now);
      assert (a + b)[..|a + b| - 1] == a + b[..|b| - 1];
    }
  }
}
