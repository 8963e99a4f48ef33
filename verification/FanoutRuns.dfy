/** Runs of a fan-out: any number of workers pick up page jobs, stop between any two writes,
    and run the same job again, while other jobs enqueue work of their own and the e-mail jobs of
    this fan-out send. However that goes, once every queued page job has completed each recipient
    has been reached exactly once. */
module FanoutRuns {
  import opened Basics
  import opened Listing
  import opened Fanout
  import opened FanoutPages

  /** A worker part-way through the page job after a cursor, with pc writes behind it. */
  datatype Exec = Exec(after: Option<Id>, pc: nat)

  /** done collects the cursors whose page job has completed at least once; mailed the recipients whose
      e-mail status a job outside the fan-out has moved. */
  datatype Sys = Sys(store: Store, running: map<nat, Exec>, done: set<Option<Id>>, mailed: set<Id>)

  datatype Step =
    | Start(worker: nat, after: Option<Id>)
    | DoWrite(worker: nat, now: Time)
    | Finish(worker: nat)
    | Crash(worker: nat)
    | Others(store: Store)

  predicate Queued(st: Store, payload: Payload) {
    exists i :: 0 <= i < |st.jobs| && st.jobs[i].payload == payload
  }

  predicate Ours(p: Plan, payload: Payload) {
    (payload.PageJob? || payload.ChunkJob?) && payload.nid == p.nid
  }

  /** Sending moves the status of a requested e-mail between QUEUED, SENT and FAILED. */
  predicate EmailMoved(d: Delivery, d': Delivery) {
    d.emailStatus != NotRequested && d'.emailStatus != NotRequested && d' == d.(emailStatus := d'.emailStatus)
  }

  /** What other jobs may do: enqueue through the same repository call, deliver other notifications, and
      move the e-mail statuses of this one. */
  ghost predicate OthersMove(p: Plan, st: Store, st': Store) {
    && StoreOk(st') && st.jobs <= st'.jobs && st.dedup <= st'.dedup
    && (forall i :: |st.jobs| <= i < |st'.jobs| ==> !Ours(p, st'.jobs[i].payload))
    && (forall u :: (u, p.nid) in st'.states <==> (u, p.nid) in st.states)
    && (forall u :: (u, p.nid) in st.states ==>
          st'.states[(u, p.nid)] == st.states[(u, p.nid)]
          || EmailMoved(st.states[(u, p.nid)], st'.states[(u, p.nid)]))
  }

  function Moved(p: Plan, st: Store, st': Store): set<Id> {
    set k | k in st.states && k.1 == p.nid && k in st'.states && st'.states[k] != st.states[k] :: k.0
  }

  ghost predicate Next(p: Plan, s: Sys, step: Step, s': Sys)
    requires GoodPlan(p)
  {
    match step
    case Start(w, after) =>
      && w !in s.running && Queued(s.store, PageJob(p.jobType, p.nid, after))
      && s' == s.(running := s.running[w := Exec(after, 0)])
    case DoWrite(w, now) =>
      && w in s.running
      && var e := s.running[w];
      && e.pc < |WritesOf(p, e.after)| && WellFormedWrite(WritesOf(p, e.after)[e.pc])
      && s' == s.(store := Apply(s.store, p, WritesOf(p, e.after)[e.pc], now),
                  running := s.running[w := Exec(e.after, e.pc + 1)])
    case Finish(w) =>
      && w in s.running && s.running[w].pc == |WritesOf(p, s.running[w].after)|
      && s' == s.(running := s.running - {w}, done := s.done + {s.running[w].after})
    case Crash(w) =>
      && w in s.running && s' == s.(running := s.running - {w})
    case Others(st) =>
      OthersMove(p, s.store, st) && s' == s.(store := st, mailed := s.mailed + Moved(p, s.store, st))
  }

  predicate About(key: Key, nid: Id) {
    (key.PageKey? || key.ChunkKey?) && key.nid == nid
  }

  /** Every row carries its own key, no key twice, and the dedup index lists exactly those keys. */
  ghost predicate StoreOk(st: Store) {
    && (forall i :: 0 <= i < |st.jobs| ==>
          (st.jobs[i].payload.ChunkJob? ==> st.jobs[i].payload.users != [])
          && st.jobs[i].key == KeyOf(st.jobs[i].payload) && st.jobs[i].key in st.dedup)
    && (forall i, j :: 0 <= i < j < |st.jobs| ==> st.jobs[i].key != st.jobs[j].key)
    && (forall k :: k in st.dedup ==> exists i :: 0 <= i < |st.jobs| && st.jobs[i].key == k)
  }

  /** The queue may hold anything else; of this notification it holds just the first page job. */
  ghost predicate Init(p: Plan, s: Sys) {
    && StoreOk(s.store)
    && s.running == map[] && s.done == {} && s.mailed == {}
    && (forall k :: k in s.store.dedup && About(k, p.nid) ==> k == PageKey(p.jobType, p.nid, None))
    && PageKey(p.jobType, p.nid, None) in s.store.dedup
    && forall key :: key in s.store.states ==> key.1 != p.nid
  }

  ghost predicate IsRun(p: Plan, states: seq<Sys>, steps: seq<Step>)
    requires GoodPlan(p)
  {
    && |states| == |steps| + 1 && Init(p, states[0])
    && forall i {:trigger steps[i]} :: 0 <= i < |steps| ==> Next(p, states[i], steps[i], states[i + 1])
  }
  // ---------------------------------------------------------------- the invariant

  /** The write has left its mark, whoever made it. */
  predicate Effect(st: Store, p: Plan, w: Write)
    requires WellFormedWrite(w)
  {
    match w
    case InsertStates(users) => forall u :: u in users ==> (u, p.nid) in st.states
    case EnqueueChunk(users) => KeyOf(ChunkJob(p.nid, users)) in st.dedup
    case EnqueuePage(after) => PageKey(p.jobType, p.nid, Some(after)) in st.dedup
  }

  ghost predicate LegitPage(p: Plan, after: Option<Id>)
    requires GoodPlan(p)
  {
    exists k: nat :: IsPage(p, k) && Cursor(p, k) == after
  }

  ghost predicate LegitChunk(p: Plan, users: seq<Id>)
    requires GoodPlan(p)
  {
    exists k: nat, c: nat :: IsPage(p, k) && c < |Chunks(p, k)| && Chunks(p, k)[c] == users
  }

  ghost predicate LegitPayload(p: Plan, payload: Payload)
    requires GoodPlan(p)
  {
    match payload
    case PageJob(t, nid, after) => nid == p.nid ==> t == p.jobType && LegitPage(p, after)
    case ChunkJob(nid, users) => nid == p.nid ==> LegitChunk(p, users)
    case OtherJob(_) => true
  }

  /** The first n writes of the list have left their marks. */
  ghost predicate Marked(p: Plan, st: Store, ws: seq<Write>, n: nat) {
    n <= |ws| && forall m :: 0 <= m < n ==> WellFormedWrite(ws[m]) && Effect(st, p, ws[m])
  }

  ghost predicate FirstWritesDone(p: Plan, st: Store, after: Option<Id>, n: nat)
    requires GoodPlan(p)
  {
    Marked(p, st, WritesOf(p, after), n)
  }

  /** The delivery is as the fan-out wrote it, but for an e-mail status that was moved since. */
  ghost predicate RightDelivery(p: Plan, u: Id, d: Delivery, mailed: bool) {
    var written := DeliveryFor(p, u, d.deliveredAt);
    u in p.all && (d == written || (mailed && EmailMoved(written, d)))
  }

  ghost predicate JobsLegit(p: Plan, st: Store)
    requires GoodPlan(p)
  {
    && StoreOk(st)
    && PageKey(p.jobType, p.nid, None) in st.dedup
    && forall i :: 0 <= i < |st.jobs| ==> LegitPayload(p, st.jobs[i].payload)
  }

  ghost predicate StatesRight(p: Plan, st: Store, mailed: set<Id>) {
    forall u :: (u, p.nid) in st.states ==> RightDelivery(p, u, st.states[(u, p.nid)], u in mailed)
  }

  ghost predicate Inv(p: Plan, s: Sys)
    requires GoodPlan(p)
  {
    match s
    case Sys(store, running, done, mailed) =>
      JobsLegit(p, store) && StatesRight(p, store, mailed) && ExecsOk(p, store, running) && DoneOk(p, store, done)
  }

  /** Each worker runs a page of the chain and its past writes have left their marks. */
  ghost predicate ExecsOk(p: Plan, st: Store, running: map<nat, Exec>)
    requires GoodPlan(p)
  {
    forall w :: w in running ==>
        LegitPage(p, running[w].after) && FirstWritesDone(p, st, running[w].after, running[w].pc)
  }

  ghost predicate DoneOk(p: Plan, st: Store, done: set<Option<Id>>)
    requires GoodPlan(p)
  {
    forall a :: a in done ==> LegitPage(p, a) && FirstWritesDone(p, st, a, |WritesOf(p, a)|)
  }

  ghost predicate Grows(p: Plan, st: Store, st': Store) {
    && (forall u :: (u, p.nid) in st.states ==> (u, p.nid) in st'.states)
    && st.dedup <= st'.dedup && st.jobs <= st'.jobs
  }

  /** A delivery once made is never made again: its time and its e-mail request stay. */
  ghost predicate DeliveriesStay(p: Plan, st: Store, st': Store) {
    forall u :: (u, p.nid) in st.states ==>
      && (u, p.nid) in st'.states
      && (var d, d' := st.states[(u, p.nid)], st'.states[(u, p.nid)];
          d'.deliveredAt == d.deliveredAt && d'.hasIdempotencyKey == d.hasIdempotencyKey
          && (d'.emailStatus == NotRequested <==> d.emailStatus == NotRequested))
  }

  lemma {:induction false} ApplyGrows(st: Store, p: Plan, w: Write, now: Time)
    requires WellFormedWrite(w)
    ensures Grows(p, st, Apply(st, p, w, now)) && Effect(Apply(st, p, w, now), p, w)
    ensures DeliveriesStay(p, st, Apply(st, p, w, now))
  {
    if w.InsertStates? {
      StatesGrow(st.states, p, w.users, now);
    }
  }

  lemma {:induction false} EnqueuedOk(st: Store, payload: Payload, now: Time)
    requires StoreOk(st) && (payload.ChunkJob? ==> payload.users != [])
    ensures StoreOk(Enqueued(st, payload, now))
  {
    var st' := Enqueued(st, payload, now);
    if st' != st {
      forall k | k in st'.dedup
        ensures exists i :: 0 <= i < |st'.jobs| && st'.jobs[i].key == k
      {
        if k in st.dedup {
          var i :| 0 <= i < |st.jobs| && st.jobs[i].key == k;
          assert st'.jobs[i].key == k;
        } else {
          assert st'.jobs[|st.jobs|].key == k;
        }
      }
    }
  }

  ghost predicate LegitWrite(p: Plan, w: Write)
    requires GoodPlan(p)
  {
    match w
    case InsertStates(users) => forall u :: u in users ==> u in p.all
    case EnqueueChunk(users) => users != [] && LegitChunk(p, users)
    case EnqueuePage(after) => LegitPage(p, Some(after))
  }

  lemma {:induction false} WritesAreLegit(p: Plan, k: nat, m: nat)
    requires GoodPlan(p) && IsPage(p, k) && m < |WritesOf(p, Cursor(p, k))|
    ensures LegitWrite(p, WritesOf(p, Cursor(p, k))[m])
  {
    WriteAt(p, k, m);
    if 0 < m <= |Chunks(p, k)| {
      assert LegitChunk(p, Chunks(p, k)[m - 1]);
    } else if m > 0 {
      assert LegitPage(p, Cursor(p, k + 1));
    }
  }

  lemma {:induction false} EnqueueKeepsJobs(p: Plan, st: Store, payload: Payload, now: Time)
    requires GoodPlan(p) && LegitPayload(p, payload) && (payload.ChunkJob? ==> payload.users != [])
    requires JobsLegit(p, st)
    ensures JobsLegit(p, Enqueued(st, payload, now))
  {
    EnqueuedOk(st, payload, now);
  }

  lemma {:induction false} InsertKeepsStates(p: Plan, st: Store, mailed: set<Id>, users: seq<Id>, now: Time)
    requires StatesRight(p, st, mailed) && forall u :: u in users ==> u in p.all
    ensures StatesRight(p, st.(states := WithStates(st.states, p, users, now)), mailed)
  {
    StatesGrow(st.states, p, users, now);
  }

  /** A legitimate write queues only legitimate jobs and right deliveries. */
  lemma {:induction false} WriteKeepsStore(p: Plan, st: Store, mailed: set<Id>, w: Write, now: Time)
    requires GoodPlan(p) && LegitWrite(p, w) && JobsLegit(p, st) && StatesRight(p, st, mailed)
    ensures JobsLegit(p, Apply(st, p, w, now)) && StatesRight(p, Apply(st, p, w, now), mailed)
  {
    match w
    case InsertStates(users) =>
      InsertKeepsStates(p, st, mailed, users, now);
    case EnqueueChunk(users) =>
      EnqueueKeepsJobs(p, st, ChunkJob(p.nid, users), now);
    case EnqueuePage(after) =>
      EnqueueKeepsJobs(p, st, PageJob(p.jobType, p.nid, Some(after)), now);
  }

  lemma {:induction false} EffectStays(p: Plan, st: Store, st': Store, ws: seq<Write>, n: nat)
    requires Grows(p, st, st') && Marked(p, st, ws, n)
    ensures Marked(p, st', ws, n)
  {
  }

  lemma {:induction false} MarkedNext(p: Plan, st: Store, ws: seq<Write>, n: nat)
    requires Marked(p, st, ws, n) && n < |ws| && WellFormedWrite(ws[n]) && Effect(st, p, ws[n])
    ensures Marked(p, st, ws, n + 1)
  {
  }

  ghost predicate CanWrite(p: Plan, s: Sys, w: nat)
    requires GoodPlan(p)
  {
    && w in s.running && s.running[w].pc < |WritesOf(p, s.running[w].after)|
    && WellFormedWrite(WritesOf(p, s.running[w].after)[s.running[w].pc])
  }

  /** The write worker w makes next. */
  ghost function NextWrite(p: Plan, s: Sys, w: nat): Write
    requires GoodPlan(p) && CanWrite(p, s, w)
  {
    WritesOf(p, s.running[w].after)[s.running[w].pc]
  }

  lemma {:induction false} WriteKeepsInv(p: Plan, s: Sys, w: nat, now: Time, s': Sys)
    requires GoodPlan(p) && Inv(p, s) && Next(p, s, DoWrite(w, now), s')
    ensures Inv(p, s')
  {
    WriteStaysLegit(p, s, w, now);
    WriteKeepsExecs(p, s, w, now);
  }

  lemma {:induction false} WriteKeepsExecs(p: Plan, s: Sys, w: nat, now: Time)
    requires GoodPlan(p) && Inv(p, s) && CanWrite(p, s, w)
    ensures var st' := Apply(s.store, p, NextWrite(p, s, w), now);
            ExecsOk(p, st', s.running[w := Exec(s.running[w].after, s.running[w].pc + 1)]) && DoneOk(p, st', s.done)
  {
    var st' := Apply(s.store, p, NextWrite(p, s, w), now);
    ApplyGrows(s.store, p, NextWrite(p, s, w), now);
    EffectsStay(p, s.store, st', s.running, s.done);
    OneMoreEffect(p, st', s.running, w);
  }

  lemma {:induction false} EffectsStay(p: Plan, st: Store, st': Store, running: map<nat, Exec>, done: set<Option<Id>>)
    requires GoodPlan(p) && Grows(p, st, st') && ExecsOk(p, st, running) && DoneOk(p, st, done)
    ensures ExecsOk(p, st', running) && DoneOk(p, st', done)
  {
    forall w | w in running
      ensures FirstWritesDone(p, st', running[w].after, running[w].pc)
    {
      EffectStays(p, st, st', WritesOf(p, running[w].after), running[w].pc);
    }
    forall a | a in done
      ensures FirstWritesDone(p, st', a, |WritesOf(p, a)|)
    {
      EffectStays(p, st, st', WritesOf(p, a), |WritesOf(p, a)|);
    }
  }

  lemma {:induction false} OneMoreEffect(p: Plan, st: Store, running: map<nat, Exec>, w: nat)
    requires GoodPlan(p) && ExecsOk(p, st, running) && w in running
    requires running[w].pc < |WritesOf(p, running[w].after)|
    requires WellFormedWrite(WritesOf(p, running[w].after)[running[w].pc])
    requires Effect(st, p, WritesOf(p, running[w].after)[running[w].pc])
    ensures ExecsOk(p, st, running[w := Exec(running[w].after, running[w].pc + 1)])
  {
    MarkedNext(p, st, WritesOf(p, running[w].after), running[w].pc);
  }

  lemma {:induction false} WriteStaysLegit(p: Plan, s: Sys, w: nat, now: Time)
    requires GoodPlan(p) && Inv(p, s) && CanWrite(p, s, w)
    ensures JobsLegit(p, Apply(s.store, p, NextWrite(p, s, w), now))
    ensures StatesRight(p, Apply(s.store, p, NextWrite(p, s, w), now), s.mailed)
  {
    var k: nat :| IsPage(p, k) && Cursor(p, k) == s.running[w].after;
    WritesAreLegit(p, k, s.running[w].pc);
    WriteKeepsStore(p, s.store, s.mailed, NextWrite(p, s, w), now);
  }

  lemma {:induction false} OthersKeepJobs(p: Plan, st: Store, st': Store)
    requires GoodPlan(p) && JobsLegit(p, st) && OthersMove(p, st, st')
    ensures JobsLegit(p, st')
  {
    forall i | 0 <= i < |st'.jobs|
      ensures LegitPayload(p, st'.jobs[i].payload)
    {
      if i < |st.jobs| {
        assert st'.jobs[i] == st.jobs[i];
      }
    }
  }

  lemma {:induction false} OthersKeepStates(p: Plan, st: Store, st': Store, mailed: set<Id>)
    requires StatesRight(p, st, mailed) && OthersMove(p, st, st')
    ensures StatesRight(p, st', mailed + Moved(p, st, st')) && DeliveriesStay(p, st, st')
  {
    forall u | (u, p.nid) in st'.states
      ensures RightDelivery(p, u, st'.states[(u, p.nid)], u in mailed + Moved(p, st, st'))
    {
      if st'.states[(u, p.nid)] != st.states[(u, p.nid)] {
        assert (u, p.nid) in st.states && (u, p.nid).1 == p.nid && (u, p.nid).0 in Moved(p, st, st');
      }
    }
  }

  lemma {:induction false} StepKeepsInv(p: Plan, s: Sys, step: Step, s': Sys)
    requires GoodPlan(p) && Inv(p, s) && Next(p, s, step, s')
    ensures Inv(p, s')
  {
    match step
    case DoWrite(w, now) => WriteKeepsInv(p, s, w, now, s');
    case Start(w, after) =>
      var i :| 0 <= i < |s.store.jobs| && s.store.jobs[i].payload == PageJob(p.jobType, p.nid, after);
      assert LegitPayload(p, s.store.jobs[i].payload);
    case Finish(_) =>
    case Crash(_) =>
    case Others(st) =>
      OthersKeepJobs(p, s.store, st);
      OthersKeepStates(p, s.store, st, s.mailed);
      EffectsStay(p, s.store, st, s.running, s.done);
  }

  lemma {:induction false} StepKeepsDeliveries(p: Plan, s: Sys, step: Step, s': Sys)
    requires GoodPlan(p) && Inv(p, s) && Next(p, s, step, s')
    ensures DeliveriesStay(p, s.store, s'.store)
  {
    match step
    case DoWrite(w, now) => ApplyGrows(s.store, p, NextWrite(p, s, w), now);
    case Others(st) => OthersKeepStates(p, s.store, st, s.mailed);
    case _ =>
  }

  lemma {:induction false} InitInv(p: Plan, s: Sys)
    requires GoodPlan(p) && Init(p, s)
    ensures Inv(p, s)
  {
    assert IsPage(p, 0) && Cursor(p, 0) == None;
    forall i | 0 <= i < |s.store.jobs|
      ensures LegitPayload(p, s.store.jobs[i].payload)
    {
      var key := s.store.jobs[i].key;
      assert About(key, p.nid) ==> key == PageKey(p.jobType, p.nid, None);
    }
  }

  lemma {:induction false} InvHolds(p: Plan, states: seq<Sys>, steps: seq<Step>, i: nat)
    requires GoodPlan(p) && IsRun(p, states, steps) && i < |states|
    ensures Inv(p, states[i])
  {
    if i == 0 {
      InitInv(p, states[0]);
    } else {
      InvHolds(p, states, steps, i - 1);
      StepKeepsInv(p, states[i - 1], steps[i - 1], states[i]);
    }
  }

  /** Over any run, a delivery keeps the time at which it was made and the e-mail request made with it. */
  lemma {:induction false} DeliveredForGood(p: Plan, states: seq<Sys>, steps: seq<Step>, i: nat, j: nat)
    requires GoodPlan(p) && IsRun(p, states, steps) && i <= j < |states|
    ensures DeliveriesStay(p, states[i].store, states[j].store)
    decreases j
  {
    hide Inv, Next;
    if i < j {
      DeliveredForGood(p, states, steps, i, j - 1);
      InvHolds(p, states, steps, j - 1);
      assert Next(p, states[j - 1], steps[j - 1], states[j]);
      StepKeepsDeliveries(p, states[j - 1], steps[j - 1], states[j]);
    }
  }

  // ---------------------------------------------------------------- exactly once

  /** Every queued page job of this fan-out has completed at least once. */
  ghost predicate Settled(p: Plan, s: Sys) {
    forall after {:trigger Queued(s.store, PageJob(p.jobType, p.nid, after))} ::
      Queued(s.store, PageJob(p.jobType, p.nid, after)) ==> after in s.done
  }

  lemma {:induction false} QueuedByKey(p: Plan, s: Sys, after: Option<Id>)
    requires GoodPlan(p) && Inv(p, s) && PageKey(p.jobType, p.nid, after) in s.store.dedup
    ensures Queued(s.store, PageJob(p.jobType, p.nid, after))
  {
    var i :| 0 <= i < |s.store.jobs| && s.store.jobs[i].key == PageKey(p.jobType, p.nid, after);
    assert s.store.jobs[i].payload == PageJob(p.jobType, p.nid, after);
  }

  lemma {:induction false} NextPageEnqueued(p: Plan, s: Sys, k: nat)
    requires GoodPlan(p) && Inv(p, s) && IsPage(p, k) && IsPage(p, k + 1) && Cursor(p, k) in s.done
    ensures PageKey(p.jobType, p.nid, Cursor(p, k + 1)) in s.store.dedup
  {
    WritesAt(p, k);
    PageAtCursor(p, k);
    var ws := WritesOf(p, Cursor(p, k));
    assert FirstWritesDone(p, s.store, Cursor(p, k), |ws|);
    assert ws[|ws| - 1] == EnqueuePage(Cursor(p, k + 1).value);
  }

  /** The chain never breaks: in a settled state every page of the fan-out has been completed. */
  lemma {:induction false} EveryPageCompleted(p: Plan, s: Sys, k: nat)
    requires GoodPlan(p) && Inv(p, s) && Settled(p, s) && IsPage(p, k)
    ensures Cursor(p, k) in s.done && Queued(s.store, PageJob(p.jobType, p.nid, Cursor(p, k)))
  {
    if k == 0 {
      QueuedByKey(p, s, None);
    } else {
      PreviousPage(p, k);
      EveryPageCompleted(p, s, k - 1);
      ChainStep(p, s, k - 1);
    }
  }

  lemma {:induction false} ChainStep(p: Plan, s: Sys, k: nat)
    requires GoodPlan(p) && IsPage(p, k) && IsPage(p, k + 1) && Cursor(p, k) in s.done
    requires Inv(p, s) && Settled(p, s)
    ensures Cursor(p, k + 1) in s.done && Queued(s.store, PageJob(p.jobType, p.nid, Cursor(p, k + 1)))
  {
    NextPageEnqueued(p, s, k);
    QueuedByKey(p, s, Cursor(p, k + 1));
  }

  lemma {:induction false} DoneEffect(p: Plan, s: Sys, after: Option<Id>, m: nat)
    requires GoodPlan(p) && after in s.done && m < |WritesOf(p, after)| && Inv(p, s)
    ensures WellFormedWrite(WritesOf(p, after)[m]) && Effect(s.store, p, WritesOf(p, after)[m])
  {
    assert FirstWritesDone(p, s.store, after, |WritesOf(p, after)|);
  }

  /** A completed page has left its states behind. */
  lemma {:induction false} PageStates(p: Plan, s: Sys, k: nat, u: Id)
    requires GoodPlan(p) && IsPage(p, k) && u in PageAt(p, k) && Inv(p, s) && Settled(p, s)
    ensures (u, p.nid) in s.store.states
  {
    EveryPageCompleted(p, s, k);
    WritesAt(p, k);
    DoneEffect(p, s, Cursor(p, k), 0);
  }

  /** A completed page has left its chunks behind. */
  lemma {:induction false} PageChunk(p: Plan, s: Sys, k: nat, c: nat)
    requires GoodPlan(p) && IsPage(p, k) && c < |Chunks(p, k)| && Inv(p, s) && Settled(p, s)
    ensures Chunks(p, k)[c] != [] && KeyOf(ChunkJob(p.nid, Chunks(p, k)[c])) in s.store.dedup
  {
    EveryPageCompleted(p, s, k);
    PageHasWrites(p, k);
    WriteAt(p, k, c + 1);
    DoneEffect(p, s, Cursor(p, k), c + 1);
  }

  /** Delivery states: every recipient has one and nobody else does, with an e-mail requested exactly for
      the e-mailable; and the e-mail is queued unless an e-mail job has moved its status since. */
  lemma {:induction false} EveryoneDeliveredOnce(p: Plan, states: seq<Sys>, steps: seq<Step>, n: nat, u: Id)
    requires GoodPlan(p) && IsRun(p, states, steps) && n < |states| && Settled(p, states[n])
    ensures u in p.all <==> (u, p.nid) in states[n].store.states
    ensures u in p.all ==>
              var d := states[n].store.states[(u, p.nid)];
              && (d.emailStatus != NotRequested <==> u in p.emailable) && (d.hasIdempotencyKey <==> u in p.emailable)
              && (u !in states[n].mailed ==> d == DeliveryFor(p, u, d.deliveredAt))
  {
    var s := states[n];
    InvHolds(p, states, steps, n);
    if u in p.all {
      var k, c := EveryoneHasAPlace(p, u);
      PageStates(p, s, k, u);
    }
  }

  /** At every state of every run: only an e-mail job makes a delivery SENT or FAILED; until one has
      touched it, an e-mail is QUEUED exactly for the e-mailable and not requested for the others. */
  lemma {:induction false} NothingSentByTheFanout(p: Plan, states: seq<Sys>, steps: seq<Step>, n: nat, u: Id)
    requires GoodPlan(p) && IsRun(p, states, steps) && n < |states| && (u, p.nid) in states[n].store.states
    ensures var d, touched := states[n].store.states[(u, p.nid)], u in states[n].mailed;
            && (d.emailStatus == EmailSent || d.emailStatus == EmailFailed ==> touched)
            && (!touched ==> (d.emailStatus == EmailQueued <==> u in p.emailable))
            && (!touched ==> (d.emailStatus == NotRequested <==> u !in p.emailable))
            && (d.hasIdempotencyKey <==> u in p.emailable)
  {
    InvHolds(p, states, steps, n);
    assert RightDelivery(p, u, states[n].store.states[(u, p.nid)], u in states[n].mailed);
  }

  /** A delivery bears the time of the write that first made it. */
  lemma {:induction false} DeliveredWhenWritten(p: Plan, states: seq<Sys>, steps: seq<Step>, n: nat, u: Id)
    returns (c: nat)
    requires GoodPlan(p) && IsRun(p, states, steps) && n < |states| && (u, p.nid) in states[n].store.states
    ensures c < n && steps[c].DoWrite?
    ensures (u, p.nid) !in states[c].store.states && (u, p.nid) in states[c + 1].store.states
    ensures states[n].store.states[(u, p.nid)].deliveredAt == steps[c].now
  {
    assert n > 0;
    assert Next(p, states[n - 1], steps[n - 1], states[n]);
    if (u, p.nid) in states[n - 1].store.states {
      c := DeliveredWhenWritten(p, states, steps, n - 1, u);
      DeliveredForGood(p, states, steps, n - 1, n);
    } else {
      c := n - 1;
      InvHolds(p, states, steps, c);
      FirstWritten(p, states[c], steps[c], states[n], u);
    }
  }

  lemma {:induction false} FirstWritten(p: Plan, s: Sys, step: Step, s': Sys, u: Id)
    requires GoodPlan(p) && Next(p, s, step, s')
    requires (u, p.nid) !in s.store.states && (u, p.nid) in s'.store.states
    ensures step.DoWrite? && s'.store.states[(u, p.nid)].deliveredAt == step.now
  {
    if step.DoWrite? {
      var w := NextWrite(p, s, step.worker);
      if w.InsertStates? {
        StatesGrow(s.store.states, p, w.users, step.now);
      }
    }
  }

  /** A job the fan-out queues is due at once: at the time of the write that queued it. */
  lemma {:induction false} QueuedJobsAreDue(p: Plan, states: seq<Sys>, steps: seq<Step>, n: nat, i: nat)
    returns (c: nat)
    requires GoodPlan(p) && IsRun(p, states, steps) && n < |states|
    requires |states[0].store.jobs| <= i < |states[n].store.jobs| && Ours(p, states[n].store.jobs[i].payload)
    ensures c < n && steps[c].DoWrite? && |states[c].store.jobs| == i < |states[c + 1].store.jobs|
    ensures states[c + 1].store.jobs[i] == states[n].store.jobs[i]
    ensures states[n].store.jobs[i].availableAt == steps[c].now
  {
    assert n > 0;
    assert Next(p, states[n - 1], steps[n - 1], states[n]);
    JobsOnlyGrow(p, states[n - 1], steps[n - 1], states[n]);
    if i < |states[n - 1].store.jobs| {
      c := QueuedJobsAreDue(p, states, steps, n - 1, i);
    } else {
      c := n - 1;
    }
  }

  lemma {:induction false} JobsOnlyGrow(p: Plan, s: Sys, step: Step, s': Sys)
    requires GoodPlan(p) && Next(p, s, step, s')
    ensures s.store.jobs <= s'.store.jobs
    ensures forall i :: |s.store.jobs| <= i < |s'.store.jobs| && Ours(p, s'.store.jobs[i].payload) ==>
              step.DoWrite? && i == |s.store.jobs| && s'.store.jobs[i].availableAt == step.now
  {
    if step.DoWrite? {
      ApplyGrows(s.store, p, NextWrite(p, s, step.worker), step.now);
    }
  }

  ghost predicate ChunkJobFor(p: Plan, st: Store, i: int, u: Id) {
    0 <= i < |st.jobs| && st.jobs[i].payload.ChunkJob? && st.jobs[i].payload.nid == p.nid
        && u in st.jobs[i].payload.users
  }

  lemma {:induction false} ChunkRow(p: Plan, s: Sys, i: int, u: Id) returns (k: nat, c: nat)
    requires GoodPlan(p) && Inv(p, s) && ChunkJobFor(p, s.store, i, u)
    ensures IsPage(p, k) && c < |Chunks(p, k)| && Chunks(p, k)[c] == s.store.jobs[i].payload.users
    ensures s.store.jobs[i].payload.users != [] && s.store.jobs[i].key == KeyOf(s.store.jobs[i].payload)
  {
    assert LegitPayload(p, s.store.jobs[i].payload);
    k, c :| IsPage(p, k) && c < |Chunks(p, k)| && Chunks(p, k)[c] == s.store.jobs[i].payload.users;
  }

  /** At any moment of any run, two chunk jobs never share a recipient, a recipient appears in
      its chunk once, and only e-mailable recipients appear. */
  lemma {:induction false} NoOneQueuedTwice(p: Plan, states: seq<Sys>, steps: seq<Step>, n: nat, i: int, j: int, u: Id)
    requires GoodPlan(p) && IsRun(p, states, steps) && n < |states|
    requires ChunkJobFor(p, states[n].store, i, u) && ChunkJobFor(p, states[n].store, j, u)
    ensures i == j && u in p.all && u in p.emailable
    ensures Ascending(states[n].store.jobs[i].payload.users)
  {
    InvHolds(p, states, steps, n);
    OneChunkJobEach(p, states[n], i, j, u);
  }

  /** At any moment of any run a chunk job holds somebody, and never more than the chunk size. */
  lemma {:induction false} ChunksAreBounded(p: Plan, states: seq<Sys>, steps: seq<Step>, n: nat, i: int, u: Id)
    requires GoodPlan(p) && IsRun(p, states, steps) && n < |states| && ChunkJobFor(p, states[n].store, i, u)
    ensures 1 <= |states[n].store.jobs[i].payload.users| <= p.chunkSize
  {
    InvHolds(p, states, steps, n);
    var k, c := ChunkRow(p, states[n], i, u);
    ChunksNonEmpty(Emailable(PageAt(p, k), p.emailable), p.chunkSize);
  }

  lemma {:induction false} OneChunkJobEach(p: Plan, s: Sys, i: int, j: int, u: Id)
    requires GoodPlan(p) && Inv(p, s) && ChunkJobFor(p, s.store, i, u) && ChunkJobFor(p, s.store, j, u)
    ensures i == j && u in p.all && u in p.emailable && Ascending(s.store.jobs[i].payload.users)
  {
    var k, a := ChunkRow(p, s, i, u);
    var l, b := ChunkRow(p, s, j, u);
    OneChunkEach(p, k, a, l, b, u);
    ChunkAscending(p, k, a);
    KeysAreUnique(p, s, i, j);
  }

  lemma {:induction false} KeysAreUnique(p: Plan, s: Sys, i: int, j: int)
    requires GoodPlan(p) && Inv(p, s) && 0 <= i < |s.store.jobs| && 0 <= j < |s.store.jobs|
    requires s.store.jobs[i].key == s.store.jobs[j].key
    ensures i == j
  {
  }

  lemma {:induction false} RowByKey(p: Plan, s: Sys, chunk: seq<Id>) returns (i: int)
    requires GoodPlan(p) && Inv(p, s) && chunk != [] && KeyOf(ChunkJob(p.nid, chunk)) in s.store.dedup
    ensures ChunkJobFor(p, s.store, i, chunk[0])
  {
    i :| 0 <= i < |s.store.jobs| && s.store.jobs[i].key == KeyOf(ChunkJob(p.nid, chunk));
  }

  /** In a settled state every e-mailable recipient is in a chunk job. */
  lemma {:induction false} EveryoneQueued(p: Plan, states: seq<Sys>, steps: seq<Step>, n: nat, u: Id)
    requires GoodPlan(p) && IsRun(p, states, steps) && n < |states| && Settled(p, states[n])
    requires u in p.all && u in p.emailable
    ensures exists i :: ChunkJobFor(p, states[n].store, i, u)
  {
    InvHolds(p, states, steps, n);
    var k, c := EveryoneHasAPlace(p, u);
    PageChunk(p, states[n], k, c);
    var chunk := Chunks(p, k)[c];
    var i := RowByKey(p, states[n], chunk);
    var l, b := ChunkRow(p, states[n], i, chunk[0]);
    OneChunkEach(p, k, c, l, b, chunk[0]);
    assert ChunkJobFor(p, states[n].store, i, u);
  }

  ghost function PageRows(p: Plan, st: Store): set<int> {
    set i | 0 <= i < |st.jobs| && st.jobs[i].payload.PageJob? && st.jobs[i].payload.nid == p.nid
  }

  /** A settled fan-out has used exactly ceil(n / pageSize) page jobs, one for nobody. */
  lemma {:induction false} ChainLength(p: Plan, states: seq<Sys>, steps: seq<Step>, n: nat)
    requires GoodPlan(p) && IsRun(p, states, steps) && n < |states| && Settled(p, states[n])
    ensures |PageRows(p, states[n].store)| == NumPages(p)
  {
    InvHolds(p, states, steps, n);
    var m := NumPages(p);
    forall k: nat
      ensures IsPage(p, k) <==> k < m
    {
      PageCount(p, k);
    }
    AllPageRows(p, states[n], m);
    CountRows(p, states[n], m);
  }

  lemma {:induction false} AllPageRows(p: Plan, s: Sys, m: nat)
    requires GoodPlan(p) && Inv(p, s) && forall k: nat :: IsPage(p, k) ==> k < m
    ensures PageRows(p, s.store) == RowsBelow(p, s, m)
  {
    forall i | i in PageRows(p, s.store)
      ensures RowOfFirst(p, s.store, i, m)
    {
      assert LegitPayload(p, s.store.jobs[i].payload);
      var k: nat :| IsPage(p, k) && Cursor(p, k) == s.store.jobs[i].payload.after;
    }
  }

  /** Row i is the page job of one of the first m pages. */
  ghost predicate RowOfFirst(p: Plan, st: Store, i: int, m: nat)
    requires GoodPlan(p)
  {
    && i in PageRows(p, st)
    && exists k: nat :: k < m && IsPage(p, k) && st.jobs[i].payload.after == Cursor(p, k)
  }

  ghost function RowsBelow(p: Plan, s: Sys, m: nat): set<int>
    requires GoodPlan(p)
  {
    set i | i in PageRows(p, s.store) && RowOfFirst(p, s.store, i, m)
  }

  lemma {:induction false} CountRows(p: Plan, s: Sys, m: nat)
    requires GoodPlan(p) && Inv(p, s) && Settled(p, s) && (m > 0 ==> IsPage(p, m - 1))
    ensures |RowsBelow(p, s, m)| == m
    decreases m
  {
    if m == 0 {
      assert RowsBelow(p, s, 0) == {};
    } else {
      if m > 1 {
        PreviousPage(p, m - 1);
      }
      CountRows(p, s, m - 1);
      var r := RowOfPage(p, s, m - 1);
      OneMoreRow(p, s, m, r);
    }
  }

  lemma {:induction false} RowOfPage(p: Plan, s: Sys, k: nat) returns (r: int)
    requires GoodPlan(p) && Inv(p, s) && Settled(p, s) && IsPage(p, k)
    ensures 0 <= r < |s.store.jobs| && s.store.jobs[r].payload == PageJob(p.jobType, p.nid, Cursor(p, k))
  {
    EveryPageCompleted(p, s, k);
    r :| 0 <= r < |s.store.jobs| && s.store.jobs[r].payload == PageJob(p.jobType, p.nid, Cursor(p, k));
  }

  /** A page job row belongs to one page only. */
  lemma {:induction false} RowSplits(p: Plan, s: Sys, m: nat, r: int, i: int)
    requires GoodPlan(p) && m >= 1 && IsPage(p, m - 1) && Inv(p, s)
    requires 0 <= r < |s.store.jobs| && s.store.jobs[r].payload == PageJob(p.jobType, p.nid, Cursor(p, m - 1))
    requires i in PageRows(p, s.store)
    ensures RowOfFirst(p, s.store, i, m) <==> RowOfFirst(p, s.store, i, m - 1) || i == r
    ensures i == r ==> !RowOfFirst(p, s.store, i, m - 1)
  {
    var after := s.store.jobs[i].payload.after;
    assert LegitPayload(p, s.store.jobs[i].payload);
    if after == Cursor(p, m - 1) {
      KeysAreUnique(p, s, i, r);
      NotEarlier(p, m);
    }
  }

  lemma {:induction false} OneMoreRow(p: Plan, s: Sys, m: nat, r: int)
    requires GoodPlan(p) && m >= 1 && IsPage(p, m - 1) && Inv(p, s)
    requires 0 <= r < |s.store.jobs| && s.store.jobs[r].payload == PageJob(p.jobType, p.nid, Cursor(p, m - 1))
    ensures |RowsBelow(p, s, m)| == |RowsBelow(p, s, m - 1)| + 1
  {
    forall i | i in PageRows(p, s.store)
      ensures RowOfFirst(p, s.store, i, m) <==> RowOfFirst(p, s.store, i, m - 1) || i == r
      ensures i == r ==> !RowOfFirst(p, s.store, i, m - 1)
    {
      RowSplits(p, s, m, r, i);
    }
    assert RowsBelow(p, s, m) == RowsBelow(p, s, m - 1) + {r};
  }
}
