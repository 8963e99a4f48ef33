/** Runs of the job queue: any number of workers, each keeping every row a claim ever
    gave it and presenting any guard at any time, while the clock moves freely. */
module JobRuns {
  import opened Basics
  import opened JobQueue

  /** The queue together with every row that some claim has returned so far. */
  datatype Sys = Sys(q: Queue, claims: set<Job>)

  const START := Sys(Queue([], {}), {})

  /** A row as the services enqueue it. */
  predicate BrandNew(job: Job) {
    && job.status == Queued && job.attempts == 0 && 1 <= job.maxAttempts && job.version == 1
    && job.leaseOwner == None && job.leasedUntil == None
  }

  function GuardOf(claimed: Job): Guard {
    Guard(claimed.id, if claimed.leaseOwner.Some? then claimed.leaseOwner.value else "", claimed.version)
  }

  /** The worker passes on the counters of the row it claimed. */
  predicate RetriesClaim(r: RetryParams, claimed: Job) {
    r.guard == GuardOf(claimed) && r.attempts == claimed.attempts && r.maxAttempts == claimed.maxAttempts
  }

  ghost function ClaimedBy(q: Queue, s: Step, q': Queue): set<Job> {
    if s.Claim? then set k | 0 <= k < |q.jobs| && k < |q'.jobs| && q'.jobs[k] != q.jobs[k] :: q'.jobs[k] else {}
  }

  ghost predicate SysNext(s: Sys, e: Step, s': Sys) {
    && Next(s.q, e, s'.q)
    && (e.Enqueue? ==> BrandNew(e.job) && forall k :: 0 <= k < |s.q.jobs| ==> s.q.jobs[k].id != e.job.id)
    && s'.claims == s.claims + ClaimedBy(s.q, e, s'.q)
  }

  ghost predicate IsRun(states: seq<Sys>, steps: seq<Step>) {
    && |states| == |steps| + 1
    && states[0] == START
    && forall i {:trigger steps[i]} :: 0 <= i < |steps| ==> SysNext(states[i], steps[i], states[i + 1])
  }

  /** Every retry passes on the counters of a row that some claim returned. The runs themselves do not
      demand it; only the attempt bound does. */
  ghost predicate OwnCounters(states: seq<Sys>, steps: seq<Step>)
    requires |states| == |steps| + 1
  {
    forall i {:trigger steps[i]} :: 0 <= i < |steps| && steps[i].Retry? ==> OwnRetry(states[i], steps[i].retry)
  }

  ghost predicate OwnRetry(s: Sys, r: RetryParams) {
    exists c :: c in s.claims && RetriesClaim(r, c)
  }

  // ---------------------------------------------------------------- one row, one step

  predicate Terminal(job: Job) {
    job.status == Succeeded || job.status == Failed || job.status == Dead
  }

  predicate WellFormed(job: Job) {
    && job.status != Cancelled && 1 <= job.version
    && (job.status == Leased <==> job.leaseOwner.Some?)
    && (job.status == Leased <==> job.leasedUntil.Some?)
  }

  /** A queued job has attempts left, a leased one has used one, and none has used too many. */
  predicate Counted(job: Job) {
    && 0 <= job.attempts <= job.maxAttempts && 1 <= job.maxAttempts
    && (job.status == Queued ==> job.attempts < job.maxAttempts)
    && (job.status == Leased ==> 1 <= job.attempts)
  }

  /** Every way a stored row can change: it is claimed, or its claim ends. */
  predicate RowStep(a: Job, b: Job) {
    && b.id == a.id && b.jobType == a.jobType && b.payload == a.payload && b.maxAttempts == a.maxAttempts
    && b.version == a.version + 1
    && (|| (a.status == Queued && b.status == Leased && a.attempts < a.maxAttempts && b.attempts == a.attempts + 1)
        || (a.status == Leased && b.status != Leased && b.attempts == a.attempts))
  }

  /** Twice the attempts left, plus one while leased; zero once the row is settled. */
  function Measure(job: Job): int {
    if Terminal(job) then 0 else 2 * (job.maxAttempts - job.attempts) + (if job.status == Leased then 1 else 0)
  }

  lemma {:induction false} MeasureDrops(a: Job, b: Job)
    requires WellFormed(a) && WellFormed(b) && Counted(a) && Counted(b) && RowStep(a, b)
    ensures 0 <= Measure(b) < Measure(a)
  {
    if b.status == Queued {
      assert Measure(b) == Measure(a) - 1;
    }
  }

  ghost predicate UniqueIds(jobs: seq<Job>) {
    forall i, j :: 0 <= i < |jobs| && 0 <= j < |jobs| && jobs[i].id == jobs[j].id ==> i == j
  }

  /** The row carries on from the snapshot c: it is c itself, or has moved to a later version. */
  predicate CarriesOn(job: Job, c: Job) {
    job.id == c.id && (job == c || job.version > c.version)
  }

  ghost predicate Follows(jobs: seq<Job>, c: Job) {
    exists k :: 0 <= k < |jobs| && CarriesOn(jobs[k], c)
  }

  ghost predicate Inv(s: Sys) {
    && UniqueIds(s.q.jobs)
    && (forall k :: 0 <= k < |s.q.jobs| ==> WellFormed(s.q.jobs[k]))
    && (forall c :: c in s.claims ==> c.status == Leased && WellFormed(c) && Follows(s.q.jobs, c))
  }

  ghost predicate Evolves(jobs: seq<Job>, jobs': seq<Job>) {
    && |jobs| <= |jobs'|
    && (forall k :: 0 <= k < |jobs| ==>
          WellFormed(jobs'[k]) && (jobs'[k] == jobs[k] || RowStep(jobs[k], jobs'[k])))
    && (forall k :: |jobs| <= k < |jobs'| ==> BrandNew(jobs'[k]))
  }

  /** A guard taken from a claim, if still in force, sits on exactly the claimed row. */
  lemma {:induction false} HolderSeesItsOwnRow(s: Sys, c: Job, i: int)
    requires Inv(s) && c in s.claims && ClaimedAt(s.q.jobs, GuardOf(c), i)
    ensures s.q.jobs[i] == c
  {
    assert Follows(s.q.jobs, c);
    var k :| 0 <= k < |s.q.jobs| && CarriesOn(s.q.jobs[k], c);
    assert k == i;
  }

  lemma {:induction false} RowChangesAreRowSteps(job: Job, p: ClaimParams, e: Step, now: Time)
    requires WellFormed(job)
    ensures Eligible(job, p) ==> WellFormed(Claimed(job, p)) && RowStep(job, Claimed(job, p))
    ensures (e.Succeed? || e.Fail?) && job.status == Leased
            ==> WellFormed(EndedRow(job, e)) && RowStep(job, EndedRow(job, e))
    ensures e.Retry? && job.status == Leased ==> WellFormed(EndedRow(job, e)) && RowStep(job, EndedRow(job, e))
    ensures job.status == Leased ==> WellFormed(RecoveredRow(job, now)) && RowStep(job, RecoveredRow(job, now))
  {
  }

  lemma {:induction false} OneRowEvolves(jobs: seq<Job>, i: nat, row: Job)
    requires UniqueIds(jobs) && (forall k :: 0 <= k < |jobs| ==> WellFormed(jobs[k]))
    requires i < |jobs| && WellFormed(row) && RowStep(jobs[i], row)
    ensures Evolves(jobs, jobs[i := row]) && UniqueIds(jobs[i := row])
  {
  }

  lemma {:induction false} ClaimEvolves(s: Sys, p: ClaimParams, s': Sys)
    requires Inv(s) && SysNext(s, Claim(p), s')
    ensures Evolves(s.q.jobs, s'.q.jobs) && UniqueIds(s'.q.jobs)
  {
    var jobs := s.q.jobs;
    if s'.q != s.q {
      var i :| ValidClaim(p) && IsNextJob(jobs, p, i) && s'.q.jobs == jobs[i := Claimed(jobs[i], p)];
      RowChangesAreRowSteps(jobs[i], p, Claim(p), 0);
      OneRowEvolves(jobs, i, Claimed(jobs[i], p));
    }
  }

  lemma {:induction false} FinishEvolves(s: Sys, e: Step, s': Sys)
    requires Inv(s) && SysNext(s, e, s') && (e.Succeed? || e.Fail? || e.Retry?)
    ensures Evolves(s.q.jobs, s'.q.jobs) && UniqueIds(s'.q.jobs)
  {
    var jobs := s.q.jobs;
    if s'.q != s.q {
      var i :| ClaimedAt(jobs, GuardOfStep(e), i) && s'.q.jobs == jobs[i := EndedRow(jobs[i], e)];
      RowChangesAreRowSteps(jobs[i], ClaimParams("", 0, 0, {}), e, 0);
      OneRowEvolves(jobs, i, EndedRow(jobs[i], e));
    }
  }

  lemma {:induction false} RecoverEvolves(s: Sys, now: Time, limit: int, s': Sys)
    requires Inv(s) && SysNext(s, Recover(now, limit), s')
    ensures Evolves(s.q.jobs, s'.q.jobs) && UniqueIds(s'.q.jobs)
  {
    var jobs, jobs' := s.q.jobs, s'.q.jobs;
    forall k | 0 <= k < |jobs|
      ensures WellFormed(jobs'[k]) && (jobs'[k] == jobs[k] || RowStep(jobs[k], jobs'[k]))
    {
      assert jobs'[k] == AfterRecovery(jobs, now, EffectiveLimit(limit), k);
      RowChangesAreRowSteps(jobs[k], ClaimParams("", 0, 0, {}), Recover(now, limit), now);
    }
    assert forall k :: 0 <= k < |jobs| ==> jobs'[k].id == jobs[k].id;
  }

  /** Every step changes stored rows only along RowStep, and keeps them well formed. */
  lemma {:induction false} StepEvolves(s: Sys, e: Step, s': Sys)
    requires Inv(s) && SysNext(s, e, s')
    ensures Evolves(s.q.jobs, s'.q.jobs) && UniqueIds(s'.q.jobs)
  {
    match e
    case Enqueue(_) =>
    case Claim(p) => ClaimEvolves(s, p, s');
    case Recover(now, limit) => RecoverEvolves(s, now, limit, s');
    case _ => FinishEvolves(s, e, s');
  }

  /** With unique ids, the row carrying the guard's id decides whether its claim is in force. */
  lemma {:induction false} TheRowDecides(jobs: seq<Job>, k: nat, g: Guard)
    requires UniqueIds(jobs) && k < |jobs| && jobs[k].id == g.jobId
    ensures InForce(jobs, g) <==> Holds(jobs[k], g)
  {
    if Holds(jobs[k], g) {
      assert ClaimedAt(jobs, g, k);
    }
  }

  lemma {:induction false} FollowsOn(jobs: seq<Job>, jobs': seq<Job>, c: Job)
    requires Evolves(jobs, jobs') && Follows(jobs, c)
    ensures Follows(jobs', c)
  {
    var k :| 0 <= k < |jobs| && CarriesOn(jobs[k], c);
    assert CarriesOn(jobs'[k], c);
  }

  lemma {:induction false} NewClaimIsLeased(s: Sys, e: Step, s': Sys, c: Job)
    requires Inv(s) && SysNext(s, e, s') && c in ClaimedBy(s.q, e, s'.q) && Evolves(s.q.jobs, s'.q.jobs)
    ensures c.status == Leased && WellFormed(c) && Follows(s'.q.jobs, c)
  {
    var k :| 0 <= k < |s.q.jobs| && k < |s'.q.jobs| && s'.q.jobs[k] != s.q.jobs[k] && c == s'.q.jobs[k];
    assert s'.q.jobs[k].id == c.id;
    var i :| ValidClaim(e.claim) && IsNextJob(s.q.jobs, e.claim, i)
             && s'.q.jobs == s.q.jobs[i := Claimed(s.q.jobs[i], e.claim)];
  }

  lemma {:induction false} StepKeepsInv(s: Sys, e: Step, s': Sys)
    requires Inv(s) && SysNext(s, e, s')
    ensures Inv(s')
  {
    StepEvolves(s, e, s');
    forall c | c in s'.claims
      ensures c.status == Leased && WellFormed(c) && Follows(s'.q.jobs, c)
    {
      if c in s.claims {
        FollowsOn(s.q.jobs, s'.q.jobs, c);
      } else {
        NewClaimIsLeased(s, e, s', c);
      }
    }
  }

  ghost predicate AllCounted(jobs: seq<Job>) {
    forall k :: 0 <= k < |jobs| ==> Counted(jobs[k])
  }

  /** With own counters a retry queues a job exactly when it has attempts left. */
  lemma {:induction false} FinishKeepsCounted(s: Sys, e: Step, s': Sys)
    requires Inv(s) && SysNext(s, e, s') && (e.Succeed? || e.Fail? || e.Retry?) && AllCounted(s.q.jobs)
    requires e.Retry? ==> OwnRetry(s, e.retry)
    ensures AllCounted(s'.q.jobs)
  {
    var jobs := s.q.jobs;
    if s'.q != s.q {
      var i :| ClaimedAt(jobs, GuardOfStep(e), i) && s'.q.jobs == jobs[i := EndedRow(jobs[i], e)];
      if e.Retry? {
        var c :| c in s.claims && RetriesClaim(e.retry, c);
        HolderSeesItsOwnRow(s, c, i);
      }
      assert Counted(jobs[i]) && Counted(EndedRow(jobs[i], e));
    }
  }

  lemma {:induction false} StepKeepsCounted(s: Sys, e: Step, s': Sys)
    requires Inv(s) && SysNext(s, e, s') && AllCounted(s.q.jobs)
    requires e.Retry? ==> OwnRetry(s, e.retry)
    ensures AllCounted(s'.q.jobs)
  {
    match e
    case Enqueue(_) =>
    case Claim(p) =>
      if s'.q != s.q {
        var i :| ValidClaim(p) && IsNextJob(s.q.jobs, p, i) && s'.q.jobs == s.q.jobs[i := Claimed(s.q.jobs[i], p)];
        assert Counted(s.q.jobs[i]);
      }
    case Recover(now, limit) =>
      forall k | 0 <= k < |s'.q.jobs|
        ensures Counted(s'.q.jobs[k])
      {
        assert Counted(s.q.jobs[k]) && s'.q.jobs[k] == AfterRecovery(s.q.jobs, now, EffectiveLimit(limit), k);
      }
    case _ => FinishKeepsCounted(s, e, s');
  }

  // ---------------------------------------------------------------- whole runs

  lemma {:induction false} InvHolds(states: seq<Sys>, steps: seq<Step>, i: nat)
    requires IsRun(states, steps) && i < |states|
    ensures Inv(states[i])
  {
    if i > 0 {
      InvHolds(states, steps, i - 1);
      StepKeepsInv(states[i - 1], steps[i - 1], states[i]);
    }
  }

  /** The attempt bound: it holds at every state of every run whose retries pass their own counters. */
  lemma {:induction false} CountersHold(states: seq<Sys>, steps: seq<Step>, i: nat)
    requires IsRun(states, steps) && OwnCounters(states, steps) && i < |states|
    ensures AllCounted(states[i].q.jobs)
  {
    if i > 0 {
      CountersHold(states, steps, i - 1);
      InvHolds(states, steps, i - 1);
      assert SysNext(states[i - 1], steps[i - 1], states[i]);
      StepKeepsCounted(states[i - 1], steps[i - 1], states[i]);
    }
  }

  lemma {:induction false} StepFacts(states: seq<Sys>, steps: seq<Step>, i: nat)
    requires IsRun(states, steps) && i < |steps|
    ensures UniqueIds(states[i].q.jobs) && UniqueIds(states[i + 1].q.jobs)
    ensures Evolves(states[i].q.jobs, states[i + 1].q.jobs)
  {
    InvHolds(states, steps, i);
    StepEvolves(states[i], steps[i], states[i + 1]);
  }

  /** Rows never move or go back: a later row is the same row or a later version of it,
      and a settled row is the same forever. */
  lemma {:induction false} RowsOnlyMoveForward(states: seq<Sys>, steps: seq<Step>, i: nat, j: nat, k: nat)
    requires IsRun(states, steps) && i <= j < |states| && k < |states[i].q.jobs|
    ensures k < |states[j].q.jobs|
    ensures states[j].q.jobs[k].id == states[i].q.jobs[k].id
    ensures states[j].q.jobs[k] == states[i].q.jobs[k] || states[j].q.jobs[k].version > states[i].q.jobs[k].version
    ensures Terminal(states[i].q.jobs[k]) ==> states[j].q.jobs[k] == states[i].q.jobs[k]
    decreases j
  {
    if i < j {
      RowsOnlyMoveForward(states, steps, i, j - 1, k);
      StepFacts(states, steps, j - 1);
      RowForward(states[i].q.jobs[k], states[j - 1].q.jobs, states[j].q.jobs, k);
    }
  }

  lemma {:induction false} RowForward(a: Job, jobs: seq<Job>, jobs': seq<Job>, k: nat)
    requires Evolves(jobs, jobs') && k < |jobs| && jobs[k].id == a.id
    requires (jobs[k] == a || jobs[k].version > a.version) && (Terminal(a) ==> jobs[k] == a)
    ensures jobs'[k].id == a.id && (jobs'[k] == a || jobs'[k].version > a.version)
    ensures Terminal(a) ==> jobs'[k] == a
  {
  }

  /** Step i ends the claim g: it is in force just before and not just after. */
  ghost predicate Ends(states: seq<Sys>, i: nat, g: Guard)
    requires i + 1 < |states|
  {
    InForce(states[i].q.jobs, g) && !InForce(states[i + 1].q.jobs, g)
  }

  /** Fencing: once a job has moved past the guard's version, the guard is refused at
      every later state of the run, whoever has claimed the job since. */
  lemma {:induction false} StaleGuardIsRefusedForever(
    states: seq<Sys>, steps: seq<Step>, i: nat, j: nat, k: nat, g: Guard)
    requires IsRun(states, steps) && i <= j < |states| && k < |states[i].q.jobs|
    requires states[i].q.jobs[k].id == g.jobId && states[i].q.jobs[k].version > g.version
    ensures !InForce(states[j].q.jobs, g)
  {
    RowsOnlyMoveForward(states, steps, i, j, k);
    InvHolds(states, steps, j);
    TheRowDecides(states[j].q.jobs, k, g);
  }

  lemma {:induction false} EndingMovesTheRow(jobs: seq<Job>, jobs': seq<Job>, g: Guard, k: int)
    requires UniqueIds(jobs') && Evolves(jobs, jobs')
    requires ClaimedAt(jobs, g, k) && !InForce(jobs', g)
    ensures jobs'[k].id == g.jobId && jobs'[k].version > g.version
  {
    assert jobs'[k].id == g.jobId;
    TheRowDecides(jobs', k, g);
  }

  /** Each claim ends at most once, by whichever of success, failure, retry or recovery
      comes first, and its guard is refused from then on. */
  lemma {:induction false} ClaimEndsAtMostOnce(states: seq<Sys>, steps: seq<Step>, i: nat, j: nat, g: Guard)
    requires IsRun(states, steps) && i < j < |states|
    requires Ends(states, i, g)
    ensures !InForce(states[j].q.jobs, g)
    ensures j + 1 < |states| ==> !Ends(states, j, g)
  {
    StepFacts(states, steps, i);
    var k :| ClaimedAt(states[i].q.jobs, g, k);
    EndingMovesTheRow(states[i].q.jobs, states[i + 1].q.jobs, g, k);
    StaleGuardIsRefusedForever(states, steps, i + 1, j, k, g);
  }

  /** A worker's finishing call is accepted exactly when its claim is in force, and then ends it;
      a refused call changes nothing. */
  lemma {:induction false} FinishingCallEndsItsClaim(states: seq<Sys>, steps: seq<Step>, i: nat)
    requires IsRun(states, steps) && i < |steps|
    requires steps[i].Succeed? || steps[i].Fail? || steps[i].Retry?
    ensures InForce(states[i].q.jobs, GuardOfStep(steps[i])) <==> Ends(states, i, GuardOfStep(steps[i]))
    ensures !InForce(states[i].q.jobs, GuardOfStep(steps[i])) <==> states[i + 1].q == states[i].q
  {
    var g := GuardOfStep(steps[i]);
    StepFacts(states, steps, i);
    var jobs, jobs' := states[i].q.jobs, states[i + 1].q.jobs;
    if InForce(jobs, g) {
      var k :| ClaimedAt(jobs, g, k) && jobs' == jobs[k := EndedRow(jobs[k], steps[i])];
      assert jobs'[k].version == g.version + 1;
      TheRowDecides(jobs', k, g);
    }
  }

  // ---------------------------------------------------------------- what each call does to its row

  /** A claim takes a queued job of a wanted type that is due, not cancelled and has attempts left, and
      takes the earliest such job; the lease runs until the time the worker asked for. */
  lemma {:induction false} ClaimTakes(states: seq<Sys>, steps: seq<Step>, i: nat, p: ClaimParams, k: nat)
    requires IsRun(states, steps) && i < |steps| && steps[i] == Claim(p)
    requires k < |states[i].q.jobs| <= |states[i + 1].q.jobs|
    requires states[i + 1].q.jobs[k] != states[i].q.jobs[k]
    ensures p.owner != "" && p.now < p.until
    ensures var a, b := states[i].q.jobs[k], states[i + 1].q.jobs[k];
            && a.status == Queued && a.cancelRequestedAt == None && a.availableAt <= p.now
            && a.attempts < a.maxAttempts && a.jobType in p.types
            && b.status == Leased && b.leaseOwner == Some(p.owner) && b.leasedUntil == Some(p.until)
            && b.attempts == a.attempts + 1 && b.version == a.version + 1 && b.updatedAt == p.now && b.lastError == None
    ensures forall j :: 0 <= j < |states[i].q.jobs| && j != k ==>
              var a, x := states[i].q.jobs[k], states[i].q.jobs[j];
              && states[i + 1].q.jobs[j] == x
              && (x.status == Queued && x.cancelRequestedAt == None && x.availableAt <= p.now
                  && x.attempts < x.maxAttempts && x.jobType in p.types ==>
                    a.availableAt < x.availableAt || (a.availableAt == x.availableAt && a.id < x.id))
  {
    StepFacts(states, steps, i);
    var jobs := states[i].q.jobs;
    var m :| ValidClaim(p) && IsNextJob(jobs, p, m) && states[i + 1].q.jobs == jobs[m := Claimed(jobs[m], p)];
    assert m == k;
  }

  /** A worker that asks properly goes away empty only when no such job is there. */
  lemma {:induction false} ClaimMissesNone(states: seq<Sys>, steps: seq<Step>, i: nat, p: ClaimParams, k: nat)
    requires IsRun(states, steps) && i < |steps| && steps[i] == Claim(p) && states[i + 1].q == states[i].q
    requires p.types != {} && p.owner != "" && p.now < p.until && k < |states[i].q.jobs|
    ensures var x := states[i].q.jobs[k];
            x.status != Queued || x.cancelRequestedAt.Some? || x.availableAt > p.now
            || x.attempts >= x.maxAttempts || x.jobType !in p.types
  {
    var jobs := states[i].q.jobs;
    forall m | 0 <= m < |jobs|
      ensures jobs[m := Claimed(jobs[m], p)] != jobs
    {
      assert jobs[m := Claimed(jobs[m], p)][m].version == jobs[m].version + 1;
    }
    assert !Eligible(jobs[k], p);
  }

  /** An outcome is accepted whenever the row is still leased to the guard's owner at its version. */
  lemma {:induction false} OutcomeIsAccepted(states: seq<Sys>, steps: seq<Step>, i: nat, k: nat)
    requires IsRun(states, steps) && i < |steps| && (steps[i].Succeed? || steps[i].Fail? || steps[i].Retry?)
    requires k < |states[i].q.jobs| <= |states[i + 1].q.jobs|
    requires var a, g := states[i].q.jobs[k], GuardOfStep(steps[i]);
             a.status == Leased && a.id == g.jobId && a.leaseOwner == Some(g.owner) && a.version == g.version
    ensures states[i + 1].q.jobs[k] != states[i].q.jobs[k]
  {
    var jobs, g := states[i].q.jobs, GuardOfStep(steps[i]);
    InvHolds(states, steps, i);
    TheRowDecides(jobs, k, g);
    var m :| ClaimedAt(jobs, g, m) && states[i + 1].q.jobs == jobs[m := EndedRow(jobs[m], steps[i])];
    assert m == k && EndedRow(jobs[m], steps[i]).version == jobs[m].version + 1;
  }

  /** An accepted outcome is recorded on the row whose claim the guard names, and on no other. */
  lemma {:induction false} OutcomeIsRecorded(states: seq<Sys>, steps: seq<Step>, i: nat, k: nat)
    requires IsRun(states, steps) && i < |steps| && (steps[i].Succeed? || steps[i].Fail? || steps[i].Retry?)
    requires k < |states[i].q.jobs| <= |states[i + 1].q.jobs|
    requires states[i + 1].q.jobs[k] != states[i].q.jobs[k]
    ensures var a, b, g := states[i].q.jobs[k], states[i + 1].q.jobs[k], GuardOfStep(steps[i]);
            && a.status == Leased && a.id == g.jobId && a.leaseOwner == Some(g.owner) && a.version == g.version
            && b.leaseOwner == None && b.leasedUntil == None && b.version == a.version + 1
            && b.attempts == a.attempts && b.payload == a.payload
    ensures steps[i].Succeed? ==> var b := states[i + 1].q.jobs[k];
                                  b.status == Succeeded && b.completedAt == Some(steps[i].now) && b.lastError == None
    ensures steps[i].Fail? ==> var b := states[i + 1].q.jobs[k];
                               && b.status == Failed && b.completedAt == Some(steps[i].now)
                               && (steps[i].lastError != "" ==> b.lastError == Some(steps[i].lastError))
    ensures steps[i].Retry? ==>
              var b, r := states[i + 1].q.jobs[k], steps[i].retry;
              && (r.attempts >= r.maxAttempts ==> b.status == Dead && b.completedAt == Some(r.now))
              && (r.attempts < r.maxAttempts ==> b.status == Queued && b.availableAt == r.nextAvailableAt)
              && (r.lastError != "" ==> b.lastError == Some(r.lastError))
    ensures forall j :: 0 <= j < |states[i].q.jobs| && j != k ==> states[i + 1].q.jobs[j] == states[i].q.jobs[j]
  {
    var jobs, g := states[i].q.jobs, GuardOfStep(steps[i]);
    var m :| ClaimedAt(jobs, g, m) && states[i + 1].q.jobs == jobs[m := EndedRow(jobs[m], steps[i])];
    assert m == k;
  }

  /** A job sent back for a retry is not claimed again before its time. */
  lemma {:induction false} RetriesWait(states: seq<Sys>, steps: seq<Step>, i: nat, j: nat, k: nat)
    requires IsRun(states, steps) && i < j < |steps| && steps[i].Retry? && steps[j].Claim?
    requires k < |states[i].q.jobs| && k < |states[i + 1].q.jobs| && k < |states[j].q.jobs| <= |states[j + 1].q.jobs|
    requires states[i + 1].q.jobs[k] != states[i].q.jobs[k] && states[j].q.jobs[k] == states[i + 1].q.jobs[k]
    requires states[j + 1].q.jobs[k] != states[j].q.jobs[k]
    ensures steps[i].retry.nextAvailableAt <= steps[j].claim.now
  {
    StepFacts(states, steps, i);
    OutcomeIsRecorded(states, steps, i, k);
    ClaimTakes(states, steps, j, steps[j].claim, k);
  }

  /** Recovery touches only leases that have run out: their jobs are queued again at once, or given up
      when no attempt is left. */
  lemma {:induction false} RecoveryIsRecorded(states: seq<Sys>, steps: seq<Step>, i: nat, k: nat)
    requires IsRun(states, steps) && i < |steps| && steps[i].Recover?
    requires k < |states[i].q.jobs| <= |states[i + 1].q.jobs|
    requires states[i + 1].q.jobs[k] != states[i].q.jobs[k]
    ensures var a, b, now := states[i].q.jobs[k], states[i + 1].q.jobs[k], steps[i].now;
            && a.status == Leased && a.leasedUntil.Some? && a.leasedUntil.value <= now
            && b.leaseOwner == None && b.leasedUntil == None && b.version == a.version + 1 && b.attempts == a.attempts
            && (a.attempts < a.maxAttempts ==> b.status == Queued && b.availableAt == now)
            && (a.attempts >= a.maxAttempts ==> b.status == Dead && b.completedAt == Some(now) && b.lastError.Some?)
  {
    var jobs := states[i].q.jobs;
    assert states[i + 1].q.jobs[k] == AfterRecovery(jobs, steps[i].now, EffectiveLimit(steps[i].limit), k);
  }

  // ---------------------------------------------------------------- how long a claim is safe

  /** Step i claimed a job, and g is the guard its worker got. */
  ghost predicate Takes(states: seq<Sys>, steps: seq<Step>, i: nat, g: Guard)
    requires |states| == |steps| + 1 && i < |steps|
  {
    steps[i].Claim? && !InForce(states[i].q.jobs, g) && InForce(states[i + 1].q.jobs, g)
  }

  /** While the guard is in force its row is the one that was claimed, leased until the time asked for. */
  lemma {:induction false} LeaseOfGuard(states: seq<Sys>, steps: seq<Step>, i: nat, j: nat, g: Guard) returns (k: nat)
    requires IsRun(states, steps) && i < j < |states| && Takes(states, steps, i, g) && InForce(states[j].q.jobs, g)
    ensures ClaimedAt(states[j].q.jobs, g, k) && states[j].q.jobs[k].leasedUntil == Some(steps[i].claim.until)
  {
    StepFacts(states, steps, i);
    var jobs, jobs' := states[i].q.jobs, states[i + 1].q.jobs;
    k :| ClaimedAt(jobs', g, k);
    if jobs[k] == jobs'[k] {
      TheRowDecides(jobs, k, g);
    }
    ClaimTakes(states, steps, i, steps[i].claim, k);
    RowsOnlyMoveForward(states, steps, i + 1, j, k);
    InvHolds(states, steps, j);
    TheRowDecides(states[j].q.jobs, k, g);
    var m :| ClaimedAt(states[j].q.jobs, g, m);
    assert m == k;
  }

  /** A claim is safe for as long as it asked: recovery never ends it before. */
  lemma {:induction false} LeaseIsHonoured(states: seq<Sys>, steps: seq<Step>, i: nat, j: nat, g: Guard)
    requires IsRun(states, steps) && i < j < |steps| && Takes(states, steps, i, g)
    requires steps[j].Recover? && Ends(states, j, g)
    ensures steps[i].claim.until <= steps[j].now
  {
    var k := LeaseOfGuard(states, steps, i, j, g);
    StepFacts(states, steps, j);
    EndingMovesTheRow(states[j].q.jobs, states[j + 1].q.jobs, g, k);
    RecoveryIsRecorded(states, steps, j, k);
  }

  /** The rows a call changed. */
  function Changed(jobs: seq<Job>, jobs': seq<Job>, n: nat): set<int> {
    set k | 0 <= k < n && k < |jobs| && k < |jobs'| && jobs[k] != jobs'[k]
  }

  lemma {:induction false} ChangedNext(jobs: seq<Job>, jobs': seq<Job>, n: nat)
    requires n < |jobs| == |jobs'|
    ensures |Changed(jobs, jobs', n + 1)| == |Changed(jobs, jobs', n)| + (if jobs[n] != jobs'[n] then 1 else 0)
  {
    var before := Changed(jobs, jobs', n);
    assert Changed(jobs, jobs', n + 1) == if jobs[n] != jobs'[n] then before + {n} else before;
  }

  /** Recovery releases as many of the first n rows as have run out, up to its limit. */
  lemma {:induction false} RecoversThatMany(jobs: seq<Job>, now: Time, limit: nat, jobs': seq<Job>, n: nat)
    requires RecoversFirst(jobs, now, limit, jobs') && n <= |jobs|
    ensures |Changed(jobs, jobs', n)| == Min(limit, CountExpired(jobs, now, n))
  {
    hide Changed;
    if n == 0 {
      ChangedNone(jobs, jobs');
    } else {
      RecoversThatMany(jobs, now, limit, jobs', n - 1);
      ChangedNext(jobs, jobs', n - 1);
      assert jobs'[n - 1] == AfterRecovery(jobs, now, limit, n - 1);
      assert RecoveredRow(jobs[n - 1], now).version == jobs[n - 1].version + 1;
    }
  }

  lemma {:induction false} ChangedNone(jobs: seq<Job>, jobs': seq<Job>)
    ensures |Changed(jobs, jobs', 0)| == 0
  {
    assert Changed(jobs, jobs', 0) == {};
  }

  /** And no longer: a recovery after that time ends the claim if it is still in force, unless it has
      released as many others as its limit allows (100 when none is given). */
  lemma {:induction false} LapsedLeaseIsReleased(states: seq<Sys>, steps: seq<Step>, i: nat, j: nat, g: Guard)
    requires IsRun(states, steps) && i < j < |steps| && Takes(states, steps, i, g) && InForce(states[j].q.jobs, g)
    requires steps[j].Recover? && steps[i].claim.until <= steps[j].now
    requires |Changed(states[j].q.jobs, states[j + 1].q.jobs, |states[j].q.jobs|)|
             < if steps[j].limit <= 0 then 100 else steps[j].limit
    ensures !InForce(states[j + 1].q.jobs, g)
  {
    var k := LeaseOfGuard(states, steps, i, j, g);
    var jobs, jobs', now, limit :=
      states[j].q.jobs, states[j + 1].q.jobs, steps[j].now, EffectiveLimit(steps[j].limit);
    StepFacts(states, steps, j);
    RecoversThatMany(jobs, now, limit, jobs', |jobs|);
    CountExpiredMonotone(jobs, now, k + 1, |jobs|);
    assert jobs'[k] == AfterRecovery(jobs, now, limit, k);
    TheRowDecides(jobs', k, g);
  }

  /** Number of the first n steps that claimed row k. */
  ghost function ClaimCount(states: seq<Sys>, k: nat, n: nat): nat
    requires n < |states|
  {
    if n == 0 then 0 else
      ClaimCount(states, k, n - 1) +
      (if k < |states[n - 1].q.jobs| && k < |states[n].q.jobs|
          && states[n - 1].q.jobs[k].status == Queued && states[n].q.jobs[k].status == Leased then 1 else 0)
  }

  /** Number of the first n steps that changed the stored row k in any way. */
  ghost function ChangeCount(states: seq<Sys>, k: nat, n: nat): nat
    requires n < |states|
  {
    if n == 0 then 0 else
      ChangeCount(states, k, n - 1) +
      (if k < |states[n - 1].q.jobs| && k < |states[n].q.jobs|
          && states[n - 1].q.jobs[k] != states[n].q.jobs[k] then 1 else 0)
  }

  lemma {:induction false} NothingBeforeEnqueue(states: seq<Sys>, steps: seq<Step>, k: nat, n: nat)
    requires IsRun(states, steps) && n < |states| && k >= |states[n].q.jobs|
    ensures ClaimCount(states, k, n) == 0 && ChangeCount(states, k, n) == 0
  {
    if n > 0 {
      StepFacts(states, steps, n - 1);
      NothingBeforeEnqueue(states, steps, k, n - 1);
    }
  }

  /** Attempts count claims and never pass the bound, and every job settles: the changes a row
      has seen plus the measure it has left never exceed twice its attempt bound. */
  lemma {:induction false} EveryJobSettles(states: seq<Sys>, steps: seq<Step>, k: nat, n: nat)
    requires IsRun(states, steps) && OwnCounters(states, steps) && n < |states| && k < |states[n].q.jobs|
    ensures states[n].q.jobs[k].attempts == ClaimCount(states, k, n)
    ensures ClaimCount(states, k, n) <= states[n].q.jobs[k].maxAttempts
    ensures ChangeCount(states, k, n) + Measure(states[n].q.jobs[k]) <= 2 * states[n].q.jobs[k].maxAttempts
    ensures ChangeCount(states, k, n) <= 2 * states[n].q.jobs[k].maxAttempts
    ensures states[n].q.jobs[k].status == Queued ==> states[n].q.jobs[k].attempts < states[n].q.jobs[k].maxAttempts
  {
    InvHolds(states, steps, n);
    CountersHold(states, steps, n);
    assert n > 0;
    InvHolds(states, steps, n - 1);
    CountersHold(states, steps, n - 1);
    StepEvolves(states[n - 1], steps[n - 1], states[n]);
    if k < |states[n - 1].q.jobs| {
      EveryJobSettles(states, steps, k, n - 1);
      if states[n - 1].q.jobs[k] != states[n].q.jobs[k] {
        MeasureDrops(states[n - 1].q.jobs[k], states[n].q.jobs[k]);
      }
    } else {
      NothingBeforeEnqueue(states, steps, k, n - 1);
      assert BrandNew(states[n].q.jobs[k]);
    }
  }

  /** The attempt bound rests on retry receiving the claimed row's own counters: with other
      counters a leased row goes back to QUEUED out of attempts, where no claim can ever take it,
      exactly when the caller's counters say "attempts left" and the row's say "none". */
  lemma {:induction false} ForeignCountersStrandAJob(job: Job, r: RetryParams)
    requires WellFormed(job) && job.status == Leased
    ensures (RetriedRow(job, r).status == Queued && forall p :: !Eligible(RetriedRow(job, r), p))
            <==> (r.attempts < r.maxAttempts
                  && (job.attempts >= job.maxAttempts || job.cancelRequestedAt.Some?))
  {
    var back := RetriedRow(job, r);
    if back.status == Queued && job.attempts < job.maxAttempts && job.cancelRequestedAt == None {
      assert Eligible(back, ClaimParams("w", back.availableAt, back.availableAt + 1, {back.jobType}));
    }
  }

  /** A job queued out of attempts is never touched again. */
  lemma {:induction false} StrandedForever(states: seq<Sys>, steps: seq<Step>, i: nat, j: nat, k: nat)
    requires IsRun(states, steps) && i <= j < |states| && k < |states[i].q.jobs|
    requires states[i].q.jobs[k].status == Queued
              && states[i].q.jobs[k].attempts >= states[i].q.jobs[k].maxAttempts
    ensures k < |states[j].q.jobs| && states[j].q.jobs[k] == states[i].q.jobs[k]
    decreases j
  {
    if i < j {
      StrandedForever(states, steps, i, j - 1, k);
      StepFacts(states, steps, j - 1);
    }
  }

  /** A job of one attempt is claimed, and retried with counters that promise another. */
  method StrandOne() returns (store: JobStore, claimed: Result<Option<Job>>, retried: Result<()>)
    ensures claimed.Ok? && claimed.value.Some? && retried == Ok(())
    ensures |store.jobs| == 1 && store.jobs[0].status == Queued && forall p :: !Eligible(store.jobs[0], p)
  {
    store := new JobStore();
    var job := Job(5, "mail", Queued, "", None, 0, 1, 0, None, None, None, None, 1, 0, 0, None);
    var enqueued := store.EnqueueJob(job);
    assert BrandNew(store.jobs[0]) && Eligible(store.jobs[0], ClaimParams("w", 1, 2, {"mail"}));
    claimed := store.ClaimNextJob(ClaimParams("w", 1, 2, {"mail"}));
    var guard := GuardOf(store.jobs[0]);
    assert ClaimedAt(store.jobs, guard, 0);
    retried := store.RetryOrDeadLetterJob(RetryParams(guard, 2, 3, "", 0, 1));
  }
}
