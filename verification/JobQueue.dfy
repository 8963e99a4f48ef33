/** The leased job queue of the media store: rows, the repository operations on
    them, and runs of many workers that hold arbitrarily stale claims. */
module JobQueue {
  import opened Basics

  datatype JobStatus = Queued | Leased | Succeeded | Failed | Cancelled | Dead

  datatype Job = Job(
    id: Id,
    jobType: string,
    status: JobStatus,
    payload: string,
    dedupKey: Option<string>,
    attempts: int,
    maxAttempts: int,
    availableAt: Time,
    leasedUntil: Option<Time>,
    leaseOwner: Option<string>,
    lastError: Option<string>,
    cancelRequestedAt: Option<Time>,
    version: int,
    createdAt: Time,
    updatedAt: Time,
    completedAt: Option<Time>)

  datatype ClaimParams = ClaimParams(owner: string, now: Time, until: Time, types: set<string>)

  /** Names one claim: the job, who claimed it, and the version that claim wrote. */
  datatype Guard = Guard(jobId: Id, owner: string, version: int)

  datatype RetryParams = RetryParams(
    guard: Guard, now: Time, nextAvailableAt: Time, lastError: string, attempts: int, maxAttempts: int)

  datatype Queue = Queue(jobs: seq<Job>, dedup: set<string>)

  const LEASE_EXPIRED := "İş kirası süresi doldu."
  const DEFAULT_RECOVER_LIMIT := 100

  // ---------------------------------------------------------------- rows

  predicate ValidClaim(p: ClaimParams) {
    p.types != {} && p.owner != "" && p.until > p.now
  }

  predicate Eligible(job: Job, p: ClaimParams) {
    && job.status == Queued
    && job.cancelRequestedAt == None
    && job.availableAt <= p.now
    && job.attempts < job.maxAttempts
    && job.jobType in p.types
  }

  /** Claim order: earliest availability first, then smallest id. */
  predicate Precedes(a: Job, b: Job) {
    a.availableAt < b.availableAt || (a.availableAt == b.availableAt && a.id < b.id)
  }

  /** Row i is the one a claim takes: eligible, and no eligible row comes before it. */
  ghost predicate IsNextJob(jobs: seq<Job>, p: ClaimParams, i: int) {
    && 0 <= i < |jobs| && Eligible(jobs[i], p)
    && forall j :: 0 <= j < |jobs| && Eligible(jobs[j], p) ==> !Precedes(jobs[j], jobs[i])
  }

  function Claimed(job: Job, p: ClaimParams): Job {
    job.(status := Leased, leaseOwner := Some(p.owner), leasedUntil := Some(p.until),
    attempts := job.attempts + 1, version := job.version + 1, updatedAt := p.now, lastError := None)
  }

  function OptionalMessage(msg: string): Option<string> {
    if msg != "" then Some(msg) else None
  }

  function Released(job: Job, now: Time): Job {
    job.(leaseOwner := None, leasedUntil := None, version := job.version + 1, updatedAt := now)
  }

  function SucceededRow(job: Job, now: Time): Job {
    Released(job, now).(status := Succeeded, completedAt := Some(now), lastError := None)
  }

  function FailedRow(job: Job, now: Time, lastError: string): Job {
    Released(job, now).(status := Failed, completedAt := Some(now), lastError := OptionalMessage(lastError))
  }

  function RetriedRow(job: Job, r: RetryParams): Job {
    var released := Released(job, r.now).(lastError := OptionalMessage(r.lastError));
    if r.attempts >= r.maxAttempts then
      released.(status := Dead, completedAt := Some(r.now))
    else
      released.(status := Queued, availableAt := r.nextAvailableAt, completedAt := None)
  }

  predicate LeaseExpired(job: Job, now: Time) {
    job.status == Leased && job.leasedUntil.Some? && job.leasedUntil.value <= now
  }

  function RecoveredRow(job: Job, now: Time): Job {
    if job.attempts >= job.maxAttempts then
      Released(job, now).(status := Dead, completedAt := Some(now),
      lastError := if job.lastError == None then Some(LEASE_EXPIRED) else job.lastError)
    else
      Released(job, now).(status := Queued, availableAt := now, completedAt := None)
  }

  /** How many of the first n rows hold an expired lease. */
  function CountExpired(jobs: seq<Job>, now: Time, n: nat): nat
    requires n <= |jobs|
  {
    if n == 0 then 0
    else CountExpired(jobs, now, n - 1) + (if LeaseExpired(jobs[n - 1], now) then 1 else 0)
  }

  function EffectiveLimit(limit: int): nat {
    if limit <= 0 then DEFAULT_RECOVER_LIMIT else limit
  }

  /** The first `limit` expired leases, in row order, are released; nothing else changes. */
  ghost predicate RecoversFirst(jobs: seq<Job>, now: Time, limit: nat, jobs': seq<Job>) {
    && |jobs'| == |jobs|
    && forall k :: 0 <= k < |jobs| ==> jobs'[k] == AfterRecovery(jobs, now, limit, k)
  }

  function AfterRecovery(jobs: seq<Job>, now: Time, limit: nat, k: nat): Job
    requires k < |jobs|
  {
    if LeaseExpired(jobs[k], now) && CountExpired(jobs, now, k) < limit then RecoveredRow(jobs[k], now) else jobs[k]
  }

  /** The claim named by g is still in force on this row. */
  predicate Holds(job: Job, g: Guard) {
    job.id == g.jobId && job.status == Leased && job.leaseOwner == Some(g.owner) && job.version == g.version
  }

  /** Row i is the first one with the guard's id, and it still carries the guard's claim. */
  ghost predicate ClaimedAt(jobs: seq<Job>, g: Guard, i: int) {
    0 <= i < |jobs| && Holds(jobs[i], g) && forall j :: 0 <= j < i ==> jobs[j].id != g.jobId
  }

  ghost predicate InForce(jobs: seq<Job>, g: Guard) {
    exists i :: ClaimedAt(jobs, g, i)
  }

  // ---------------------------------------------------------------- operations

  datatype Step =
    | Enqueue(job: Job)
    | Claim(claim: ClaimParams)
    | Succeed(guard: Guard, now: Time)
    | Fail(guard: Guard, now: Time, lastError: string)
    | Retry(retry: RetryParams)
    | Recover(now: Time, limit: int)

  /** The guard a worker presents to end its claim. */
  function GuardOfStep(s: Step): Guard
    requires s.Succeed? || s.Fail? || s.Retry?
  {
    if s.Retry? then s.retry.guard else s.guard
  }

  function EndedRow(job: Job, s: Step): Job
    requires s.Succeed? || s.Fail? || s.Retry?
  {
    match s
    case Succeed(_, now) => SucceededRow(job, now)
    case Fail(_, now, e) => FailedRow(job, now, e)
    case Retry(r) => RetriedRow(job, r)
  }

  /** One repository call, as a relation between the queue before and after it. */
  ghost predicate Next(q: Queue, s: Step, q': Queue) {
    match s
    case Enqueue(job) =>
      if job.dedupKey.Some? && job.dedupKey.value in q.dedup then q' == q
      else q' == Queue(q.jobs + [job], q.dedup + (if job.dedupKey.Some? then {job.dedupKey.value} else {}))
    case Claim(p) =>
      && q'.dedup == q.dedup
      && (|| (exists i :: ValidClaim(p) && IsNextJob(q.jobs, p, i) && q'.jobs == q.jobs[i := Claimed(q.jobs[i], p)])
          || (q' == q && (!ValidClaim(p) || forall j :: 0 <= j < |q.jobs| ==> !Eligible(q.jobs[j], p))))
    case Recover(now, limit) =>
      q'.dedup == q.dedup && RecoversFirst(q.jobs, now, EffectiveLimit(limit), q'.jobs)
    case _ =>
      && q'.dedup == q.dedup
      && (|| (exists i :: ClaimedAt(q.jobs, GuardOfStep(s), i) && q'.jobs == q.jobs[i := EndedRow(q.jobs[i], s)])
          || (q' == q && !InForce(q.jobs, GuardOfStep(s))))
  }

  /** The store behind the repository: the rows and the dedup index. */
  class JobStore {
    var jobs: seq<Job>
    var dedup: set<string>

    ghost function State(): Queue
      reads this
    {
      Queue(jobs, dedup)
    }

    constructor ()
      ensures State() == Queue([], {})
    {
      jobs, dedup := [], {};
    }

    method EnqueueJob(job: Job) returns (r: Result<()>)
      modifies this
      ensures Next(old(State()), Enqueue(job), State())
      ensures r == if job.dedupKey.Some? && job.dedupKey.value in old(dedup) then Err(Conflict) else Ok(())
    {
      if job.dedupKey.Some? {
        if job.dedupKey.value in dedup {
          return Err(Conflict);
        }
        dedup := dedup + {job.dedupKey.value};
      }
      jobs := jobs + [job];
      return Ok(());
    }

    method ClaimNextJob(p: ClaimParams) returns (r: Result<Option<Job>>)
      modifies this
      ensures Next(old(State()), Claim(p), State())
      ensures !ValidClaim(p) <==> r == Err(Internal)
      ensures r == Ok(None) ==> State() == old(State())
      ensures r.Ok? && r.value.Some? ==>
                exists i :: IsNextJob(old(jobs), p, i) && r.value.value == Claimed(old(jobs)[i], p)
                            && jobs == old(jobs)[i := Claimed(old(jobs)[i], p)]
      ensures r.Err? ==> r == Err(Internal)
    {
      if p.types == {} || p.owner == "" || p.until <= p.now {
        return Err(Internal);
      }
      var best := -1;
      for i := 0 to |jobs|
        invariant -1 <= best < i
        invariant best == -1 ==> forall j :: 0 <= j < i ==> !Eligible(jobs[j], p)
        invariant best >= 0 ==> Eligible(jobs[best], p)
        invariant best >= 0 ==> forall j :: 0 <= j < i && Eligible(jobs[j], p) ==> !Precedes(jobs[j], jobs[best])
      {
        var job := jobs[i];
        if job.status != Queued || job.cancelRequestedAt.Some? || job.availableAt > p.now
           || job.attempts >= job.maxAttempts || job.jobType !in p.types
        {
          continue;
        }
        if best < 0 {
          best := i;
          continue;
        }
        var cur := jobs[best];
        if job.availableAt < cur.availableAt || (job.availableAt == cur.availableAt && job.id < cur.id) {
          best := i;
        }
      }
      if best < 0 {
        return Ok(None);
      }
      var job := Claimed(jobs[best], p);
      assert IsNextJob(old(jobs), p, best);
      jobs := jobs[best := job];
      return Ok(Some(job));
    }

    method FindClaimed(g: Guard) returns (found: Option<nat>)
      ensures found.Some? ==> ClaimedAt(jobs, g, found.value)
      ensures found.None? ==> !InForce(jobs, g)
    {
      for i := 0 to |jobs|
        invariant forall j :: 0 <= j < i ==> jobs[j].id != g.jobId
      {
        if jobs[i].id == g.jobId {
          if jobs[i].status == Leased && jobs[i].leaseOwner == Some(g.owner) && jobs[i].version == g.version {
            return Some(i);
          }
          return None;
        }
      }
      return None;
    }

    method MarkJobSucceeded(g: Guard, now: Time) returns (r: Result<()>)
      modifies this
      ensures Next(old(State()), Succeed(g, now), State())
      ensures r == if old(InForce(jobs, g)) then Ok(()) else Err(InvalidState)
    {
      var found := FindClaimed(g);
      if found.None? {
        return Err(InvalidState);
      }
      jobs := jobs[found.value := SucceededRow(jobs[found.value], now)];
      return Ok(());
    }

    method MarkJobFailed(g: Guard, now: Time, lastError: string) returns (r: Result<()>)
      modifies this
      ensures Next(old(State()), Fail(g, now, lastError), State())
      ensures r == if old(InForce(jobs, g)) then Ok(()) else Err(InvalidState)
    {
      var found := FindClaimed(g);
      if found.None? {
        return Err(InvalidState);
      }
      jobs := jobs[found.value := FailedRow(jobs[found.value], now, lastError)];
      return Ok(());
    }

    method RetryOrDeadLetterJob(params: RetryParams) returns (r: Result<()>)
      modifies this
      ensures Next(old(State()), Retry(params), State())
      ensures r == if old(InForce(jobs, params.guard)) then Ok(()) else Err(InvalidState)
    {
      var found := FindClaimed(params.guard);
      if found.None? {
        return Err(InvalidState);
      }
      jobs := jobs[found.value := RetriedRow(jobs[found.value], params)];
      return Ok(());
    }

    method RecoverExpiredJobLeases(now: Time, limit: int) returns (recovered: nat)
      modifies this
      ensures Next(old(State()), Recover(now, limit), State())
      ensures recovered == Min(EffectiveLimit(limit), CountExpired(old(jobs), now, |old(jobs)|))
    {
      var lim := if limit <= 0 then DEFAULT_RECOVER_LIMIT else limit;
      ghost var was := jobs;
      recovered := 0;
      var i := 0;
      while i < |jobs|
        invariant 0 <= i <= |jobs| == |was| && dedup == old(dedup)
        invariant recovered == Min(lim, CountExpired(was, now, i))
        invariant forall k :: 0 <= k < i ==> jobs[k] == AfterRecovery(was, now, lim, k)
        invariant forall k :: i <= k < |was| ==> jobs[k] == was[k]
      {
        if recovered >= lim {
          break;
        }
        var job := jobs[i];
        if job.status == Leased && job.leasedUntil.Some? && job.leasedUntil.value <= now {
          jobs := jobs[i := RecoveredRow(job, now)];
          recovered := recovered + 1;
        }
        i := i + 1;
      }
      forall k | i <= k <= |was|
        ensures CountExpired(was, now, i) <= CountExpired(was, now, k)
      {
        CountExpiredMonotone(was, now, i, k);
      }
    }
  }

  lemma {:induction false} CountExpiredMonotone(jobs: seq<Job>, now: Time, i: nat, k: nat)
    requires i <= k <= |jobs|
    ensures CountExpired(jobs, now, i) <= CountExpired(jobs, now, k)
    decreases k
  {
    if i < k {
      CountExpiredMonotone(jobs, now, i, k - 1);
    }
  }
}
