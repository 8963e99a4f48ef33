/** One call of the page job as an execution of the protocol. */
module FanoutCalls {
  import opened Basics
  import opened Fanout
  import opened FanoutPages
  import opened FanoutRuns

  /** The first n writes of the page job, done by worker w from its start. */
  ghost function AfterWrites(p: Plan, s: Sys, w: nat, after: Option<Id>, now: Time, n: nat): Sys
    requires GoodPlan(p) && n <= |WritesOf(p, after)|
  {
    WritesAreWellFormed(p, after);
    s.(store := ApplyAll(s.store, p, WritesOf(p, after)[..n], now), running := s.running[w := Exec(after, n)])
  }

  lemma {:induction false} OneWriteMore(p: Plan, s: Sys, w: nat, after: Option<Id>, now: Time, n: nat)
    requires GoodPlan(p) && n < |WritesOf(p, after)|
    ensures Next(p, AfterWrites(p, s, w, after, now, n), DoWrite(w, now), AfterWrites(p, s, w, after, now, n + 1))
  {
    WritesAreWellFormed(p, after);
    var ws := WritesOf(p, after);
    assert ws[..n + 1][..n] == ws[..n];
    assert s.running[w := Exec(after, n)][w := Exec(after, n + 1)] == s.running[w := Exec(after, n + 1)];
  }

  function Front(steps: seq<Step>): seq<Step>
    requires steps != []
  {
    steps[..|steps| - 1]
  }

  /** A step-by-step execution from s to s'. */
  ghost predicate Leads(p: Plan, s: Sys, steps: seq<Step>, s': Sys)
    requires GoodPlan(p)
    decreases |steps|
  {
    if steps == [] then s' == s
    else exists mid :: Leads(p, s, Front(steps), mid) && Next(p, mid, steps[|steps| - 1], s')
  }

  lemma {:induction false} LeadsOn(p: Plan, s: Sys, steps: seq<Step>, mid: Sys, step: Step, s': Sys)
    requires GoodPlan(p) && Leads(p, s, steps, mid) && Next(p, mid, step, s')
    ensures Leads(p, s, steps + [step], s')
  {
    assert Front(steps + [step]) == steps;
  }

  lemma {:induction false} WritesLead(
    p: Plan, s: Sys, w: nat, after: Option<Id>, now: Time, n: nat) returns (steps: seq<Step>)
    requires GoodPlan(p) && w !in s.running && Queued(s.store, PageJob(p.jobType, p.nid, after))
    requires n <= |WritesOf(p, after)|
    ensures Leads(p, s, steps, AfterWrites(p, s, w, after, now, n))
  {
    if n == 0 {
      assert WritesOf(p, after)[..0] == [];
      LeadsOn(p, s, [], s, Start(w, after), AfterWrites(p, s, w, after, now, 0));
      steps := [] + [Start(w, after)];
    } else {
      var before := WritesLead(p, s, w, after, now, n - 1);
      OneWriteMore(p, s, w, after, now, n - 1);
      LeadsOn(p, s, before, AfterWrites(p, s, w, after, now, n - 1), DoWrite(w, now),
          AfterWrites(p, s, w, after, now, n));
      steps := before + [DoWrite(w, now)];
    }
  }

  /** Whatever one call of the page job does to the store, finished or cut short, is an execution of
      the protocol by a free worker; it counts as done exactly when the call finished. */
  lemma {:induction false} CallIsExecution(
    p: Plan, s: Sys, w: nat, after: Option<Id>, now: Time, budget: nat, st': Store, finished: bool)
    returns (steps: seq<Step>, s': Sys)
    requires GoodPlan(p) && w !in s.running && Queued(s.store, PageJob(p.jobType, p.nid, after))
    requires WritesDone(s.store, p, after, now, budget, st', finished)
    ensures Leads(p, s, steps, s') && s'.store == st' && s'.running == s.running
    ensures s'.done == (if finished then s.done + {after} else s.done) && s'.mailed == s.mailed
  {
    var n := Min(budget, |WritesOf(p, after)|);
    var mid := AfterWrites(p, s, w, after, now, n);
    var before := WritesLead(p, s, w, after, now, n);
    var step := if finished then Finish(w) else Crash(w);
    s' := mid.(running := mid.running - {w}, done := if finished then mid.done + {after} else mid.done);
    LeadsOn(p, s, before, mid, step, s');
    steps := before + [step];
    assert s'.running == s.running;
  }
}
