/** Who acts on an advert: over every run, its owner never changes, and nobody else acts as its owner. */
module AdvertOwners {
  import opened Basics
  import opened AdvertHistory
  import opened AdvertSteps
  import opened AdvertRuns

  lemma {:induction false} OwnerStep(s: Sys, e: Step, id: int, serial: nat)
    requires serial < |s.moves| && Holds(Apply(s, e), id, serial)
    ensures Holds(s, id, serial) && Apply(s, e).adverts[id].owner == s.adverts[id].owner
  {
  }

  /** An advert keeps its owner for as long as it is stored. */
  lemma {:induction false} OwnerNeverChanges(states: seq<Sys>, steps: seq<Step>, i: nat, j: nat, id: int, serial: nat)
    requires IsRun(states, steps) && i <= j < |states| && serial < |states[i].moves|
    requires Holds(states[j], id, serial)
    ensures Holds(states[i], id, serial) && states[j].adverts[id].owner == states[i].adverts[id].owner
    decreases j
  {
    hide Apply;
    if i < j {
      TracesOnlyGrow(states, steps, i, j - 1);
      assert states[j] == Apply(states[j - 1], steps[j - 1]);
      OwnerStep(states[j - 1], steps[j - 1], id, serial);
      OwnerNeverChanges(states, steps, i, j - 1, id, serial);
    }
  }

  lemma {:induction false} TracesStep(s: Sys, e: Step)
    ensures |s.moves| <= |Apply(s, e).moves|
  {
  }

  lemma {:induction false} TracesOnlyGrow(states: seq<Sys>, steps: seq<Step>, i: nat, j: nat)
    requires IsRun(states, steps) && i <= j < |states|
    ensures |states[i].moves| <= |states[j].moves|
    decreases j
  {
    hide Apply;
    if i < j {
      TracesOnlyGrow(states, steps, i, j - 1);
      assert states[j] == Apply(states[j - 1], steps[j - 1]);
      TracesStep(states[j - 1], steps[j - 1]);
    }
  }

  /** The user who makes this write as the owner of the advert with this number. */
  ghost predicate ActsAsOwner(s: Sys, e: Step, id: int, user: Id) {
    && Enabled(s, e)
    && match e
       case Create(x, _, row) => x == id && row.actor == Owner(user)
       case Edit(actor, x, _, _) => x == id && actor == Owner(user)
       case Transition(x, _, _, row) => x == id && row.actor == Owner(user)
       case _ => false
  }

  /** Whoever ever edited an advert or changed its status as its owner is the owner it has now. */
  lemma {:induction false} OnlyTheOwnerActs(
    states: seq<Sys>, steps: seq<Step>, i: nat, j: nat, id: int, user: Id)
    requires IsRun(states, steps) && i < j < |states| && ActsAsOwner(states[i], steps[i], id, user)
    requires id in states[j].serial && Holds(states[j], id, states[j].serial[id])
    requires states[j].serial[id] < |states[i + 1].moves| && Holds(states[i + 1], id, states[j].serial[id])
    ensures states[j].adverts[id].owner == user
  {
    OwnerNeverChanges(states, steps, i + 1, j, id, states[j].serial[id]);
    assert states[i + 1] == Apply(states[i], steps[i]);
    hide IsRun;
  }

  /** The changes recorded as an owner's were made by the one who drafted the advert. */
  ghost predicate OwnersOk(s: Sys) {
    && (forall n, k :: 0 <= n < |s.moves| && 0 <= k < |s.moves[n]| && s.moves[n][k].row.actor.Owner? ==>
          s.moves[n][k].row.actor == s.moves[n][0].row.actor)
    && (forall id :: id in s.adverts && Stored(s, id) && s.moves[s.serial[id]] != [] ==>
          s.moves[s.serial[id]][0].row.actor == Owner(s.adverts[id].owner))
  }

  lemma {:induction false} StepKeepsOwners(s: Sys, e: Step)
    requires Inv(s) && OwnersOk(s)
    ensures OwnersOk(Apply(s, e))
  {
    hide VersionsOk, LogsOk, OpenOk, IsLog, RowsOf, Purged;
  }

  lemma {:induction false} OwnersHold(states: seq<Sys>, steps: seq<Step>, i: nat)
    requires IsRun(states, steps) && i < |states|
    ensures OwnersOk(states[i])
  {
    hide Apply, Inv;
    if i > 0 {
      OwnersHold(states, steps, i - 1);
      InvHolds(states, steps, i - 1);
      assert states[i] == Apply(states[i - 1], steps[i - 1]);
      StepKeepsOwners(states[i - 1], steps[i - 1]);
    }
  }

  /** The log names the right owner: every row of an undisturbed log that says an owner acted names the
      owner the advert has. */
  lemma {:induction false} LogNamesTheOwner(states: seq<Sys>, steps: seq<Step>, i: nat, id: int, k: nat)
    requires IsRun(states, steps) && i < |states| && id in states[i].adverts && id !in states[i].disturbed
    requires k < |RowsOf(states[i].history, id)| && RowsOf(states[i].history, id)[k].actor.Owner?
    ensures RowsOf(states[i].history, id)[k].actor == Owner(states[i].adverts[id].owner)
  {
    InvHolds(states, steps, i);
    OwnersHold(states, steps, i);
    var m := TraceOf(states[i], id);
    assert LogState(m, RowsOf(states[i].history, id), false);
    assert m[k].row == RowsOf(states[i].history, id)[k];
  }
}
