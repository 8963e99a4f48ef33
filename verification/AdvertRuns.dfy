/** What holds over every run of the advert calls and the auto-archive worker. */
module AdvertRuns {
  import opened Basics
  import opened AdvertHistory
  import opened AdvertSteps

  const EMPTY := Sys(map[], [], map[], [], [], None, {}, {})

  ghost predicate IsRun(states: seq<Sys>, steps: seq<Step>) {
    && |states| == |steps| + 1 && states[0] == EMPTY
    && (forall i {:trigger steps[i]} :: 0 <= i < |steps| ==> states[i + 1] == Apply(states[i], steps[i]))
  }

  lemma {:induction false} EmptyOk()
    ensures Inv(EMPTY)
  {
    assert forall id :: TraceOf(EMPTY, id) == [] && RowsOf(EMPTY.history, id) == [];
  }

  lemma {:induction false} InvHolds(states: seq<Sys>, steps: seq<Step>, i: nat)
    requires IsRun(states, steps) && i < |states|
    ensures Inv(states[i])
  {
    if i == 0 {
      EmptyOk();
    } else {
      InvHolds(states, steps, i - 1);
      StepKeepsInv(states[i - 1], steps[i - 1]);
    }
  }

  /** The state ends some run. */
  ghost predicate Reachable(s: Sys) {
    exists states, steps :: IsRun(states, steps) && states[|steps|] == s
  }

  lemma {:induction false} EmptyReachable()
    ensures Reachable(EMPTY)
  {
    assert IsRun([EMPTY], []);
  }

  lemma {:induction false} StepReachable(s: Sys, e: Step)
    requires Reachable(s)
    ensures Reachable(Apply(s, e))
  {
    var states, steps :| IsRun(states, steps) && states[|steps|] == s;
    var states', steps' := states + [Apply(s, e)], steps + [e];
    assert IsRun(states', steps') && states'[|steps'|] == Apply(s, e);
  }

  lemma {:induction false} ReachableInv(s: Sys)
    requires Reachable(s)
    ensures Inv(s)
  {
    var states, steps :| IsRun(states, steps) && states[|steps|] == s;
    InvHolds(states, steps, |steps|);
  }

  // ---------------------------------------------------------------- one step, one number

  predicate Holds(s: Sys, id: int, serial: nat) {
    Stored(s, id) && s.serial[id] == serial
  }

  ghost predicate Purges(s: Sys, e: Step, id: int) {
    Enabled(s, e) && e == Delete(id)
  }

  /** The step inserts a history row under the number. */
  ghost predicate LogsRow(s: Sys, e: Step, id: int) {
    && Enabled(s, e)
    && match e
       case LogTransition => s.moves[s.open.value.serial][s.open.value.pos].row.advert == id
       case ArchiveLog(p) => s.moves[p.serial][p.pos].row.advert == id
       case _ => false
  }

  lemma {:induction false} NumberStep(s: Sys, e: Step, id: int, serial: nat)
    requires serial < |s.moves|
    ensures serial < |Apply(s, e).moves|
    ensures Holds(Apply(s, e), id, serial) <==> Holds(s, id, serial) && !Purges(s, e, id)
  {
  }

  lemma {:induction false} LengthStep(s: Sys, e: Step, id: int)
    requires !Purges(s, e, id)
    ensures |RowsOf(Apply(s, e).history, id)| == |RowsOf(s.history, id)| + (if LogsRow(s, e, id) then 1 else 0)
    ensures !LogsRow(s, e, id) ==> (id in Apply(s, e).disturbed <==> id in s.disturbed)
    ensures id in s.disturbed ==> id in Apply(s, e).disturbed
  {
    hide RowsOf, Purged;
    if Enabled(s, e) {
      match e
      case LogTransition => RowsOfAppend(s.history, s.moves[s.open.value.serial][s.open.value.pos].row, id);
      case ArchiveLog(p) => RowsOfAppend(s.history, s.moves[p.serial][p.pos].row, id);
      case Delete(other) => PurgedRows(s.history, other, id);
      case _ =>
    }
  }

  // ---------------------------------------------------------------- complete logs

  /** Neither a transaction nor the worker owes a row of the advert that has the number. */
  ghost predicate NothingOwedFor(s: Sys, id: int) {
    forall i :: 0 <= i < |TraceOf(s, id)| ==> TraceOf(s, id)[i].logged
  }

  /** The advert is stored and its log ends in its status. */
  ghost predicate CompleteLog(s: Sys, id: int) {
    id in s.adverts && Faithful(RowsOf(s.history, id), s.adverts[id].status)
  }

  /** Whenever nothing is owed for an advert, its log is complete exactly when no row of its number was
      inserted out of turn since the number's last purge. */
  lemma {:induction false} CompleteUnlessDisturbed(states: seq<Sys>, steps: seq<Step>, i: nat, id: int)
    requires IsRun(states, steps) && i < |states| && id in states[i].adverts && NothingOwedFor(states[i], id)
    ensures CompleteLog(states[i], id) <==> id !in states[i].disturbed
    ensures id !in states[i].disturbed ==> RowsOf(states[i].history, id) == Rows(TraceOf(states[i], id))
  {
    InvHolds(states, steps, i);
    NothingOwed(TraceOf(states[i], id), RowsOf(states[i].history, id), id in states[i].disturbed,
                states[i].adverts[id].status);
  }

  /** Out of order is for good: only a purge of the number ends it. */
  lemma {:induction false} BrokenUntilPurged(states: seq<Sys>, steps: seq<Step>, i: nat, j: nat, id: int)
    requires IsRun(states, steps) && i <= j < |states| && id in states[i].disturbed
    requires forall c {:trigger steps[c]} :: i <= c < j ==> !Purges(states[c], steps[c], id)
    ensures id in states[j].disturbed
    ensures NothingOwedFor(states[j], id) ==> !CompleteLog(states[j], id)
    decreases j
  {
    if i < j {
      BrokenUntilPurged(states, steps, i, j - 1, id);
      LengthStep(states[j - 1], steps[j - 1], id);
    }
    if id in states[j].adverts && NothingOwedFor(states[j], id) {
      CompleteUnlessDisturbed(states, steps, j, id);
    }
  }

  /** Between steps a and b nothing was inserted under the number and nothing purged. */
  ghost predicate Quiet(states: seq<Sys>, steps: seq<Step>, a: nat, b: nat, id: int)
    requires a < b < |steps| < |states|
  {
    forall c {:trigger steps[c]} :: a < c < b ==> !LogsRow(states[c], steps[c], id) && !Purges(states[c], steps[c], id)
  }

  predicate NextInLine(s: Sys, id: int, p: Place) {
    Holds(s, id, p.serial) && |RowsOf(s.history, id)| == p.pos
  }

  /** Inserting under the number or purging it ends a row's turn, and nothing brings it back. */
  lemma {:induction false} LineStep(s: Sys, e: Step, id: int, p: Place)
    requires p.serial < |s.moves|
    requires Holds(s, id, p.serial) ==> |RowsOf(s.history, id)| >= p.pos
    ensures p.serial < |Apply(s, e).moves|
    ensures Holds(Apply(s, e), id, p.serial) ==> |RowsOf(Apply(s, e).history, id)| >= p.pos
    ensures NextInLine(Apply(s, e), id, p) <==> NextInLine(s, id, p) && !LogsRow(s, e, id) && !Purges(s, e, id)
    ensures !LogsRow(s, e, id) && !Purges(s, e, id) ==> (id in Apply(s, e).disturbed <==> id in s.disturbed)
  {
    hide Apply, LogsRow, Purges, RowsOf, Holds;
    NumberStep(s, e, id, p.serial);
    if !Purges(s, e, id) {
      LengthStep(s, e, id);
    }
  }

  /** From the archiving on, its row is next in line exactly while the number is left alone. */
  lemma {:induction false} InLineWhileQuiet(states: seq<Sys>, steps: seq<Step>, a: nat, b: nat, id: int, p: Place)
    requires IsRun(states, steps) && a < b < |steps|
    requires p.serial < |states[a + 1].moves| && NextInLine(states[a + 1], id, p)
    ensures p.serial < |states[b].moves|
    ensures NextInLine(states[b], id, p) <==> Quiet(states, steps, a, b, id)
    ensures Holds(states[b], id, p.serial) ==> |RowsOf(states[b].history, id)| >= p.pos
    ensures Quiet(states, steps, a, b, id) ==> (id in states[b].disturbed <==> id in states[a + 1].disturbed)
    decreases b
  {
    hide Inv, Apply, LogsRow, Purges, NextInLine, Holds, RowsOf;
    if a + 1 < b {
      InLineWhileQuiet(states, steps, a, b - 1, id, p);
      assert states[b] == Apply(states[b - 1], steps[b - 1]);
      LineStep(states[b - 1], steps[b - 1], id, p);
    } else {
      StartsInLine(states[b], id, p);
    }
  }

  lemma {:induction false} StartsInLine(s: Sys, id: int, p: Place)
    requires NextInLine(s, id, p)
    ensures |RowsOf(s.history, id)| >= p.pos
  {
  }

  /** Right after the status write the row is next in line. */
  lemma {:induction false} WriteOpensTheLine(s: Sys, e: Step)
    requires Inv(s) && e.ArchiveWrite? && Enabled(s, e) && e.id !in s.disturbed && NothingOwedFor(s, e.id)
    ensures var s', p := Apply(s, e), NextPlace(s, e.id);
            && p.serial < |s'.moves| && NextInLine(s', e.id, p) && InRange(s', p) && s'.disturbed == s.disturbed
            && s'.moves[p.serial][p.pos].row == AutoArchiveRow(e.id, e.now) && s'.history == s.history
  {
    assert LogState(TraceOf(s, e.id), RowsOf(s.history, e.id), e.id in s.disturbed);
  }

  /** What a recorded change was never changes. */
  lemma {:induction false} PlaceStep(s: Sys, e: Step, p: Place)
    requires InRange(s, p)
    ensures InRange(Apply(s, e), p)
    ensures Apply(s, e).moves[p.serial][p.pos].row == s.moves[p.serial][p.pos].row
  {
  }

  lemma {:induction false} PlaceStays(states: seq<Sys>, steps: seq<Step>, i: nat, j: nat, p: Place)
    requires IsRun(states, steps) && i <= j < |states| && InRange(states[i], p)
    ensures InRange(states[j], p) && states[j].moves[p.serial][p.pos].row == states[i].moves[p.serial][p.pos].row
    decreases j
  {
    hide Inv, Apply;
    if i < j {
      PlaceStays(states, steps, i, j - 1, p);
      assert states[j] == Apply(states[j - 1], steps[j - 1]);
      PlaceStep(states[j - 1], steps[j - 1], p);
    }
  }

  lemma {:induction false} StillStored(s': Sys, s: Sys, e: Step, id: int, p: Place)
    requires Inv(s) && e == ArchiveLog(p) && s' == Apply(s, e) && NextInLine(s, id, p)
    ensures id in s'.adverts
  {
  }

  /** Inserting the worker's row keeps the log in order exactly when the row is next in line. */
  lemma {:induction false} LineDecides(s: Sys, id: int, p: Place)
    requires Inv(s) && Enabled(s, ArchiveLog(p)) && s.moves[p.serial][p.pos].row.advert == id
    ensures id in Apply(s, ArchiveLog(p)).disturbed <==> id in s.disturbed || !NextInLine(s, id, p)
  {
  }

  /** Step a is the worker's status write on an advert with a complete log, and step b inserts its row. */
  ghost predicate Archiving(states: seq<Sys>, steps: seq<Step>, a: nat, b: nat, id: int)
    requires IsRun(states, steps)
  {
    && a < b < |steps| && steps[a].ArchiveWrite? && steps[a].id == id && Enabled(states[a], steps[a])
    && CompleteLog(states[a], id) && NothingOwedFor(states[a], id)
    && Stored(states[a], id) && steps[b] == ArchiveLog(NextPlace(states[a], id)) && Enabled(states[b], steps[b])
  }

  lemma {:induction false} RaceDisturbs(states: seq<Sys>, steps: seq<Step>, a: nat, b: nat, id: int)
    requires IsRun(states, steps) && Archiving(states, steps, a, b, id)
    ensures id !in states[b + 1].disturbed <==> Quiet(states, steps, a, b, id)
    ensures Quiet(states, steps, a, b, id) ==> id in states[b + 1].adverts
    ensures b + 1 < |states|
  {
    hide Inv, Apply, LogsRow, Purges, NextInLine, Enabled, Holds, RowsOf, NothingOwedFor, CompleteLog;
    var p := NextPlace(states[a], id);
    CompleteUnlessDisturbed(states, steps, a, id);
    InvHolds(states, steps, a);
    InvHolds(states, steps, b);
    assert states[a + 1] == Apply(states[a], steps[a]) && states[b + 1] == Apply(states[b], steps[b]);
    WriteOpensTheLine(states[a], steps[a]);
    InLineWhileQuiet(states, steps, a, b, id, p);
    PlaceStays(states, steps, a + 1, b, p);
    LineDecides(states[b], id, p);
    if Quiet(states, steps, a, b, id) {
      StillStored(states[b + 1], states[b], steps[b], id, p);
    }
  }

  /** If the log was complete before the status write, it is complete again after the row exactly when
      between the two writes no row was inserted under the number and it was not purged. */
  lemma {:induction false} ArchiveRace(states: seq<Sys>, steps: seq<Step>, a: nat, b: nat, id: int)
    requires IsRun(states, steps) && Archiving(states, steps, a, b, id)
    ensures id !in states[b + 1].disturbed <==> Quiet(states, steps, a, b, id)
    ensures NothingOwedFor(states[b + 1], id) ==> (CompleteLog(states[b + 1], id) <==> Quiet(states, steps, a, b, id))
  {
    hide *;
    RaceDisturbs(states, steps, a, b, id);
    if NothingOwedFor(states[b + 1], id) && id in states[b + 1].adverts {
      CompleteUnlessDisturbed(states, steps, b + 1, id);
    }
    if CompleteLog(states[b + 1], id) {
      StoredIfComplete(states[b + 1], id);
    }
  }

  lemma {:induction false} StoredIfComplete(s: Sys, id: int)
    requires CompleteLog(s, id)
    ensures id in s.adverts
  {
  }

  /** The worker's row stays owed until the worker inserts it. */
  lemma {:induction false} OwedStays(s: Sys, e: Step, p: Place)
    requires Inv(s) && Enabled(s, ArchiveLog(p)) && e != ArchiveLog(p)
    ensures Enabled(Apply(s, e), ArchiveLog(p))
    ensures Apply(s, e).moves[p.serial][p.pos] == s.moves[p.serial][p.pos]
  {
    hide VersionsOk, LogsOk, TracesOk;
  }

  /** No stored advert's log was disturbed and nothing is owed. */
  ghost predicate UpToDate(s: Sys) {
    forall id :: id in s.adverts ==> id !in s.disturbed && NothingOwedFor(s, id)
  }

  lemma {:induction false} UpToDateMeansComplete(s: Sys, id: int)
    requires Inv(s) && UpToDate(s) && id in s.adverts
    ensures CompleteLog(s, id)
  {
    NothingOwed(TraceOf(s, id), RowsOf(s.history, id), false, s.adverts[id].status);
  }

  /** The traces after both writes of the worker. */
  lemma {:induction false} ArchivedTrace(s: Sys, e: Step, p: Place, x: int)
    requires Inv(s) && e.ArchiveWrite? && Enabled(s, e) && p == NextPlace(s, e.id) && x in s.adverts
    ensures Enabled(Apply(s, e), ArchiveLog(p)) && Apply(Apply(s, e), ArchiveLog(p)).adverts.Keys == s.adverts.Keys
    ensures TraceOf(Apply(Apply(s, e), ArchiveLog(p)), x)
            == TraceOf(s, x) + (if x == e.id then [Move(AutoArchiveRow(e.id, e.now), true)] else [])
    ensures x != e.id ==> (x in Apply(Apply(s, e), ArchiveLog(p)).disturbed <==> x in s.disturbed)
  {
    hide VersionsOk, LogsOk, OpenOk, RowsOf, IsLog;
  }

  lemma {:induction false} ArchivedInTurn(s: Sys, e: Step, p: Place)
    requires Inv(s) && e.ArchiveWrite? && Enabled(s, e) && p == NextPlace(s, e.id)
    requires e.id !in s.disturbed && NothingOwedFor(s, e.id) && Enabled(Apply(s, e), ArchiveLog(p))
    ensures e.id !in Apply(Apply(s, e), ArchiveLog(p)).disturbed
  {
    hide Inv, Apply, Enabled, NextInLine, NothingOwedFor, RowsOf;
    StepKeepsInv(s, e);
    WriteOpensTheLine(s, e);
    LineDecides(Apply(s, e), e.id, p);
  }

  lemma {:induction false} LoggedToo(m: seq<Move>, more: seq<Move>)
    requires forall i :: 0 <= i < |m| ==> m[i].logged
    requires forall i :: 0 <= i < |more| ==> more[i].logged
    ensures forall i :: 0 <= i < |m + more| ==> (m + more)[i].logged
  {
  }

  lemma {:induction false} ArchivedLog(s: Sys, e: Step, p: Place, x: int)
    requires Inv(s) && e.ArchiveWrite? && Enabled(s, e) && p == NextPlace(s, e.id)
    requires x in s.adverts && NothingOwedFor(s, x)
    ensures NothingOwedFor(Apply(Apply(s, e), ArchiveLog(p)), x)
  {
    hide Inv, Apply, Enabled, NextPlace, TraceOf, RowsOf;
    ArchivedTrace(s, e, p, x);
    LoggedToo(TraceOf(s, x), if x == e.id then [Move(AutoArchiveRow(e.id, e.now), true)] else []);
  }

  /** Both writes of the worker with nothing in between leave every log complete. */
  lemma {:induction false} ArchivingKeepsLogs(s: Sys, e: Step, p: Place)
    requires Inv(s) && e.ArchiveWrite? && Enabled(s, e) && UpToDate(s) && p == NextPlace(s, e.id)
    ensures UpToDate(Apply(Apply(s, e), ArchiveLog(p)))
  {
    assert Stored(s, e.id) && e.id in s.adverts;
    hide Inv, Apply, Enabled, NothingOwedFor, NextPlace, TraceOf, RowsOf;
    ArchivedTrace(s, e, p, e.id);
    ArchivedInTurn(s, e, p);
    forall x | x in s.adverts
      ensures x !in Apply(Apply(s, e), ArchiveLog(p)).disturbed
      ensures NothingOwedFor(Apply(Apply(s, e), ArchiveLog(p)), x)
    {
      ArchivedTrace(s, e, p, x);
      ArchivedLog(s, e, p, x);
    }
  }

  // ---------------------------------------------------------------- no sale stamp, no worker

  /** Nobody carries a sale time, so the worker has nothing to do. */
  ghost predicate WorkerIdle(s: Sys) {
    && s.listed == {} && s.disturbed == {}
    && (forall id :: id in s.adverts ==> s.adverts[id].soldAt.None?)
    && (forall p :: InRange(s, p) ==> s.moves[p.serial][p.pos].row.actor != System)
  }

  /** The transaction's row is next in line when the worker has no part in the log. */
  lemma {:induction false} OpenIsNext(s: Sys)
    requires Inv(s) && WorkerIdle(s) && s.open.Some?
    ensures InRange(s, s.open.value) && InTurn(s, s.open.value)
  {
    var p := s.open.value;
    var id := s.moves[p.serial][p.pos].row.advert;
    var m, rows := TraceOf(s, id), RowsOf(s.history, id);
    assert LogState(m, rows, false);
    if |rows| < p.pos {
      assert OwedByTransaction(s, Place(p.serial, |rows|));
    }
  }

  lemma {:induction false} IdleStep(s: Sys, e: Step)
    requires Inv(s) && WorkerIdle(s) && !e.Stamp?
    ensures WorkerIdle(Apply(s, e))
  {
    if Enabled(s, e) {
      var s' := Apply(s, e);
      if e.LogTransition? {
        OpenIsNext(s);
      }
      forall p | InRange(s', p)
        ensures s'.moves[p.serial][p.pos].row.actor != System
      {
        assert InRange(s, p) ==> s.moves[p.serial][p.pos].row.actor != System;
      }
    }
  }

  lemma {:induction false} IdleHolds(states: seq<Sys>, steps: seq<Step>, i: nat)
    requires IsRun(states, steps) && i < |states| && forall c {:trigger steps[c]} :: 0 <= c < i ==> !steps[c].Stamp?
    ensures WorkerIdle(states[i])
  {
    hide Inv, Apply;
    if i > 0 {
      IdleHolds(states, steps, i - 1);
      InvHolds(states, steps, i - 1);
      assert states[i] == Apply(states[i - 1], steps[i - 1]);
      IdleStep(states[i - 1], steps[i - 1]);
    }
  }

  /** While no sale is stamped, as in the in-memory store, the worker never lists or archives anything,
      and every log is complete except that of the advert whose own transaction is running. */
  lemma {:induction false} NoStampNoRace(states: seq<Sys>, steps: seq<Step>, i: nat, id: int)
    requires IsRun(states, steps) && i < |states| && forall c {:trigger steps[c]} :: 0 <= c < i ==> !steps[c].Stamp?
    ensures states[i].listed == {} && states[i].disturbed == {}
    ensures id in states[i].adverts ==>
              (CompleteLog(states[i], id) <==> NothingOwedFor(states[i], id))
              && (states[i].open.None? ==> CompleteLog(states[i], id))
  {
    hide Apply, Inv, NothingOwedFor, CompleteLog;
    IdleHolds(states, steps, i);
    InvHolds(states, steps, i);
    if id in states[i].adverts {
      IdleLog(states[i], id);
    }
  }

  /** What is missing while the transaction runs is exactly the last row. */
  lemma {:induction false} IdleLog(s: Sys, id: int)
    requires Inv(s) && WorkerIdle(s) && id in s.adverts
    ensures CompleteLog(s, id) <==> NothingOwedFor(s, id)
    ensures s.open.None? ==> NothingOwedFor(s, id)
  {
    var m, rows, n := TraceOf(s, id), RowsOf(s.history, id), s.serial[id];
    assert LogState(m, rows, false);
    forall i | 0 <= i < |m| && !m[i].logged
      ensures s.open == Some(Place(n, i))
    {
      assert InRange(s, Place(n, i)) && OwedByTransaction(s, Place(n, i));
    }
    if NothingOwedFor(s, id) {
      NothingOwed(m, rows, false, s.adverts[id].status);
    } else {
      assert s.open == Some(Place(n, |rows|)) && s.open == Some(Place(n, |m| - 1));
      OneMissing(m, rows, s.adverts[id].status);
    }
  }

  lemma {:induction false} OneMissing(m: seq<Move>, rows: seq<Row>, status: AdvertStatus)
    requires IsTrace(m) && InOrder(m, rows) && Faithful(Rows(m), status) && |rows| + 1 == |m|
    ensures !Faithful(rows, status)
  {
    if rows != [] {
      Junction(Rows(m), |rows|);
    }
  }

  // ---------------------------------------------------------------- approval

  predicate IsPublic(s: AdvertStatus) {
    s == Published || s == Sold || s == Suspended || s == Archived
  }

  /** An administrator publishes the advert, which is under review. */
  ghost predicate Approves(s: Sys, e: Step, id: int) {
    && Enabled(s, e) && e.Transition? && e.id == id
    && s.adverts[id].status == PendingReview && e.row.to == Published && e.row.actor.Admin?
  }

  lemma {:induction false} PublicStep(s: Sys, e: Step, id: int)
    requires Inv(s) && id in Apply(s, e).adverts && id in Apply(s, e).serial
    requires IsPublic(Apply(s, e).adverts[id].status)
    ensures Holds(s, id, Apply(s, e).serial[id])
    ensures IsPublic(s.adverts[id].status) || Approves(s, e, id)
  {
    hide VersionsOk, OpenOk, LogsOk, Faithful, IsTrace;
  }

  ghost predicate PublicSince(states: seq<Sys>, c: nat, i: nat, id: int, serial: nat)
    requires i < |states|
  {
    forall j :: c < j <= i ==> Holds(states[j], id, serial) && IsPublic(states[j].adverts[id].status)
  }

  /** Never published without approval: an advert that is PUBLISHED, SOLD, SUSPENDED or ARCHIVED was
      approved by an administrator out of PENDING_REVIEW, and has been one of the four ever since.
      This says nothing of its log, and holds whatever the worker did. */
  lemma {:induction false} NeverPublicWithoutApproval(states: seq<Sys>, steps: seq<Step>, i: nat, id: int)
    returns (c: nat)
    requires IsRun(states, steps) && i < |states|
    requires id in states[i].adverts && IsPublic(states[i].adverts[id].status)
    ensures c < i && id in states[i].serial && Holds(states[c], id, states[i].serial[id])
    ensures Approves(states[c], steps[c], id)
    ensures PublicSince(states, c, i, id, states[i].serial[id])
  {
    hide Apply, Inv, Approves, IsPublic;
    InvHolds(states, steps, i);
    AreStored(states[i], id);
    assert i > 0;
    InvHolds(states, steps, i - 1);
    assert states[i] == Apply(states[i - 1], steps[i - 1]);
    PublicStep(states[i - 1], steps[i - 1], id);
    if IsPublic(states[i - 1].adverts[id].status) {
      c := NeverPublicWithoutApproval(states, steps, i - 1, id);
    } else {
      c := i - 1;
    }
  }

  lemma {:induction false} AreStored(s: Sys, id: int)
    requires Inv(s) && id in s.adverts
    ensures Stored(s, id)
  {
  }

  /** The approval is on record: a public advert whose log was never disturbed shows it, with nothing but
      drafting and review before it. */
  lemma {:induction false} ApprovalOnRecord(states: seq<Sys>, steps: seq<Step>, i: nat, id: int) returns (k: nat)
    requires IsRun(states, steps) && i < |states| && NothingOwedFor(states[i], id) && id !in states[i].disturbed
    requires id in states[i].adverts && IsPublic(states[i].adverts[id].status)
    ensures var rows := RowsOf(states[i].history, id);
            && k < |rows| && rows[k].from == Some(PendingReview) && rows[k].to == Published && rows[k].actor.Admin?
            && forall j :: 0 <= j < k ==> NeverPublic(rows[j].to)
  {
    CompleteUnlessDisturbed(states, steps, i, id);
    k := PublicMeansApproved(RowsOf(states[i].history, id), states[i].adverts[id].status);
  }

  // ---------------------------------------------------------------- versions

  /** The step is a guarded write that goes through: it consumes the version it expects. */
  ghost predicate Consumes(s: Sys, e: Step, w: Write) {
    && Enabled(s, e)
    && match e
       case Edit(_, id, expected, _) => w == Write(s.serial[id], expected)
       case Transition(id, expected, _, _) => w == Write(s.serial[id], expected)
       case ArchiveWrite(id, expected, _) => w == Write(s.serial[id], expected)
       case _ => false
  }

  lemma {:induction false} WriteStep(s: Sys, e: Step)
    ensures s.writes <= Apply(s, e).writes
    ensures forall w :: Consumes(s, e, w) ==> Apply(s, e).writes == s.writes + [w]
  {
  }

  lemma {:induction false} WritesGrow(states: seq<Sys>, steps: seq<Step>, i: nat, j: nat)
    requires IsRun(states, steps) && i <= j < |states|
    ensures states[i].writes <= states[j].writes
    decreases j
  {
    hide Apply;
    if i < j {
      WritesGrow(states, steps, i, j - 1);
      WriteStep(states[j - 1], steps[j - 1]);
      assert states[j] == Apply(states[j - 1], steps[j - 1]);
    }
  }

  lemma {:induction false} WritesDiffer(s: Sys, i: nat, j: nat)
    requires Inv(s) && i < j < |s.writes|
    ensures s.writes[i] != s.writes[j]
  {
  }

  /** Two requests that expect the same version of the same advert never both write, whoever makes them. */
  lemma {:induction false} NoVersionConsumedTwice(states: seq<Sys>, steps: seq<Step>, i: nat, j: nat, w: Write)
    requires IsRun(states, steps) && i < j < |steps|
    requires Consumes(states[i], steps[i], w)
    ensures !Consumes(states[j], steps[j], w)
  {
    hide Apply, Inv, Consumes;
    assert states[i + 1] == Apply(states[i], steps[i]) && states[j + 1] == Apply(states[j], steps[j]);
    WriteStep(states[i], steps[i]);
    WriteStep(states[j], steps[j]);
    WritesGrow(states, steps, i + 1, j);
    InvHolds(states, steps, j + 1);
    if Consumes(states[j], steps[j], w) {
      WritesDiffer(states[j + 1], |states[i].writes|, |states[j].writes|);
    }
  }

  lemma {:induction false} NumberStays(states: seq<Sys>, steps: seq<Step>, i: nat, j: nat, id: int, serial: nat)
    requires IsRun(states, steps) && i <= j < |states| && Holds(states[i], id, serial)
    requires forall c {:trigger steps[c]} :: i <= c < j ==> !Purges(states[c], steps[c], id)
    ensures Holds(states[j], id, serial)
    decreases j
  {
    hide Apply, Purges;
    if i < j {
      NumberStays(states, steps, i, j - 1, id, serial);
      assert states[j] == Apply(states[j - 1], steps[j - 1]);
      NumberStep(states[j - 1], steps[j - 1], id, serial);
    }
  }

  /** Two requests that expect the same version of the same number both write only if the number changed
      hands in between: the first advert was permanently deleted. */
  lemma {:induction false} SameVersionTwiceNeedsDeletion(
    states: seq<Sys>, steps: seq<Step>, i: nat, j: nat, id: int, expected: int)
    requires IsRun(states, steps) && i < j < |steps| && Stored(states[i], id) && Stored(states[j], id)
    requires Consumes(states[i], steps[i], Write(states[i].serial[id], expected))
    requires Consumes(states[j], steps[j], Write(states[j].serial[id], expected))
    ensures exists c {:trigger steps[c]} :: i <= c < j && Purges(states[c], steps[c], id)
  {
    hide Apply, Purges, Consumes;
    if forall c {:trigger steps[c]} :: i <= c < j ==> !Purges(states[c], steps[c], id) {
      NumberStays(states, steps, i, j, id, states[i].serial[id]);
      NoVersionConsumedTwice(states, steps, i, j, Write(states[i].serial[id], expected));
    }
  }

  /** A soft-deleted advert never changes again and is never removed. */
  lemma {:induction false} DeletedForever(states: seq<Sys>, steps: seq<Step>, i: nat, j: nat, id: int)
    requires IsRun(states, steps) && i <= j < |states|
    requires id in states[i].adverts && states[i].adverts[id].deletedAt.Some?
    ensures id in states[j].adverts && states[j].adverts[id] == states[i].adverts[id]
    decreases j
  {
    hide Apply;
    if i < j {
      DeletedForever(states, steps, i, j - 1, id);
      assert states[j] == Apply(states[j - 1], steps[j - 1]);
      DeletedStep(states[j - 1], steps[j - 1], id);
    }
  }

  lemma {:induction false} DeletedStep(s: Sys, e: Step, id: int)
    requires id in s.adverts && s.adverts[id].deletedAt.Some?
    ensures id in Apply(s, e).adverts && Apply(s, e).adverts[id] == s.adverts[id]
  {
  }
}
