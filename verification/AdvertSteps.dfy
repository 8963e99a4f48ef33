/** The advert tables under interleaved calls, one repository write at a time. A transaction holds the
    lock between its status write and that write's history row; the auto-archive worker takes no lock,
    so its two writes fall anywhere, and it may stop between them for ever. */
module AdvertSteps {
  import opened Basics
  import opened AdvertHistory

  /** A status change of an advert, and whether its history row has been inserted. */
  datatype Move = Move(row: Row, logged: bool)

  /** A status change: which advert, by order of birth, and its position among that advert's changes. */
  datatype Place = Place(serial: nat, pos: nat)

  datatype SoldRow = SoldRow(id: int, version: int, soldAt: Time)

  /** The tables adverts and history, and what happened: the order of birth of each stored advert, every
      status change of every advert ever born, every guarded write, the change whose row the running
      transaction still owes, what the worker has listed, and the numbers for which a row was inserted
      out of turn since their history was last purged. */
  datatype Sys = Sys(
    adverts: map<int, Advert>, history: seq<Row>, serial: map<int, nat>, moves: seq<seq<Move>>,
    writes: seq<Write>, open: Option<Place>, listed: set<SoldRow>, disturbed: set<int>)

  /** One repository write, or the worker's listing. Stamping the sale is a step of its own: the in-memory
      store never takes it. */
  datatype Step =
    | Create(id: int, a: Advert, row: Row)
    | Edit(actor: Actor, id: int, expected: int, a: Advert)
    | Transition(id: int, expected: int, a: Advert, row: Row)
    | LogTransition
    | Delete(id: int)
    | Stamp(id: int, at: Time)
    | List(cutoff: Time)
    | ArchiveWrite(id: int, expected: int, now: Time)
    | ArchiveLog(place: Place)

  predicate CanHardDelete(s: AdvertStatus) {
    s == Suspended || s == Archived || s == Rejected
  }

  predicate Stored(s: Sys, id: int) {
    id in s.adverts && id in s.serial && s.serial[id] < |s.moves|
  }

  predicate Current(s: Sys, id: int, expected: int) {
    Stored(s, id) && s.adverts[id].deletedAt.None? && s.adverts[id].version == expected
  }

  predicate InRange(s: Sys, p: Place) {
    p.serial < |s.moves| && p.pos < |s.moves[p.serial]|
  }

  /** The row is inserted in turn: its advert still has the number, and the rows before it are in. */
  predicate InTurn(s: Sys, p: Place)
    requires InRange(s, p)
  {
    var id := s.moves[p.serial][p.pos].row.advert;
    id in s.adverts && id in s.serial && s.serial[id] == p.serial && |RowsOf(s.history, id)| == p.pos
  }

  predicate Due(a: Advert, cutoff: Time) {
    a.status == Sold && a.deletedAt.None? && a.soldAt.Some? && a.soldAt.value < cutoff
  }

  function DueRows(adverts: map<int, Advert>, cutoff: Time): set<SoldRow> {
    set id | id in adverts && Due(adverts[id], cutoff) ::
      SoldRow(id, adverts[id].version, (if adverts[id].soldAt.Some? then adverts[id].soldAt.value else 0))
  }

  predicate Successor(b: Advert, a: Advert) {
    a.version == b.version + 1 && a.soldAt == b.soldAt && a.owner == b.owner
  }

  /** The write condition on the caller: an owner writes to its own advert only; the worker's writes are
      steps of their own. */
  predicate MayWrite(actor: Actor, a: Advert) {
    match actor
    case Owner(user) => a.owner == user
    case Admin(_) => true
    case System => false
  }

  ghost predicate Enabled(s: Sys, e: Step) {
    match e
    case Create(id, a, row) =>
      && s.open.None? && id !in s.adverts
      && a.status == Draft && a.version == 1 && a.deletedAt.None? && a.soldAt.None?
      && row.advert == id && row.from.None? && row.to == Draft && row.actor == Owner(a.owner)
    case Edit(actor, id, expected, a) =>
      && Current(s, id, expected) && MayWrite(actor, s.adverts[id])
      && Successor(s.adverts[id], a) && a.status == s.adverts[id].status
    case Transition(id, expected, a, row) =>
      && s.open.None? && Current(s, id, expected) && Successor(s.adverts[id], a) && a.deletedAt.None?
      && row.advert == id && row.from == Some(s.adverts[id].status) && row.to == a.status
      && MayWrite(row.actor, s.adverts[id]) && Allowed(row.actor, s.adverts[id].status, a.status)
    case LogTransition => s.open.Some? && InRange(s, s.open.value)
    case Delete(id) =>
      s.open.None? && Stored(s, id) && s.adverts[id].deletedAt.None? && CanHardDelete(s.adverts[id].status)
    case Stamp(id, _) => Stored(s, id) && s.adverts[id].deletedAt.None? && s.adverts[id].status == Sold
    case List(_) => true
    case ArchiveWrite(id, expected, _) =>
      && (exists r :: r in s.listed && r.id == id && r.version == expected)
      && Current(s, id, expected) && s.adverts[id].status == Sold
    case ArchiveLog(p) =>
      InRange(s, p) && s.moves[p.serial][p.pos].row.actor == System && !s.moves[p.serial][p.pos].logged
  }

  function Put(s: Sys, id: int, a: Advert): Sys
    requires Stored(s, id)
  {
    s.(adverts := s.adverts[id := a], writes := s.writes + [Write(s.serial[id], s.adverts[id].version)])
  }

  function Record(s: Sys, id: int, row: Row): Sys
    requires Stored(s, id)
  {
    var n := s.serial[id];
    s.(moves := s.moves[n := s.moves[n] + [Move(row, false)]])
  }

  function Insert(s: Sys, p: Place): Sys
    requires InRange(s, p)
  {
    var m := s.moves[p.serial];
    var row := m[p.pos].row;
    s.(history := s.history + [row], moves := s.moves[p.serial := m[p.pos := Move(row, true)]],
    disturbed := if InTurn(s, p) then s.disturbed else s.disturbed + {row.advert})
  }

  function NextPlace(s: Sys, id: int): Place
    requires Stored(s, id)
  {
    Place(s.serial[id], |s.moves[s.serial[id]]|)
  }

  function Archive(a: Advert, now: Time): Advert {
    a.(status := Archived, version := a.version + 1, updatedAt := now)
  }

  ghost function Effect(s: Sys, e: Step): Sys
    requires Enabled(s, e)
  {
    match e
    case Create(id, a, row) =>
      s.(adverts := s.adverts[id := a], serial := s.serial[id := |s.moves|], moves := s.moves + [[Move(row, false)]],
      open := Some(Place(|s.moves|, 0)))
    case Edit(_, id, _, a) => Put(s, id, a)
    case Transition(id, _, a, row) => Record(Put(s, id, a), id, row).(open := Some(NextPlace(s, id)))
    case LogTransition => Insert(s, s.open.value).(open := None)
    case Delete(id) =>
      s.(adverts := s.adverts - {id}, history := Purged(s.history, id), disturbed := s.disturbed - {id})
    case Stamp(id, at) => s.(adverts := s.adverts[id := s.adverts[id].(soldAt := Some(at))])
    case List(cutoff) => s.(listed := s.listed + DueRows(s.adverts, cutoff))
    case ArchiveWrite(id, _, now) => Record(Put(s, id, Archive(s.adverts[id], now)), id, AutoArchiveRow(id, now))
    case ArchiveLog(p) => Insert(s, p)
  }

  /** A step whose guard does not hold is refused and changes nothing. */
  ghost function Apply(s: Sys, e: Step): Sys {
    if Enabled(s, e) then Effect(s, e) else s
  }

  // ---------------------------------------------------------------- one advert

  function Rows(m: seq<Move>): (rows: seq<Row>)
    ensures |rows| == |m| && forall i :: 0 <= i < |m| ==> rows[i] == m[i].row
  {
    seq(|m|, i requires 0 <= i < |m| => m[i].row)
  }

  ghost predicate Broken(rows: seq<Row>) {
    rows != [] && (rows[0].from.Some? || exists i :: 0 < i < |rows| && rows[i].from != Some(rows[i - 1].to))
  }

  /** Arrivals at SOLD less departures from it. */
  function Weight(row: Row): int {
    (if row.to == Sold then 1 else 0) - (if row.from == Some(Sold) then 1 else 0)
  }

  function Net(rows: seq<Row>): int {
    if rows == [] then 0 else Net(rows[..|rows| - 1]) + Weight(rows[|rows| - 1])
  }

  function NetLogged(m: seq<Move>): int {
    if m == [] then 0
    else NetLogged(m[..|m| - 1]) + (if m[|m| - 1].logged then Weight(m[|m| - 1].row) else 0)
  }

  /** The log holds the first changes and no others; at most two are missing. */
  ghost predicate InOrder(m: seq<Move>, rows: seq<Row>) {
    && |rows| <= |m| <= |rows| + 2
    && (forall i :: 0 <= i < |rows| ==> m[i].logged && rows[i] == m[i].row)
    && (forall i :: |rows| <= i < |m| ==> !m[i].logged)
  }

  /** What the log of a number looks like, given the changes of the advert that has the number (none
      when nobody has): in order, or beyond repair. */
  ghost predicate LogState(m: seq<Move>, rows: seq<Row>, disturbed: bool) {
    if disturbed then Broken(rows) || (m != [] && Net(rows) < NetLogged(m)) else InOrder(m, rows)
  }

  ghost predicate IsTrace(m: seq<Move>) {
    && IsLog(Rows(m)) && m[0].row.actor.Owner?
    && forall i :: 0 <= i < |m| ==> m[i].row.advert == m[0].row.advert
  }

  /** A change whose row its own transaction owes. */
  predicate Unlogged(v: Move) {
    !v.logged && v.row.actor != System
  }

  /** At most one change is owed by a transaction. */
  ghost predicate OneOpen(m: seq<Move>) {
    forall i, j :: 0 <= i < |m| && 0 <= j < |m| && Unlogged(m[i]) && Unlogged(m[j]) ==> i == j
  }

  lemma {:induction false} NetAppend(rows: seq<Row>, row: Row)
    ensures Net(rows + [row]) == Net(rows) + Weight(row)
  {
    assert (rows + [row])[..|rows|] == rows;
  }

  lemma {:induction false} NetLoggedAppend(m: seq<Move>, v: Move)
    ensures NetLogged(m + [v]) == NetLogged(m) + (if v.logged then Weight(v.row) else 0)
  {
    assert (m + [v])[..|m|] == m;
  }

  lemma {:induction false} NetLoggedMark(m: seq<Move>, pos: nat)
    requires pos < |m| && !m[pos].logged
    ensures NetLogged(m[pos := Move(m[pos].row, true)]) == NetLogged(m) + Weight(m[pos].row)
  {
    var m' := m[pos := Move(m[pos].row, true)];
    var n := |m| - 1;
    if pos == n {
      assert m'[..n] == m[..n];
    } else {
      assert m'[..n] == m[..n][pos := Move(m[pos].row, true)];
      NetLoggedMark(m[..n], pos);
    }
  }

  /** An in-order log weighs what its logged changes weigh. */
  lemma {:induction false} InOrderNet(m: seq<Move>, rows: seq<Row>)
    requires |rows| <= |m|
    requires forall i :: 0 <= i < |rows| ==> m[i].logged && rows[i] == m[i].row
    requires forall i :: |rows| <= i < |m| ==> !m[i].logged
    ensures Net(rows) == NetLogged(m)
  {
    if m != [] {
      var n := |m| - 1;
      InOrderNet(m[..n], if |rows| == |m| then rows[..n] else rows);
    }
  }

  /** In a log, SOLD is entered once more than left exactly when it is the last status. */
  lemma {:induction false} LogNet(rows: seq<Row>)
    requires IsLog(rows)
    ensures Net(rows) == if Last(rows) == Sold then 1 else 0
  {
    var n := |rows| - 1;
    if n == 0 {
      assert Net(rows[..0]) == 0;
    } else {
      LogNet(rows[..n]);
      assert rows[n].from == Some(rows[n - 1].to) && Allowed(rows[n].actor, rows[n - 1].to, rows[n].to);
    }
  }

  lemma {:induction false} BrokenStays(rows: seq<Row>, row: Row)
    requires Broken(rows)
    ensures Broken(rows + [row])
  {
    var rows' := rows + [row];
    if rows[0].from.None? {
      var i :| 0 < i < |rows| && rows[i].from != Some(rows[i - 1].to);
      assert rows'[i].from != Some(rows'[i - 1].to);
    }
  }

  lemma {:induction false} Junction(rows: seq<Row>, i: nat)
    requires IsLog(rows) && 0 < i < |rows|
    ensures rows[i].from == Some(rows[i - 1].to) && Allowed(rows[i].actor, rows[i - 1].to, rows[i].to)
  {
  }

  lemma {:induction false} WorkerRows(m: seq<Move>)
    requires IsTrace(m)
    ensures forall k :: 0 <= k < |m| && m[k].row.actor == System ==>
                          m[k].row.from == Some(Sold) && m[k].row.to == Archived
  {
    forall k | 0 <= k < |m| && m[k].row.actor == System
      ensures m[k].row.from == Some(Sold) && m[k].row.to == Archived
    {
      assert Rows(m)[k].from == Some(Rows(m)[k - 1].to);
    }
  }

  /** At most two changes are ever missing: one that a transaction owes, one that the worker owes. */
  lemma {:induction false} AtMostTwoMissing(m: seq<Move>, rows: seq<Row>)
    requires IsTrace(m) && OneOpen(m) && |rows| <= |m|
    requires forall i :: |rows| <= i < |m| ==> !m[i].logged
    ensures |m| <= |rows| + 2
  {
    if |m| > |rows| + 2 {
      var k, all := |rows|, Rows(m);
      WorkerRows(m);
      Junction(all, k + 1);
      Junction(all, k + 2);
    }
  }

  /** A status change is recorded; its row is still to come. */
  lemma {:induction false} RecordKeepsLog(m: seq<Move>, row: Row, rows: seq<Row>, disturbed: bool)
    requires LogState(m, rows, disturbed) && IsTrace(m + [Move(row, false)]) && OneOpen(m + [Move(row, false)])
    requires m == [] ==> row.from.None?
    ensures LogState(m + [Move(row, false)], rows, disturbed)
  {
    NetLoggedAppend(m, Move(row, false));
    if !disturbed {
      AtMostTwoMissing(m + [Move(row, false)], rows);
    }
  }

  /** A row overtaking another leaves a gap that no later row closes. */
  lemma {:induction false} OvertakingBreaks(m: seq<Move>, pos: nat, rows: seq<Row>)
    requires IsTrace(m) && InOrder(m, rows) && pos < |m| && !m[pos].logged && pos != |rows|
    ensures Broken(rows + [m[pos].row])
  {
    var k, all, rows' := |rows|, Rows(m), rows + [m[pos].row];
    assert pos == k + 1;
    assert all[pos].from == Some(all[k].to);
    if k > 0 {
      assert all[k].from == Some(all[k - 1].to) && Allowed(all[k].actor, all[k - 1].to, all[k].to);
      assert rows'[k - 1] == m[k - 1].row;
      assert rows'[k].from != Some(rows'[k - 1].to);
    }
  }

  /** The stored advert's own row is inserted. */
  lemma {:induction false} InsertKeepsLog(m: seq<Move>, pos: nat, rows: seq<Row>, disturbed: bool)
    requires LogState(m, rows, disturbed) && IsTrace(m) && pos < |m| && !m[pos].logged
    ensures LogState(m[pos := Move(m[pos].row, true)], rows + [m[pos].row], disturbed || |rows| != pos)
  {
    if !disturbed && |rows| != pos {
      OvertakingBreaks(m, pos, rows);
    }
    if disturbed {
      NetAppend(rows, m[pos].row);
      NetLoggedMark(m, pos);
      if Broken(rows) {
        BrokenStays(rows, m[pos].row);
      }
    }
  }

  /** A row of an advert that is gone is inserted under the number of another, or of nobody. */
  lemma {:induction false} OrphanBreaks(m: seq<Move>, row: Row, rows: seq<Row>, disturbed: bool)
    requires LogState(m, rows, disturbed) && row.from == Some(Sold) && row.to == Archived
    ensures LogState(m, rows + [row], true)
  {
    NetAppend(rows, row);
    if disturbed {
      if Broken(rows) {
        BrokenStays(rows, row);
      }
    } else {
      InOrderNet(m, rows);
    }
  }

  /** With nothing owed, the log is complete exactly when it was never disturbed. */
  lemma {:induction false} NothingOwed(m: seq<Move>, rows: seq<Row>, disturbed: bool, status: AdvertStatus)
    requires LogState(m, rows, disturbed) && Faithful(Rows(m), status)
    requires forall i :: 0 <= i < |m| ==> m[i].logged
    ensures Faithful(rows, status) <==> !disturbed
    ensures !disturbed ==> rows == Rows(m)
  {
    if disturbed {
      InOrderNet(m, Rows(m));
      LogNet(Rows(m));
      if IsLog(rows) {
        LogNet(rows);
      }
    } else {
      assert rows == Rows(m);
    }
  }

  // ---------------------------------------------------------------- every step

  /** The changes of the advert that has the number. */
  function TraceOf(s: Sys, id: int): seq<Move> {
    if Stored(s, id) then s.moves[s.serial[id]] else []
  }

  ghost predicate TracesOk(s: Sys) {
    && (forall n {:trigger s.moves[n]} :: 0 <= n < |s.moves| ==> IsTrace(s.moves[n]))
    && (forall id :: id in s.adverts ==>
          && Stored(s, id) && s.moves[s.serial[id]] != [] && s.moves[s.serial[id]][0].row.advert == id
          && Faithful(Rows(s.moves[s.serial[id]]), s.adverts[id].status))
  }

  predicate OwedByTransaction(s: Sys, p: Place) {
    InRange(s, p) && Unlogged(s.moves[p.serial][p.pos])
  }

  /** Only the running transaction owes a row of its own, and its advert is stored. */
  ghost predicate OpenOk(s: Sys) {
    && (forall p :: OwedByTransaction(s, p) ==> s.open == Some(p))
    && (s.open.Some? ==>
          var p := s.open.value;
          OwedByTransaction(s, p)
          && var id := s.moves[p.serial][p.pos].row.advert; Stored(s, id) && s.serial[id] == p.serial)
  }

  ghost predicate LogsOk(s: Sys) {
    forall id :: LogState(TraceOf(s, id), RowsOf(s.history, id), id in s.disturbed)
  }

  ghost predicate Inv(s: Sys) {
    && VersionsOk(s.adverts, s.serial, |s.moves|, s.writes)
    && TracesOk(s) && OpenOk(s) && LogsOk(s)
  }

  lemma {:induction false} RecordTrace(m: seq<Move>, row: Row)
    requires IsTrace(m) && row.advert == m[0].row.advert
    requires row.from == Some(m[|m| - 1].row.to) && Allowed(row.actor, m[|m| - 1].row.to, row.to)
    ensures IsTrace(m + [Move(row, false)])
    ensures Last(Rows(m + [Move(row, false)])) == row.to
  {
    LogGrows(Rows(m), row);
    assert Rows(m + [Move(row, false)]) == Rows(m) + [row];
  }

  lemma {:induction false} MarkTrace(m: seq<Move>, pos: nat)
    requires pos < |m|
    ensures Rows(m[pos := Move(m[pos].row, true)]) == Rows(m)
  {
  }

  /** Steps that touch neither a status nor the history. */
  lemma {:induction false} QuietKeeps(s: Sys, s': Sys, id: int, a: Advert)
    requires Inv(s) && id in s.adverts && a.status == s.adverts[id].status
    requires s' == s.(adverts := s.adverts[id := a], writes := s'.writes)
    requires VersionsOk(s'.adverts, s'.serial, |s'.moves|, s'.writes)
    ensures Inv(s')
  {
    hide VersionsOk, LogState, IsTrace, IsLog, RowsOf;
    forall x
      ensures TraceOf(s', x) == TraceOf(s, x)
    {
    }
    forall p
      ensures OwedByTransaction(s', p) <==> OwedByTransaction(s, p)
    {
    }
  }

  lemma {:induction false} BirthTrace(row: Row)
    requires row.from.None? && row.to == Draft && row.actor.Owner?
    ensures IsTrace([Move(row, false)]) && Faithful(Rows([Move(row, false)]), Draft)
    ensures OneOpen([Move(row, false)])
  {
  }

  lemma {:induction false} CreateKeepsLogs(s: Sys, id: int, a: Advert, row: Row)
    requires TracesOk(s) && LogsOk(s) && Enabled(s, Create(id, a, row))
    ensures LogsOk(Apply(s, Create(id, a, row)))
  {
    BirthTrace(row);
    hide IsTrace, LogState, Faithful, OneOpen, RowsOf;
    var s' := Apply(s, Create(id, a, row));
    forall x
      ensures LogState(TraceOf(s', x), RowsOf(s'.history, x), x in s'.disturbed)
    {
      assert LogState(TraceOf(s, x), RowsOf(s.history, x), x in s.disturbed);
      if x == id {
        assert TraceOf(s, id) == [] && TraceOf(s', id) == [Move(row, false)] == [] + [Move(row, false)];
        RecordKeepsLog([], row, RowsOf(s.history, id), id in s.disturbed);
      } else {
        assert TraceOf(s', x) == TraceOf(s, x);
      }
    }
  }

  lemma {:induction false} CreateKeepsOpen(s: Sys, id: int, a: Advert, row: Row)
    requires OpenOk(s) && Enabled(s, Create(id, a, row))
    ensures OpenOk(Apply(s, Create(id, a, row)))
  {
    var s' := Apply(s, Create(id, a, row));
    forall p | OwedByTransaction(s', p)
      ensures s'.open == Some(p)
    {
      assert p.serial < |s.moves| ==> OwedByTransaction(s, p);
    }
  }

  lemma {:induction false} CreateKeeps(s: Sys, id: int, a: Advert, row: Row)
    requires Inv(s) && Enabled(s, Create(id, a, row))
    ensures Inv(Apply(s, Create(id, a, row)))
  {
    BirthKeepsVersions(s.adverts, s.serial, |s.moves|, s.writes, id, a);
    CreateKeepsLogs(s, id, a, row);
    CreateKeepsOpen(s, id, a, row);
    BirthTrace(row);
    hide VersionsOk, IsTrace, LogsOk, OpenOk, Faithful;
  }

  lemma {:induction false} SerialsDiffer(s: Sys)
    requires VersionsOk(s.adverts, s.serial, |s.moves|, s.writes)
    ensures forall x, y :: Stored(s, x) && Stored(s, y) && s.serial[x] == s.serial[y] ==> x == y
  {
  }

  /** A status write: the versions, the trace and the log of the advert move on, the others stay. */
  lemma {:induction false} MoveKeeps(s: Sys, id: int, a: Advert, row: Row, s': Sys)
    requires Inv(s) && id in s.adverts && a.version == s.adverts[id].version + 1
    requires row.advert == id && row.from == Some(s.adverts[id].status) && row.to == a.status
    requires Allowed(row.actor, s.adverts[id].status, a.status)
    requires row.actor != System ==> s.open.None?
    requires s' == Record(Put(s, id, a), id, row).(
             open := if row.actor == System then s.open else Some(NextPlace(s, id)))
    ensures Inv(s')
  {
    MoveKeepsOpen(s, id, a, row, s');
    WriteKeepsVersions(s.adverts, s.serial, |s.moves|, s.writes, id, a);
    SerialsDiffer(s);
    hide VersionsOk, LogState, IsLog;
    RecordTrace(s.moves[s.serial[id]], row);
    assert TracesOk(s') by { hide OpenOk; }
    MoveKeepsLogs(s, id, row, s');
  }

  lemma {:induction false} MoveKeepsLogs(s: Sys, id: int, row: Row, s': Sys)
    requires LogsOk(s) && Stored(s, id) && OpenOk(s') && TracesOk(s') && s.moves[s.serial[id]] != []
    requires forall x, y :: Stored(s, x) && Stored(s, y) && s.serial[x] == s.serial[y] ==> x == y
    requires id in s'.adverts && s'.adverts.Keys == s.adverts.Keys && s'.serial == s.serial
    requires s'.moves == s.moves[s.serial[id] := s.moves[s.serial[id]] + [Move(row, false)]]
    requires s'.history == s.history && s'.disturbed == s.disturbed
    ensures LogsOk(s')
  {
    hide LogState, IsTrace, Faithful, RowsOf;
    var n := s.serial[id];
    var m' := s'.moves[n];
    forall i, j | 0 <= i < |m'| && 0 <= j < |m'| && Unlogged(m'[i]) && Unlogged(m'[j])
      ensures i == j
    {
      assert OwedByTransaction(s', Place(n, i)) && OwedByTransaction(s', Place(n, j));
    }
    forall x
      ensures LogState(TraceOf(s', x), RowsOf(s'.history, x), x in s'.disturbed)
    {
      assert LogState(TraceOf(s, x), RowsOf(s.history, x), x in s.disturbed);
      if x == id {
        RecordKeepsLog(s.moves[n], row, RowsOf(s.history, id), id in s.disturbed);
      } else {
        assert TraceOf(s', x) == TraceOf(s, x);
      }
    }
  }

  lemma {:induction false} MoveKeepsOpen(s: Sys, id: int, a: Advert, row: Row, s': Sys)
    requires Inv(s) && id in s.adverts && row.advert == id && (row.actor != System ==> s.open.None?)
    requires s' == Record(Put(s, id, a), id, row).(
             open := if row.actor == System then s.open else Some(NextPlace(s, id)))
    ensures OpenOk(s')
  {
    var last := NextPlace(s, id);
    forall p | OwedByTransaction(s', p)
      ensures s'.open == Some(p)
    {
      assert p != last ==> OwedByTransaction(s, p);
    }
  }

  /** A history row is inserted, by whichever of the transaction and the worker. */
  lemma {:induction false} InsertKeeps(s: Sys, p: Place, s': Sys)
    requires Inv(s) && InRange(s, p) && !s.moves[p.serial][p.pos].logged
    requires s.moves[p.serial][p.pos].row.actor != System ==> s.open == Some(p)
    requires s' == Insert(s, p).(open := if s.open == Some(p) then None else s.open)
    ensures Inv(s')
  {
    InsertKeepsTraces(s, p, s');
    InsertKeepsLogs(s, p, s');
    InsertKeepsOpen(s, p, s');
    hide VersionsOk, LogsOk, TracesOk, OpenOk;
  }

  lemma {:induction false} InsertKeepsTraces(s: Sys, p: Place, s': Sys)
    requires TracesOk(s) && InRange(s, p) && s' == Insert(s, p).(open := s'.open)
    ensures TracesOk(s')
  {
    hide IsLog;
    MarkTrace(s.moves[p.serial], p.pos);
  }

  lemma {:induction false} InsertKeepsOpen(s: Sys, p: Place, s': Sys)
    requires OpenOk(s) && InRange(s, p) && !s.moves[p.serial][p.pos].logged
    requires s' == Insert(s, p).(open := if s.open == Some(p) then None else s.open)
    ensures OpenOk(s')
  {
    forall q | OwedByTransaction(s', q)
      ensures s'.open == Some(q)
    {
      assert q != p && OwedByTransaction(s, q);
    }
  }

  lemma {:induction false} InsertKeepsLogs(s: Sys, p: Place, s': Sys)
    requires TracesOk(s) && LogsOk(s) && InRange(s, p) && !s.moves[p.serial][p.pos].logged
    requires s.moves[p.serial][p.pos].row.actor != System ==>
               var id := s.moves[p.serial][p.pos].row.advert; Stored(s, id) && s.serial[id] == p.serial
    requires s' == Insert(s, p).(open := s'.open)
    ensures LogsOk(s')
  {
    hide LogState, IsTrace, Faithful, RowsOf;
    var m := s.moves[p.serial];
    var row := m[p.pos].row;
    forall x
      ensures LogState(TraceOf(s', x), RowsOf(s'.history, x), x in s'.disturbed)
    {
      RowsOfAppend(s.history, row, x);
      assert LogState(TraceOf(s, x), RowsOf(s.history, x), x in s.disturbed);
      if x != row.advert {
        InsertElsewhere(s, p, x);
        assert RowsOf(s.history, x) + [] == RowsOf(s.history, x);
      } else if Stored(s, x) && s.serial[x] == p.serial {
        InsertKeepsLog(m, p.pos, RowsOf(s.history, x), x in s.disturbed);
      } else {
        assert TraceOf(s', x) == TraceOf(s, x);
        WorkerRows(m);
        OrphanBreaks(TraceOf(s, x), row, RowsOf(s.history, x), x in s.disturbed);
      }
    }
  }

  lemma {:induction false} InsertElsewhere(s: Sys, p: Place, x: int)
    requires TracesOk(s) && InRange(s, p) && x != s.moves[p.serial][p.pos].row.advert
    ensures TraceOf(Insert(s, p), x) == TraceOf(s, x)
  {
  }

  lemma {:induction false} DeleteKeepsLogs(s: Sys, id: int)
    requires LogsOk(s) && Enabled(s, Delete(id))
    ensures LogsOk(Apply(s, Delete(id)))
  {
    hide RowsOf, Purged, Net, NetLogged, Broken;
    var s' := Apply(s, Delete(id));
    forall x
      ensures LogState(TraceOf(s', x), RowsOf(s'.history, x), x in s'.disturbed)
    {
      PurgedRows(s.history, id, x);
      assert LogState(TraceOf(s, x), RowsOf(s.history, x), x in s.disturbed);
      if x != id {
        hide LogState;
        assert TraceOf(s', x) == TraceOf(s, x);
      }
    }
  }

  lemma {:induction false} DeleteKeeps(s: Sys, id: int)
    requires Inv(s) && Enabled(s, Delete(id))
    ensures Inv(Apply(s, Delete(id)))
  {
    var s' := Apply(s, Delete(id));
    DeathKeepsVersions(s.adverts, s.serial, |s.moves|, s.writes, id);
    DeleteKeepsLogs(s, id);
    hide VersionsOk, LogsOk, IsTrace, Faithful, Purged;
    forall p
      ensures OwedByTransaction(s', p) <==> OwedByTransaction(s, p)
    {
    }
  }

  lemma {:induction false} ListKeeps(s: Sys, cutoff: Time)
    requires Inv(s)
    ensures Inv(Apply(s, List(cutoff)))
  {
    hide VersionsOk, LogState, IsTrace, Faithful, RowsOf, DueRows;
    var s' := Apply(s, List(cutoff));
    forall x
      ensures TraceOf(s', x) == TraceOf(s, x)
    {
    }
    forall p
      ensures OwedByTransaction(s', p) <==> OwedByTransaction(s, p)
    {
    }
  }

  lemma {:induction false} StampKeepsVersions(s: Sys, id: int, at: Time)
    requires VersionsOk(s.adverts, s.serial, |s.moves|, s.writes) && id in s.adverts
    ensures VersionsOk(s.adverts[id := s.adverts[id].(soldAt := Some(at))], s.serial, |s.moves|, s.writes)
  {
  }

  lemma {:induction false} StepKeepsInv(s: Sys, e: Step)
    requires Inv(s)
    ensures Inv(Apply(s, e))
  {
    hide VersionsOk, TracesOk, LogsOk;
    if Enabled(s, e) {
      match e
      case Create(id, a, row) => CreateKeeps(s, id, a, row);
      case Edit(_, id, _, a) =>
        WriteKeepsVersions(s.adverts, s.serial, |s.moves|, s.writes, id, a);
        QuietKeeps(s, Apply(s, e), id, a);
      case Transition(id, _, a, row) => MoveKeeps(s, id, a, row, Apply(s, e));
      case LogTransition => InsertKeeps(s, s.open.value, Apply(s, e));
      case Delete(id) => DeleteKeeps(s, id);
      case Stamp(id, at) =>
        StampKeepsVersions(s, id, at);
        QuietKeeps(s, Apply(s, e), id, s.adverts[id].(soldAt := Some(at)));
      case List(cutoff) => ListKeeps(s, cutoff);
      case ArchiveWrite(id, _, now) =>
        MoveKeeps(s, id, Archive(s.adverts[id], now), AutoArchiveRow(id, now), Apply(s, e));
      case ArchiveLog(p) => InsertKeeps(s, p, Apply(s, e));
    }
  }
}
