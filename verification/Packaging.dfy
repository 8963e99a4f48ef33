/** The packaging store and use cases. Transactions are serialized, but a package may be read,
    and packages deleted, outside them; and a rollback undoes nothing. */
module Packaging {
  import opened Basics
  import opened Entitlements
  import opened EntitlementLaws

  datatype User = User(admin: bool, active: bool)

  datatype Advert = Advert(owner: Id, status: AdvertStatus, deleted: bool)

  datatype PackagePatch = PackagePatch(
    allowsUrgent: Option<bool>, isActive: Option<bool>, broadcastOnPublish: Option<bool>,
    defaultDays: Option<Option<int>>, sortOrder: Option<int>)

  ghost predicate PackagesOk(packages: map<Id, Package>) {
    && (forall id :: id in packages ==> packages[id].id == id)
    && (forall x, y :: x in packages && y in packages && packages[x].code == packages[y].code ==> x == y)
  }

  predicate CodeChar(c: char) {
    'A' <= c <= 'Z' || '0' <= c <= '9'
  }

  /** Upper-case letters and digits, with '_' and '-' after the first, 2 to 64 in all. */
  predicate ValidCode(code: string) {
    2 <= |code| <= 64 && CodeChar(code[0]) && forall i :: 0 <= i < |code| ==>
        CodeChar(code[i]) || code[i] == '_' || code[i] == '-'
  }

  /** Codes the catalog accepts and refuses. */
  lemma {:induction false} SomeCodes(n: nat)
    ensures ValidCode("VIP") && ValidCode("A1") && ValidCode("GOLD_30") && ValidCode("9-X")
    ensures !ValidCode("") && !ValidCode("A") && !ValidCode("vip") && !ValidCode("_A") && !ValidCode("A B")
    ensures ValidCode(seq(n, i => 'A')) <==> 2 <= n <= 64
  {
    assert "vip"[0] == 'v' && "_A"[0] == '_' && "A B"[1] == ' ';
  }

  ghost predicate UsedBy(assignments: map<Id, Assignment>, pkg: Id) {
    exists id :: id in assignments && assignments[id].pkg == pkg
  }

  function RequireAdmin(users: map<Id, User>, actor: Id): Result<()> {
    if actor !in users then Err(NotFound)
    else if !users[actor].admin || !users[actor].active then Err(Forbidden)
    else Ok(())
  }

  function FindAdvert(adverts: map<int, Advert>, advert: int): Result<Advert> {
    if advert !in adverts || adverts[advert].deleted then Err(NotFound) else Ok(adverts[advert])
  }

  /** What stops an assignment once its package is known. */
  function AssignGuard(adverts: map<int, Advert>, users: map<Id, User>, req: Request): Result<Advert> {
    var advert := FindAdvert(adverts, req.advert);
    if advert.Err? then advert
    else if advert.value.status == Sold then Err(InvalidState)
    else if req.source == AdminSource then advert
    else if advert.value.owner != req.actor then Err(Forbidden)
    else if req.actor !in users then Err(NotFound)
    else if !users[req.actor].active then Err(Forbidden)
    else advert
  }

  /** Who may have a package assigned: anybody's advert that is not sold by an administrator's request,
      and otherwise the owner's own by an active owner. */
  ghost predicate MayBeAssigned(adverts: map<int, Advert>, users: map<Id, User>, req: Request) {
    && req.advert in adverts && !adverts[req.advert].deleted && adverts[req.advert].status != Sold
    && (req.source != AdminSource ==>
          adverts[req.advert].owner == req.actor && req.actor in users && users[req.actor].active)
  }

  /** Active administrators, and nobody else, administer packages. */
  ghost predicate Administers(users: map<Id, User>, actor: Id) {
    actor in users && users[actor].admin && users[actor].active
  }

  /** An advert's urgent is managed by active administrators and by its active owner. */
  ghost predicate ManagesUrgent(adverts: map<int, Advert>, users: map<Id, User>, actor: Id, advert: int) {
    && actor in users && users[actor].active && advert in adverts && !adverts[advert].deleted
    && (users[actor].admin || adverts[advert].owner == actor)
  }

  function CanManageUrgent(actorId: Id, actor: User, advert: Advert): bool {
    actor.active && (actor.admin || advert.owner == actorId)
  }

  function UrgentGuard(adverts: map<int, Advert>, actorId: Id, actor: User, advertId: int): Result<Advert> {
    var advert := FindAdvert(adverts, advertId);
    if advert.Err? then advert
    else if !CanManageUrgent(actorId, actor, advert.value) then Err(Forbidden)
    else if !StatusAllowsUrgent(advert.value.status) then Err(InvalidState)
    else advert
  }

  function Patched(p: Package, patch: PackagePatch): Result<Package> {
    if patch.defaultDays.Some? && patch.defaultDays.value.Some? && patch.defaultDays.value.value <= 0 then
      Err(Validation)
    else if patch.sortOrder.Some? && patch.sortOrder.value < 0 then Err(Validation)
    else Ok(p.(
        allowsUrgent := if patch.allowsUrgent.Some? then patch.allowsUrgent.value else p.allowsUrgent,
        isActive := if patch.isActive.Some? then patch.isActive.value else p.isActive,
        broadcastOnPublish := if patch.broadcastOnPublish.Some? then patch.broadcastOnPublish.value
            else p.broadcastOnPublish,
        defaultDays := if patch.defaultDays.Some? then patch.defaultDays.value else p.defaultDays,
        sortOrder := if patch.sortOrder.Some? then patch.sortOrder.value else p.sortOrder))
  }

  /** The assignment an admin gets for an advert that has none: the first active package listed. */
  function DefaultAssignment(pkg: Package, actor: Id, advert: int, now: Time, id: Id): Assignment {
    Assignment(id, advert, pkg.id, ActiveAssignment, now, None, actor, now, None, None, AdminSource, 1, now)
  }

  /** The saved package is the one found, with the fields the patch names replaced and the next version. */
  ghost predicate IsPatched(p: Package, patch: PackagePatch, saved: Package) {
    && saved.id == p.id && saved.code == p.code && saved.featuredDays == p.featuredDays
    && saved.version == p.version + 1
    && (patch.allowsUrgent.Some? ==> saved.allowsUrgent == patch.allowsUrgent.value)
    && (patch.allowsUrgent.None? ==> saved.allowsUrgent == p.allowsUrgent)
    && (patch.isActive.Some? ==> saved.isActive == patch.isActive.value)
    && (patch.isActive.None? ==> saved.isActive == p.isActive)
    && (patch.broadcastOnPublish.Some? ==> saved.broadcastOnPublish == patch.broadcastOnPublish.value)
    && (patch.broadcastOnPublish.None? ==> saved.broadcastOnPublish == p.broadcastOnPublish)
    && (patch.defaultDays.Some? ==>
          saved.defaultDays == patch.defaultDays.value && (saved.defaultDays.Some? ==> saved.defaultDays.value > 0))
    && (patch.defaultDays.None? ==> saved.defaultDays == p.defaultDays)
    && (patch.sortOrder.Some? ==> saved.sortOrder == patch.sortOrder.value && saved.sortOrder >= 0)
    && (patch.sortOrder.None? ==> saved.sortOrder == p.sortOrder)
  }

  lemma {:induction false} PatchFits(p: Package, patch: PackagePatch)
    requires patch.defaultDays.Some? && patch.defaultDays.value.Some? ==> patch.defaultDays.value.value >= 1
    requires patch.sortOrder.Some? ==> patch.sortOrder.value >= 0
    ensures Patched(p, patch).Ok?
  {
  }

  lemma {:induction false} PatchedIs(p: Package, patch: PackagePatch, saved: Package)
    requires Patched(p, patch).Ok? && saved == Patched(p, patch).value.(version := p.version + 1)
    ensures IsPatched(p, patch, saved)
  {
  }

  /** An assignment by which the owner can have urgent: active, running, and of a package that allows it. */
  ghost predicate Entitles(
    assignments: map<Id, Assignment>, packages: map<Id, Package>, c: Id, advert: int, now: Time)
  {
    && c in assignments && assignments[c].advert == advert && assignments[c].status == ActiveAssignment
    && InForceAt(assignments[c].startsAt, assignments[c].endsAt, now)
    && assignments[c].pkg in packages && packages[assignments[c].pkg].allowsUrgent
  }

  /** The assignment an administrator's call makes when the advert has none: the first active package of the
      listing, from now on and without end. */
  ghost predicate IsDefault(
    assignments: map<Id, Assignment>, id: Id, actor: Id, advert: int, listed: seq<Package>, now: Time)
  {
    && id in assignments
    && var a := assignments[id];
    && a.advert == advert && a.status == ActiveAssignment && a.startsAt == now && a.endsAt == None
    && a.assignedBy == actor && a.assignedAt == now && a.source == AdminSource
    && exists i :: FirstActive(listed, i) && a.pkg == listed[i].id
  }

  lemma {:induction false} DefaultMeans(
    e: Ent, packages: map<Id, Package>, actorId: Id, advert: int, now: Time, listed: seq<Package>, newId: Id)
    ensures forall a, actor ::
              Entitled(e, packages, actorId, actor, advert, listed, now, newId, a) && !HasActive(e, advert) ==>
                actor.admin && IsDefault(Open(e, a).assignments, newId, actorId, advert, listed, now)
  {
  }

  lemma {:induction false} EntitlesMeans(
    e: Ent, packages: map<Id, Package>, actorId: Id, advert: int, now: Time, listed: seq<Package>, newId: Id)
    ensures (exists c :: Entitles(e.assignments, packages, c, advert, now)) ==>
              forall actor :: CanEntitle(e, packages, actorId, actor, advert, listed, now, newId)
  {
    if c :| Entitles(e.assignments, packages, c, advert, now) {
      forall actor
        ensures CanEntitle(e, packages, actorId, actor, advert, listed, now, newId)
      {
        assert ActiveFor(e.assignments, c, advert);
        assert Entitled(e, packages, actorId, actor, advert, listed, now, newId, e.assignments[c]);
      }
    }
  }

  ghost predicate FirstActive(listed: seq<Package>, i: int) {
    0 <= i < |listed| && listed[i].isActive && forall j :: 0 <= j < i ==> !listed[j].isActive
  }

  /** a is the assignment an urgent activation may hang on: the current one when the actor may use
      it, or for an admin a new default one when there is none. */
  ghost predicate Entitled(
    e: Ent, packages: map<Id, Package>, actorId: Id, actor: User, advert: int, listed: seq<Package>,
    now: Time, newId: Id, a: Assignment)
  {
    || (exists c :: ActiveFor(e.assignments, c, advert) && a == e.assignments[c]
                    && a.pkg in packages
                    && (actor.admin || (AssignmentEffective(a, now) && packages[a.pkg].allowsUrgent)))
    || (!HasActive(e, advert) && actor.admin
        && exists i :: FirstActive(listed, i) && a == DefaultAssignment(listed[i], actorId, advert, now, newId))
  }

  /** The package an administrator's default is taken from has not been deleted since it was listed. */
  ghost predicate DefaultStillThere(packages: map<Id, Package>, listed: seq<Package>) {
    exists i :: FirstActive(listed, i) && listed[i].id in packages
  }

  /** Hanging urgent on an assignment leaves every assignment with its package exactly when the advert
      had an assignment already, or the default package is still there. */
  lemma {:induction false} EntitledPackageExists(
    e: Ent, packages: map<Id, Package>, actorId: Id, actor: User, advert: int, listed: seq<Package>,
    now: Time, newId: Id, a: Assignment)
    requires Entitled(e, packages, actorId, actor, advert, listed, now, newId, a) && newId !in e.assignments
    requires Coherent(e)
    ensures PackagesExist(e.assignments, packages.Keys) ==>
              (PackagesExist(Open(e, a).assignments, packages.Keys) <==>
               HasActive(e, advert) || DefaultStillThere(packages, listed))
  {
    if HasActive(e, advert) {
      assert Open(e, a).assignments == e.assignments;
    } else {
      assert Open(e, a).assignments[newId] == a;
      assert forall i, j :: FirstActive(listed, i) && FirstActive(listed, j) ==> i == j;
    }
  }

  ghost predicate CanEntitle(
    e: Ent, packages: map<Id, Package>, actorId: Id, actor: User, advert: int, listed: seq<Package>, now: Time,
        newId: Id)
  {
    exists a :: Entitled(e, packages, actorId, actor, advert, listed, now, newId, a)
  }

  /** e' is e with the request carried out on whatever assignment is current; the call fails exactly
      when a broadcast for a new assignment of a published advert does. */
  ghost predicate AssignDone(
    e: Ent, req: Request, pkg: Package, status: AdvertStatus, now: Time, ids: NewIds, notifyFails: bool,
    e': Ent, failed: bool)
  {
    exists current ::
      && IsCurrent(e, req.advert, current) && e' == Assigned(e, current, req, pkg, status, now, ids)
      && (failed <==> IsNew(e, current, req, pkg, now) && pkg.broadcastOnPublish && status == Published && notifyFails)
  }

  predicate IsNew(e: Ent, current: Option<Id>, req: Request, pkg: Package, now: Time) {
    current.Some? && current.value in e.assignments ==> !AlreadyAssigned(e.assignments[current.value], req, pkg, now)
  }

  class PackagingStore {
    var packages: map<Id, Package>
    var assignments: map<Id, Assignment>
    var features: map<Id, Activation>
    var adverts: map<int, Advert>
    var users: map<Id, User>
    /** Every activation ever created, in order. */
    ghost var log: seq<Created>

    ghost function State(): Ent
      reads this`assignments, this`features, this`log
    {
      Ent(assignments, features, log)
    }

    /** What every interleaving keeps. */
    ghost predicate Core()
      reads this
    {
      Coherent(State()) && PackagesOk(packages) && WindowsOk(assignments, features)
    }

    /** What holds as long as no package disappears between its read and its use. */
    ghost predicate Valid()
      reads this
    {
      Core() && PackagesExist(assignments, packages.Keys)
    }

    constructor (adverts: map<int, Advert>, users: map<Id, User>)
      ensures Valid() && State() == Ent(map[], map[], []) && packages == map[]
      ensures this.adverts == adverts && this.users == users
    {
      packages, assignments, features, log := map[], map[], map[], [];
      this.adverts, this.users := adverts, users;
    }

    // -------------------------------------------------------------- repository: packages

    method FindByCode(code: string) returns (r: Result<Package>)
      ensures r.Ok? ==> r.value in packages.Values && r.value.code == code
      ensures r.Err? ==> r == Err(NotFound) && forall id :: id in packages ==> packages[id].code != code
    {
      var todo := packages.Keys;
      while todo != {}
        invariant todo <= packages.Keys
        invariant forall id :: id in packages && id !in todo ==> packages[id].code != code
        decreases todo
      {
        var id :| id in todo;
        if packages[id].code == code {
          return Ok(packages[id]);
        }
        todo := todo - {id};
      }
      return Err(NotFound);
    }

    method CreatePackage(p: Package) returns (r: Result<()>)
      modifies this`packages
      ensures PackagesOk(old(packages)) ==> PackagesOk(packages)
      ensures r.Ok? <==> forall id :: id in old(packages) ==>
                old(packages)[id].code != p.code && old(packages)[id].id != p.id
      ensures packages == if r.Ok? then old(packages)[p.id := p] else old(packages)
    {
      var todo := packages.Keys;
      while todo != {}
        invariant todo <= packages.Keys && packages == old(packages)
        invariant forall id :: id in packages && id !in todo ==> packages[id].code != p.code && packages[id].id != p.id
        decreases todo
      {
        var id :| id in todo;
        if packages[id].code == p.code {
          return Err(Conflict);
        }
        if packages[id].id == p.id {
          return Err(Conflict);
        }
        todo := todo - {id};
      }
      packages := packages[p.id := p];
      return Ok(());
    }

    method UpdateOptimistic(p: Package, expectedVersion: int) returns (r: Result<Package>)
      modifies this`packages
      ensures r == if p.id !in old(packages) then Err(NotFound)
                   else if old(packages)[p.id].version != expectedVersion then Err(StaleVersion)
                   else Ok(p.(version := expectedVersion + 1))
      ensures packages == if r.Ok? then old(packages)[p.id := r.value] else old(packages)
    {
      if p.id !in packages {
        return Err(NotFound);
      }
      if packages[p.id].version != expectedVersion {
        return Err(StaleVersion);
      }
      var saved := p.(version := packages[p.id].version + 1);
      packages := packages[p.id := saved];
      return Ok(saved);
    }

    method Referenced(pkg: Id) returns (found: bool)
      ensures found <==> UsedBy(assignments, pkg)
    {
      var todo := assignments.Keys;
      while todo != {}
        invariant todo <= assignments.Keys
        invariant forall id :: id in assignments && id !in todo ==> assignments[id].pkg != pkg
        decreases todo
      {
        var id :| id in todo;
        if assignments[id].pkg == pkg {
          return true;
        }
        todo := todo - {id};
      }
      return false;
    }

    method DeleteByCode(code: string) returns (r: Result<()>)
      requires PackagesOk(packages)
      modifies this`packages
      ensures PackagesOk(packages)
      ensures PackagesExist(assignments, old(packages).Keys) ==> PackagesExist(assignments, packages.Keys)
      ensures r.Err? ==> packages == old(packages)
      ensures r == Err(NotFound) <==> forall id :: id in old(packages) ==> old(packages)[id].code != code
      ensures r.Err? && r.error != NotFound ==> r == Err(Conflict)
      ensures forall id :: id in old(packages) && old(packages)[id].code == code ==>
                             if r.Ok? then packages == old(packages) - {id} && !UsedBy(assignments, id)
                             else UsedBy(assignments, id)
    {
      var todo := packages.Keys;
      while todo != {}
        invariant todo <= packages.Keys && packages == old(packages)
        invariant forall id :: id in packages && id !in todo ==> packages[id].code != code
        decreases todo
      {
        var id :| id in todo;
        if packages[id].code == code {
          var used := Referenced(id);
          if used {
            return Err(Conflict);
          }
          packages := packages - {id};
          return Ok(());
        }
        todo := todo - {id};
      }
      return Err(NotFound);
    }

    // -------------------------------------------------------------- repository: assignments

    method FindActive(advert: int) returns (current: Option<Id>)
      ensures IsCurrent(State(), advert, current)
    {
      var todo := assignments.Keys;
      while todo != {}
        invariant todo <= assignments.Keys
        invariant forall id :: id in assignments && id !in todo ==> !ActiveFor(assignments, id, advert)
        decreases todo
      {
        var id :| id in todo;
        if assignments[id].advert == advert && assignments[id].status == ActiveAssignment {
          return Some(id);
        }
        todo := todo - {id};
      }
      return None;
    }

    method CreateAssignment(a: Assignment) returns (r: Result<()>)
      requires a.status == ActiveAssignment
      modifies this`assignments
      ensures r == if HasActive(old(State()), a.advert) then Err(Conflict) else Ok(())
      ensures State() == if r.Ok? then Open(old(State()), a) else old(State())
    {
      var existing := FindActive(a.advert);
      if existing.Some? {
        return Err(Conflict);
      }
      assignments := assignments[a.id := a];
      return Ok(());
    }

    method MarkSuperseded(id: Id, now: Time) returns (r: Result<()>)
      modifies this`assignments
      ensures r == if id in old(assignments) then Ok(()) else Err(NotFound)
      ensures id in old(assignments) ==> State() == Close(old(State()), id, Superseded, now, None)
      ensures r.Err? ==> State() == old(State())
    {
      if id !in assignments {
        return Err(NotFound);
      }
      var a := assignments[id];
      assignments := assignments[id := a.(status := Superseded, closedAt := Some(now), updatedAt := now,
      version := a.version + 1)];
      return Ok(());
    }

    method MarkCancelled(id: Id, now: Time, reason: Option<string>) returns (r: Result<()>)
      modifies this`assignments
      ensures r == if id in old(assignments) && old(assignments)[id].status == ActiveAssignment then Ok(())
                   else Err(NotFound)
      ensures id in old(assignments) && r.Ok? ==> State() == Close(old(State()), id, Cancelled, now, reason)
      ensures r.Err? ==> State() == old(State())
    {
      if id !in assignments || assignments[id].status != ActiveAssignment {
        return Err(NotFound);
      }
      var a := assignments[id];
      assignments := assignments[id := a.(status := Cancelled, closedAt := Some(now), updatedAt := now,
      reason := if reason.Some? then reason else a.reason, version := a.version + 1)];
      return Ok(());
    }

    // -------------------------------------------------------------- repository: activations

    method FindLive(advert: int, feature: Feature) returns (found: Option<Id>)
      ensures found.Some? ==> Live(features, found.value, advert, feature)
      ensures found.None? ==> !HasLive(State(), advert, feature)
    {
      var todo := features.Keys;
      while todo != {}
        invariant todo <= features.Keys
        invariant forall id :: id in features && id !in todo ==> !Live(features, id, advert, feature)
        decreases todo
      {
        var id :| id in todo;
        if features[id].advert == advert && features[id].feature == feature && features[id].active {
          return Some(id);
        }
        todo := todo - {id};
      }
      return None;
    }

    /** The largest number in use; by the invariant, how many were ever created. */
    method FindLatestNumber(advert: int, feature: Feature) returns (latest: nat)
      requires Numbered(features, log)
      ensures latest == Total(log, advert, feature)
    {
      latest := 0;
      var todo := features.Keys;
      while todo != {}
        invariant todo <= features.Keys
        invariant latest == 0 || NumberUsed(features, advert, feature, latest)
        invariant forall id :: id in features && id !in todo
                               && features[id].advert == advert && features[id].feature == feature ==>
                                 features[id].number <= latest
        decreases todo
      {
        var id :| id in todo;
        if features[id].advert == advert && features[id].feature == feature && features[id].number > latest {
          latest := features[id].number;
        }
        todo := todo - {id};
      }
      LargestNumberIsTotal(features, log, advert, feature, latest);
    }

    method CreateActivation(g: Grant, number: int, now: Time, id: Id) returns (r: Result<()>)
      requires number == Total(log, g.advert, g.feature) + 1
      modifies this`features, this`log
      ensures r == if HasLive(old(State()), g.advert, g.feature) then Err(Conflict) else Ok(())
      ensures State() == if r.Ok? then Create(old(State()), g, now, id) else old(State())
    {
      var existing := FindLive(g.advert, g.feature);
      if existing.Some? {
        return Err(Conflict);
      }
      features := features[id := NewActivation(g, number, now, id)];
      log := log + [Created(id, g.advert, g.feature)];
      return Ok(());
    }

    method DeactivateActive(advert: int, feature: Feature, now: Time, reason: Option<string>) returns (did: bool)
      requires OneLive(features)
      modifies this`features
      ensures did <==> HasLive(old(State()), advert, feature)
      ensures features == DropOne(old(features), advert, feature, now, reason)
    {
      var found := FindLive(advert, feature);
      if found.None? {
        assert features == DropOne(features, advert, feature, now, reason);
        return false;
      }
      features := features[found.value := Deactivated(features[found.value], now, reason)];
      assert features == DropOne(old(features), advert, feature, now, reason);
      return true;
    }

    method CollectActiveOf(pkg: Id) returns (ids: set<Id>)
      ensures forall id :: id in ids <==> id in assignments && assignments[id].pkg == pkg
                                          && assignments[id].status == ActiveAssignment
    {
      ids := {};
      var todo := assignments.Keys;
      while todo != {}
        invariant todo <= assignments.Keys
        invariant forall id :: id in ids <==> id in assignments && id !in todo && assignments[id].pkg == pkg
                                              && assignments[id].status == ActiveAssignment
        decreases todo
      {
        var id :| id in todo;
        if assignments[id].pkg == pkg && assignments[id].status == ActiveAssignment {
          ids := ids + {id};
        }
        todo := todo - {id};
      }
    }

    method DeactivateActiveUrgentForPackage(pkg: Id, now: Time)
      modifies this`features
      ensures features == DropUrgent(assignments, old(features), pkg, now)
    {
      var active := CollectActiveOf(pkg);
      ghost var was := features;
      ghost var goal := DropUrgent(assignments, was, pkg, now);
      var todo := features.Keys;
      while todo != {}
        invariant features.Keys == was.Keys && todo <= was.Keys
        invariant forall id :: id in was ==> features[id] == if id in todo then was[id] else goal[id]
        decreases todo
      {
        var id :| id in todo;
        todo := todo - {id};
        var f := features[id];
        if f.feature != Urgent {
          continue;
        }
        if !f.active {
          continue;
        }
        if f.assignment !in active {
          continue;
        }
        features := features[id := Deactivated(f, now, Some(URGENT_DISABLED))];
      }
      assert features == goal;
    }

    // -------------------------------------------------------------- use cases

    /** Neither assignments nor activations changed. */
    twostate predicate Untouched()
      reads this
    {
      State() == old(State())
    }

    method EnsureFeature(g: Grant, now: Time, id: Id)
      requires Coherent(State()) && id !in features && ActiveFor(assignments, g.assignment, g.advert)
      modifies this`features, this`log
      ensures State() == Ensure(old(State()), g, now, id) && Coherent(State())
    {
      ghost var was := State();
      EnsureKeeps(was, g, now, id);
      var existing := FindLive(g.advert, g.feature);
      if existing.Some? {
        if ActivationEffective(features[existing.value], now) {
          return;
        }
        NotEffective(was, g.advert, g.feature, existing.value, now);
        var _ := DeactivateActive(g.advert, g.feature, now, Some(PACKAGE_LOSS));
        DropOneKeeps(was, g.advert, g.feature, now, Some(PACKAGE_LOSS));
      } else {
        DropNothing(was, g.advert, g.feature, now, Some(PACKAGE_LOSS));
      }
      var latest := FindLatestNumber(g.advert, g.feature);
      var created := CreateActivation(g, latest + 1, now, id);
      assert created == Ok(());
    }

    method ApplyPackageFeatures(a: Assignment, pkg: Package, status: AdvertStatus, actor: Id, now: Time, ids: NewIds)
      requires Coherent(State()) && ActiveFor(assignments, a.id, a.advert)
      requires ids.urgent !in features && ids.featured !in features && ids.urgent != ids.featured
      modifies this`features, this`log
      ensures State() == Apply(old(State()), a, pkg, status, actor, now, ids) && Coherent(State())
    {
      hide Coherent, Ensure;
      if !AssignmentEffective(a, now) {
        return;
      }
      if pkg.allowsUrgent && StatusAllowsUrgent(status) {
        EnsureOnlyAdds(State(), UrgentGrant(a, actor), now, ids.urgent, ids.featured);
        EnsureFeature(Grant(a.advert, a.id, Urgent, actor, None), now, ids.urgent);
      }
      if pkg.featuredDays.Some? && pkg.featuredDays.value > 0 {
        var ends := AddDays(now, pkg.featuredDays.value);
        if a.endsAt.Some? && ends > a.endsAt.value {
          ends := a.endsAt.value;
        }
        EnsureFeature(Grant(a.advert, a.id, Featured, actor, Some(ends)), now, ids.featured);
      }
    }

    method DeactivateForPackageLoss(advert: int, now: Time)
      requires CoherentExcept(State(), advert)
      modifies this`features
      ensures State() == DropBoth(old(State()), advert, now) && Coherent(State())
    {
      ghost var was := State();
      DropBothRestores(was, advert, now);
      DropUnique(features, advert, Urgent, now, Some(PACKAGE_LOSS));
      var _ := DeactivateActive(advert, Urgent, now, Some(PACKAGE_LOSS));
      var _ := DeactivateActive(advert, Featured, now, Some(PACKAGE_LOSS));
    }

    /** Assign a package inside the transaction. `pkg` was read before it, and may be gone by now;
        `notifyFails` is the outcome of the broadcast that follows the writes. */
    method AssignInTx(req: Request, pkg: Package, now: Time, ids: NewIds, notifyFails: bool)
      returns (r: Result<Assignment>)
      requires Core() && FreshIds(State(), ids)
      modifies this`assignments, this`features, this`log
      ensures Core()
      ensures AssignGuard(adverts, users, req).Err? ==>
                r.Err? && r.error == AssignGuard(adverts, users, req).error && Untouched()
      ensures AssignGuard(adverts, users, req).Ok? ==>
                AssignDone(old(State()), req, pkg, adverts[req.advert].status, now, ids, notifyFails, State(), r.Err?)
      ensures r.Ok? ==> r.value.advert == req.advert && r.value.pkg == pkg.id
                        && ActiveFor(assignments, r.value.id, req.advert) && assignments[r.value.id] == r.value
      ensures r.Ok? ==> MayBeAssigned(adverts, users, req)
      ensures MayBeAssigned(adverts, users, req) && !notifyFails ==> r.Ok?
    {
      hide Coherent, PackagesOk, WindowsOk;
      var guarded := AssignGuard(adverts, users, req);
      if guarded.Err? {
        return Err(guarded.error);
      }
      var status := guarded.value.status;
      var current := FindActive(req.advert);
      AssignedKeepsWindows(State(), current, req, pkg, status, now, ids);
      var a, isNew := WriteAssignment(req, pkg, status, current, now, ids);
      if isNew && pkg.broadcastOnPublish && status == Published && notifyFails {
        return Err(Internal);
      }
      return Ok(a);
    }

    /** Reuse the current assignment when it is the one asked for, replace it otherwise. */
    method WriteAssignment(
      req: Request, pkg: Package, status: AdvertStatus, current: Option<Id>, now: Time, ids: NewIds)
      returns (a: Assignment, isNew: bool)
      requires Coherent(State()) && FreshIds(State(), ids) && IsCurrent(State(), req.advert, current)
      modifies this`assignments, this`features, this`log
      ensures State() == Assigned(old(State()), current, req, pkg, status, now, ids) && Coherent(State())
      ensures isNew <==> IsNew(old(State()), current, req, pkg, now)
      ensures a.advert == req.advert && a.pkg == pkg.id
      ensures ActiveFor(assignments, a.id, req.advert) && assignments[a.id] == a
    {
      hide PackagesOk, Apply;
      if current.Some? {
        a := assignments[current.value];
        if a.pkg == pkg.id && ((req.startsAt.None? && req.endsAt.None?)
                               || (a.startsAt == StartOf(req, now) && a.endsAt == EndOf(req, pkg, now))) {
          ApplyKeeps(State(), a, pkg, status, req.actor, now, ids);
          ApplyPackageFeatures(a, pkg, status, req.actor, now, ids);
          return a, false;
        }
      }
      a := NewAssignment(req, pkg, now, ids.assignment);
      WriteNewAssignment(a, pkg, status, current, req.actor, now, ids);
      return a, true;
    }

    method WriteNewAssignment(
      a: Assignment, pkg: Package, status: AdvertStatus, current: Option<Id>, actor: Id, now: Time, ids: NewIds)
      requires Coherent(State()) && FreshIds(State(), ids) && IsCurrent(State(), a.advert, current)
      requires a.id == ids.assignment && a.status == ActiveAssignment
      modifies this`assignments, this`features, this`log
      ensures State() == Apply(Open(Released(old(State()), a.advert, current, Superseded, now, None), a),
                               a, pkg, status, actor, now, ids)
      ensures Coherent(State()) && ActiveFor(assignments, a.id, a.advert) && assignments[a.id] == a
    {
      ReplaceCurrent(a.advert, current, a, now);
      ApplyKeeps(State(), a, pkg, status, actor, now, ids);
      ApplyPackageFeatures(a, pkg, status, actor, now, ids);
    }

    method ReplaceCurrent(advert: int, current: Option<Id>, a: Assignment, now: Time)
      requires Coherent(State()) && IsCurrent(State(), advert, current)
      requires a.advert == advert && a.status == ActiveAssignment && a.id !in assignments
      modifies this`assignments, this`features
      ensures Coherent(State()) && ActiveFor(assignments, a.id, advert) && assignments[a.id] == a
      ensures State() == Open(Released(old(State()), advert, current, Superseded, now, None), a)
      ensures features.Keys == old(features).Keys
    {
      ghost var was := State();
      ReleasedKeeps(was, advert, current, Superseded, now, None);
      if current.Some? {
        CloseKeeps(was, current.value, Superseded, now, None);
        var marked := MarkSuperseded(current.value, now);
        assert marked == Ok(());
        DeactivateForPackageLoss(advert, now);
      }
      OpenKeeps(State(), a);
      var created := CreateAssignment(a);
      assert created == Ok(());
    }

    /** Everything an assignment needs, short of a broadcast that succeeds. */
    ghost predicate Requestable(code: string, req: Request, now: Time)
      reads this`packages, this`users, this`adverts
    {
      && (req.source == AdminSource ==> RequireAdmin(users, req.actor).Ok?)
      && ValidCode(code) && AssignGuard(adverts, users, req).Ok?
      && exists id :: Assignable(packages, id, code, req, now)
    }

    /** The whole call when nothing else runs in between: the invariant survives in full. */
    method AssignAdvertPackage(req: Request, code: string, now: Time, ids: NewIds, notifyFails: bool)
      returns (r: Result<Assignment>)
      requires Valid() && FreshIds(State(), ids)
      modifies this`assignments, this`features, this`log
      ensures Valid()
      ensures r.Err? && !notifyFails ==> Untouched()
      ensures r.Ok? ==> r.value.pkg in packages && packages[r.value.pkg].code == code && packages[r.value.pkg].isActive
                        && ActiveFor(assignments, r.value.id, req.advert) && assignments[r.value.id] == r.value
      ensures r.Ok? ==> MayBeAssigned(adverts, users, req)
                        && (req.source == AdminSource ==> Administers(users, req.actor))
      ensures r.Ok? && r.value.id == ids.assignment ==>
                Scheduled(r.value, req, packages[r.value.pkg], now)
                && (r.value.endsAt.Some? ==> r.value.startsAt <= r.value.endsAt.value)
      ensures !Requestable(code, req, now) ==> r.Err? && Untouched()
      ensures Requestable(code, req, now) ==>
                exists id :: Assignable(packages, id, code, req, now)
                             && (r.Ok? ==> r.value.pkg == id)
                             && AssignDone(old(State()), req, packages[id], adverts[req.advert].status, now, ids,
                                           notifyFails, State(), r.Err?)
    {
      hide Coherent, WindowsOk, Assigned;
      if req.source == AdminSource {
        var admin := RequireAdmin(users, req.actor);
        if admin.Err? {
          return Err(admin.error);
        }
      }
      if !ValidCode(code) {
        return Err(Validation);
      }
      var found := FindByCode(code);
      if found.Err? {
        return Err(found.error);
      }
      var pkg := found.value;
      if !pkg.isActive {
        return Err(InvalidState);
      }
      if !ValidRange(StartOf(req, now), EndOf(req, pkg, now)) {
        return Err(Validation);
      }
      ghost var was := State();
      assert Assignable(packages, pkg.id, code, req, now);
      r := AssignInTx(req, pkg, now, ids, notifyFails);
      if AssignGuard(adverts, users, req).Ok? {
        ghost var current :| IsCurrent(was, req.advert, current)
                             && State() == Assigned(was, current, req, pkg, adverts[req.advert].status, now, ids)
                             && (r.Err? <==> IsNew(was, current, req, pkg, now) && pkg.broadcastOnPublish
                                             && adverts[req.advert].status == Published && notifyFails);
        AssignedPackageExists(was, current, req, pkg, adverts[req.advert].status, now, ids, packages.Keys);
        AssignedRows(was, current, req, pkg, adverts[req.advert].status, now, ids);
      }
    }

    method CancelAdvertPackage(actor: Id, advert: int, reason: Option<string>, now: Time) returns (r: Result<()>)
      requires Core()
      modifies this`assignments, this`features
      ensures Core()
      ensures r == if RequireAdmin(users, actor).Err? then RequireAdmin(users, actor)
                   else if FindAdvert(adverts, advert).Err? then Err(NotFound) else Ok(())
      ensures r.Ok? <==> Administers(users, actor) && advert in adverts && !adverts[advert].deleted
      ensures r.Err? ==> Untouched()
      ensures r.Ok? ==> !HasActive(State(), advert) && forall f :: !HasLive(State(), advert, f)
      ensures r.Ok? ==> exists current :: IsCurrent(old(State()), advert, current)
                                          && State() == Released(old(State()), advert, current, Cancelled, now, reason)
      ensures forall packages' :: PackagesExist(old(assignments), packages') ==> PackagesExist(assignments, packages')
    {
      hide Coherent, CoherentExcept, PackagesOk, DropBoth, WindowsOk;
      var admin := RequireAdmin(users, actor);
      if admin.Err? {
        return Err(admin.error);
      }
      var found := FindAdvert(adverts, advert);
      if found.Err? {
        return Err(found.error);
      }
      ghost var was := State();
      var current := FindActive(advert);
      ReleasedKeeps(was, advert, current, Cancelled, now, reason);
      ReleasedKeepsWindows(was, advert, current, Cancelled, now, reason);
      if current.None? {
        return Ok(());
      }
      CloseKeeps(was, current.value, Cancelled, now, reason);
      var marked := MarkCancelled(current.value, now, reason);
      assert marked == Ok(());
      DeactivateForPackageLoss(advert, now);
      return Ok(());
    }

    /** What an urgent activation can hang on; an admin gets a default assignment when there is none. */
    method ResolveEntitlement(
      actorId: Id, actor: User, advert: int, listed: seq<Package>, now: Time, newId: Id) returns (r: Result<Assignment>)
      requires Core() && newId !in assignments
      modifies this`assignments
      ensures Core()
      ensures r.Err? ==> Untouched() && (r.error == InvalidState || r.error == NotFound)
      ensures r.Ok? <==> CanEntitle(old(State()), packages, actorId, actor, advert, listed, now, newId)
      ensures r.Ok? ==> Entitled(old(State()), packages, actorId, actor, advert, listed, now, newId, r.value)
                        && State() == Open(old(State()), r.value)
                        && r.value.advert == advert && ActiveFor(assignments, r.value.id, advert)
    {
      var current := FindActive(advert);
      if current.None? {
        if actor.admin {
          for i := 0 to |listed|
            invariant forall j :: 0 <= j < i ==> !listed[j].isActive
            invariant State() == old(State())
          {
            if listed[i].isActive {
              var a := DefaultAssignment(listed[i], actorId, advert, now, newId);
              OpenKeeps(State(), a);
              OpenKeepsWindows(State(), a);
              var created := CreateAssignment(a);
              assert created == Ok(());
              assert FirstActive(listed, i);
              assert Entitled(old(State()), packages, actorId, actor, advert, listed, now, newId, a);
              return Ok(a);
            }
          }
        }
        return Err(InvalidState);
      }
      var a := assignments[current.value];
      assert forall c :: ActiveFor(assignments, c, advert) ==> c == current.value;
      assert Open(State(), a) == State();
      if !AssignmentEffective(a, now) && !actor.admin {
        return Err(InvalidState);
      }
      if a.pkg !in packages {
        return Err(NotFound);
      }
      if !actor.admin && !packages[a.pkg].allowsUrgent {
        return Err(InvalidState);
      }
      assert Entitled(State(), packages, actorId, actor, advert, listed, now, newId, a);
      return Ok(a);
    }

    ghost predicate MayActivate(e: Ent, actorId: Id, advert: int, listed: seq<Package>, now: Time, newId: Id)
      reads this`packages, this`users, this`adverts
    {
      && actorId in users && UrgentGuard(adverts, actorId, users[actorId], advert).Ok?
      && CanEntitle(e, packages, actorId, users[actorId], advert, listed, now, newId)
    }

    /** `listed` is the package listing an admin's call reads on the way. */
    method ActivateUrgent(
      actorId: Id, advert: int, listed: seq<Package>, now: Time, ids: NewIds, notifyFails: bool) returns (r: Result<Id>)
      requires Core() && FreshIds(State(), ids)
      modifies this`assignments, this`features, this`log
      ensures Core()
      ensures r.Ok? ==> Live(features, r.value, advert, Urgent)
      ensures r.Ok? ==> ManagesUrgent(adverts, users, actorId, advert)
                        && adverts[advert].status in {Draft, PendingReview, Published}
      ensures r.Err? && !notifyFails ==>
                !ManagesUrgent(adverts, users, actorId, advert)
                || adverts[advert].status !in {Draft, PendingReview, Published}
                || forall c :: !Entitles(old(assignments), packages, c, advert, now)
      ensures r.Ok? && !HasLive(old(State()), advert, Urgent) ==>
                var f := features[r.value];
                f.activatedBy == actorId && f.activatedAt == now && f.endsAt == None && f.assignment in assignments
      ensures r.Ok? && !HasActive(old(State()), advert) ==>
                Administers(users, actorId) && IsDefault(assignments, ids.assignment, actorId, advert, listed, now)
      ensures MayActivate(old(State()), actorId, advert, listed, now, ids.assignment) ==>
                exists a ::
                  && Entitled(old(State()), packages, actorId, users[actorId], advert, listed, now, ids.assignment, a)
                  && State() == UrgentOn(Open(old(State()), a), a, actorId, now, ids.urgent)
                  && (r.Err? <==> notifyFails && !HasLive(old(State()), advert, Urgent))
      ensures !MayActivate(old(State()), actorId, advert, listed, now, ids.assignment) ==> r.Err? && Untouched()
      ensures PackagesExist(old(assignments), packages.Keys) ==>
                (PackagesExist(assignments, packages.Keys) <==>
                 MayActivate(old(State()), actorId, advert, listed, now, ids.assignment) ==>
                   HasActive(old(State()), advert) || DefaultStillThere(packages, listed))
    {
      hide Coherent, PackagesOk, UrgentOn, HasActive, Entitled, WindowsOk;
      EntitlesMeans(State(), packages, actorId, advert, now, listed, ids.assignment);
      DefaultMeans(State(), packages, actorId, advert, now, listed, ids.assignment);
      if actorId !in users {
        return Err(NotFound);
      }
      var actor := users[actorId];
      var guarded := UrgentGuard(adverts, actorId, actor, advert);
      if guarded.Err? {
        return Err(guarded.error);
      }
      var entitled := ResolveEntitlement(actorId, actor, advert, listed, now, ids.assignment);
      if entitled.Err? {
        return Err(entitled.error);
      }
      r := SwitchUrgentOn(entitled.value, actorId, now, ids.urgent, notifyFails);
      EntitledPackageExists(old(State()), packages, actorId, actor, advert, listed, now, ids.assignment,
                            entitled.value);
    }

    method SwitchUrgentOn(a: Assignment, actor: Id, now: Time, id: Id, notifyFails: bool) returns (r: Result<Id>)
      requires Core() && id !in features && ActiveFor(assignments, a.id, a.advert)
      modifies this`features, this`log
      ensures Core() && State() == UrgentOn(old(State()), a, actor, now, id)
      ensures r.Ok? ==> Live(features, r.value, a.advert, Urgent)
      ensures r.Err? <==> notifyFails && !HasLive(old(State()), a.advert, Urgent)
      ensures r.Ok? && !HasLive(old(State()), a.advert, Urgent) ==>
                var f := features[r.value];
                f.activatedBy == actor && f.activatedAt == now && f.endsAt == None && f.assignment == a.id
    {
      UrgentOnKeeps(State(), a, actor, now, id);
      UrgentOnKeepsWindows(State(), a, actor, now, id);
      var existing := FindLive(a.advert, Urgent);
      if existing.Some? {
        return Ok(existing.value);
      }
      var latest := FindLatestNumber(a.advert, Urgent);
      var created := CreateActivation(Grant(a.advert, a.id, Urgent, actor, None), latest + 1, now, id);
      assert created == Ok(());
      return if notifyFails then Err(Internal) else Ok(id);
    }

    method SwitchUrgentOff(advert: int, now: Time)
      requires Core()
      modifies this`features
      ensures Core() && !HasLive(State(), advert, Urgent)
      ensures features == DropOne(old(features), advert, Urgent, now, None)
    {
      DropOneKeeps(State(), advert, Urgent, now, None);
      DropOneKeepsWindows(State(), advert, Urgent, now, None);
      assert OneLive(features);
      hide Coherent, WindowsOk, PackagesOk, OneLive;
      var _ := DeactivateActive(advert, Urgent, now, None);
    }

    method DeactivateUrgent(actorId: Id, advert: int, now: Time) returns (r: Result<()>)
      requires Core()
      modifies this`features
      ensures Core()
      ensures r.Ok? <==> ManagesUrgent(adverts, users, actorId, advert)
      ensures r.Err? ==> Untouched()
      ensures r.Ok? ==> !HasLive(State(), advert, Urgent)
                        && features == DropOne(old(features), advert, Urgent, now, None)
    {
      hide Coherent, WindowsOk, PackagesOk, DropOne;
      if actorId !in users {
        return Err(NotFound);
      }
      var found := FindAdvert(adverts, advert);
      if found.Err? {
        return Err(found.error);
      }
      if !CanManageUrgent(actorId, users[actorId], found.value) {
        return Err(Forbidden);
      }
      SwitchUrgentOff(advert, now);
      return Ok(());
    }

    method UpdatePackage(actor: Id, code: string, expectedVersion: int, patch: PackagePatch, now: Time)
      returns (r: Result<Package>)
      requires Core()
      modifies this`packages, this`features
      ensures Core()
      ensures r.Err? ==> Untouched() && packages == old(packages)
      ensures r.Ok? <==> RequireAdmin(users, actor).Ok? && ValidCode(code) && expectedVersion >= 1
                         && exists id :: Updatable(old(packages), id, code, expectedVersion, patch)
      ensures r.Ok? ==> Updatable(old(packages), r.value.id, code, expectedVersion, patch)
                        && r.value == Patched(old(packages)[r.value.id], patch).value.(version := expectedVersion + 1)
                        && packages == old(packages)[r.value.id := r.value]
      ensures r.Ok? ==> Administers(users, actor) && IsPatched(old(packages)[r.value.id], patch, r.value)
      ensures r.Ok? && old(packages)[r.value.id].allowsUrgent && !r.value.allowsUrgent ==>
                NoUrgentOn(State(), r.value.id)
                && State() == old(State()).(features := DropUrgent(assignments, old(features), r.value.id, now))
      ensures r.Ok? && (!old(packages)[r.value.id].allowsUrgent || r.value.allowsUrgent) ==> Untouched()
      ensures PackagesExist(assignments, old(packages).Keys) ==> PackagesExist(assignments, packages.Keys)
    {
      hide Coherent, WindowsOk, IsPatched, DropUrgent;
      var admin := RequireAdmin(users, actor);
      if admin.Err? {
        return Err(admin.error);
      }
      if !ValidCode(code) {
        return Err(Validation);
      }
      if expectedVersion < 1 {
        return Err(Validation);
      }
      var found := FindByCode(code);
      if found.Err? {
        return Err(found.error);
      }
      assert forall id :: id in packages && packages[id].code == code ==> id == found.value.id;
      var patched := Patched(found.value, patch);
      if patched.Err? {
        return Err(patched.error);
      }
      var saved := UpdateOptimistic(patched.value, expectedVersion);
      if saved.Err? {
        return Err(saved.error);
      }
      assert Updatable(old(packages), found.value.id, code, expectedVersion, patch);
      PatchedIs(found.value, patch, saved.value);
      if found.value.allowsUrgent && !saved.value.allowsUrgent {
        DropUrgentIsComplete(State(), saved.value.id, now);
        DropUrgentKeepsWindows(State(), saved.value.id, now);
        DeactivateActiveUrgentForPackage(saved.value.id, now);
      }
      return Ok(saved.value);
    }

    method DeletePackage(actor: Id, code: string) returns (r: Result<()>)
      requires Core()
      modifies this`packages
      ensures Core()
      ensures r.Err? ==> packages == old(packages)
      ensures r.Ok? <==> RequireAdmin(users, actor).Ok? && ValidCode(code)
                         && exists id :: Deletable(old(packages), assignments, id, code)
      ensures r.Ok? ==> exists id :: Deletable(old(packages), assignments, id, code) && packages == old(packages) - {id}
      ensures r.Ok? ==> Administers(users, actor)
      ensures PackagesExist(assignments, old(packages).Keys) ==> PackagesExist(assignments, packages.Keys)
    {
      var admin := RequireAdmin(users, actor);
      if admin.Err? {
        return Err(admin.error);
      }
      if !ValidCode(code) {
        return Err(Validation);
      }
      r := DeleteByCode(code);
      if r.Ok? {
        ghost var id :| id in old(packages) && old(packages)[id].code == code;
        assert Deletable(old(packages), assignments, id, code);
      }
    }
  }

  ghost predicate Deletable(packages: map<Id, Package>, assignments: map<Id, Assignment>, id: Id, code: string) {
    id in packages && packages[id].code == code && !UsedBy(assignments, id)
  }

  /** The package with this code can be given on this schedule. */
  predicate Assignable(packages: map<Id, Package>, id: Id, code: string, req: Request, now: Time) {
    id in packages && packages[id].code == code && packages[id].isActive
    && ValidRange(StartOf(req, now), EndOf(req, packages[id], now))
  }

  /** The package with this code is at the expected version and the patch fits it. */
  predicate Updatable(packages: map<Id, Package>, id: Id, code: string, expected: int, patch: PackagePatch) {
    id in packages && packages[id].code == code && packages[id].version == expected && Patched(packages[id], patch).Ok?
  }

  /** No live urgent hangs on any assignment of the package, current or past. */
  ghost predicate NoUrgentOn(e: Ent, pkg: Id) {
    forall id :: id in e.features && e.features[id].active && e.features[id].feature == Urgent ==>
                   e.features[id].assignment in e.assignments && e.assignments[e.features[id].assignment].pkg != pkg
  }

  lemma {:induction false} NotEffective(e: Ent, advert: int, feature: Feature, id: Id, now: Time)
    requires Coherent(e) && Live(e.features, id, advert, feature) && !ActivationEffective(e.features[id], now)
    ensures !HasEffective(e, advert, feature, now)
  {
  }

  lemma {:induction false} DropNothing(e: Ent, advert: int, feature: Feature, now: Time, reason: Option<string>)
    requires !HasLive(e, advert, feature)
    ensures e.(features := DropOne(e.features, advert, feature, now, reason)) == e
    ensures !HasEffective(e, advert, feature, now)
  {
    assert DropOne(e.features, advert, feature, now, reason) == e.features;
  }

  ghost predicate NumberUsed(features: map<Id, Activation>, advert: int, feature: Feature, n: int) {
    exists id :: id in features && features[id].advert == advert && features[id].feature == feature
        && features[id].number == n
  }

  lemma {:induction false} CountKeyMonotone(log: seq<Created>, advert: int, feature: Feature, m: nat, n: nat)
    requires m <= n <= |log|
    ensures CountKey(log, advert, feature, m) <= CountKey(log, advert, feature, n)
  {
    if m < n {
      CountKeyMonotone(log, advert, feature, m, n - 1);
    }
  }

  /** Some creation carries the last number of its key. */
  lemma {:induction false} LastNumberUsed(
    features: map<Id, Activation>, log: seq<Created>, advert: int, feature: Feature, n: nat)
    requires n <= |log| && forall i :: 0 <= i < |log| ==> RowNumbered(features, log, i)
    ensures CountKey(log, advert, feature, n) > 0 ==>
              NumberUsed(features, advert, feature, CountKey(log, advert, feature, n))
  {
    if n > 0 {
      if log[n - 1].advert == advert && log[n - 1].feature == feature {
        assert RowNumbered(features, log, n - 1);
        assert features[log[n - 1].id].number == CountKey(log, advert, feature, n);
      } else {
        LastNumberUsed(features, log, advert, feature, n - 1);
      }
    }
  }

  lemma {:induction false} NumbersBounded(features: map<Id, Activation>, log: seq<Created>, id: Id)
    requires Numbered(features, log) && id in features
    ensures 1 <= features[id].number <= Total(log, features[id].advert, features[id].feature)
  {
    assert Logged(log, id);
    var i :| 0 <= i < |log| && log[i].id == id;
    assert RowNumbered(features, log, i);
    CountKeyMonotone(log, features[id].advert, features[id].feature, i + 1, |log|);
  }

  lemma {:induction false} LargestNumberIsTotal(
    features: map<Id, Activation>, log: seq<Created>, advert: int, feature: Feature, latest: nat)
    requires Numbered(features, log)
    requires latest == 0 || NumberUsed(features, advert, feature, latest)
    requires forall id :: id in features && features[id].advert == advert && features[id].feature == feature ==>
                            features[id].number <= latest
    ensures latest == Total(log, advert, feature)
  {
    LastNumberUsed(features, log, advert, feature, |log|);
    if latest > 0 {
      var id :| id in features && features[id].advert == advert && features[id].feature == feature
          && features[id].number == latest;
      NumbersBounded(features, log, id);
    }
  }

  const GOLD := Package(3, "GOLD", true, None, None, false, true, 0, 1)

  /** A package is created, listed and deleted. */
  method ListThenDelete() returns (store: PackagingStore, listed: seq<Package>, deleted: Result<()>)
    ensures fresh(store) && store.Core() && deleted.Ok? && listed == [GOLD] && store.packages == map[]
    ensures store.State() == Ent(map[], map[], [])
    ensures store.adverts == map[1 := Advert(7, Published, false)] && store.users == map[9 := User(true, true)]
  {
    hide Coherent, WindowsOk;
    store := new PackagingStore(map[1 := Advert(7, Published, false)], map[9 := User(true, true)]);
    var created := store.CreatePackage(GOLD);
    listed := [GOLD];
    assert Deletable(store.packages, store.assignments, 3, "GOLD");
    deleted := store.DeletePackage(9, "GOLD");
  }

  /** The listing goes on to serve as an administrator's default: the new assignment's package is gone. */
  method DeleteDuringActivate() returns (store: PackagingStore, deleted: Result<()>, r: Result<Id>)
    ensures deleted.Ok? && r.Ok? && store.Core() && !PackagesExist(store.assignments, store.packages.Keys)
  {
    hide Coherent, PackagesOk, UrgentOn, CanEntitle, Entitled;
    var listed;
    store, listed, deleted := ListThenDelete();
    DefaultEntitles(store.State(), store.packages, 9, store.users[9], 1, listed, 5, 10);
    r := store.ActivateUrgent(9, 1, listed, 5, NewIds(10, 11, 12), false);
  }

  lemma {:induction false} DefaultEntitles(
    e: Ent, packages: map<Id, Package>, actorId: Id, actor: User, advert: int, listed: seq<Package>, now: Time,
    newId: Id)
    requires actor.admin && e.assignments == map[] && listed == [GOLD] && GOLD.id !in packages
    ensures CanEntitle(e, packages, actorId, actor, advert, listed, now, newId)
    ensures !HasActive(e, advert) && !DefaultStillThere(packages, listed)
    ensures PackagesExist(e.assignments, packages.Keys)
  {
    assert FirstActive(listed, 0);
    assert Entitled(e, packages, actorId, actor, advert, listed, now, newId,
                    DefaultAssignment(listed[0], actorId, advert, now, newId));
  }
}
