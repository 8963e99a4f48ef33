/** Package assignments and the feature activations tied to them, as one value, with the
    writes the packaging use cases make to it. */
module Entitlements {
  import opened Basics

  datatype Feature = Urgent | Featured

  datatype AssignmentStatus = ActiveAssignment | Superseded | Expired | Cancelled

  datatype Source = AdminSource | SystemSource | PaymentSource

  datatype Assignment = Assignment(
    id: Id, advert: int, pkg: Id, status: AssignmentStatus, startsAt: Time, endsAt: Option<Time>,
    assignedBy: Id, assignedAt: Time, closedAt: Option<Time>, reason: Option<string>, source: Source,
    version: int, updatedAt: Time)

  datatype Activation = Activation(
    id: Id, advert: int, assignment: Id, feature: Feature, active: bool, activatedBy: Id, activatedAt: Time,
    endsAt: Option<Time>, deactivatedAt: Option<Time>, reason: Option<string>, number: int, updatedAt: Time)

  /** One line of the record of activations, in the order they were created. */
  datatype Created = Created(id: Id, advert: int, feature: Feature)

  datatype Ent = Ent(assignments: map<Id, Assignment>, features: map<Id, Activation>, log: seq<Created>)

  const SECONDS_PER_DAY := 86400
  const PACKAGE_LOSS := "PACKAGE_ASSIGNMENT_CHANGED"
  const URGENT_DISABLED := "PACKAGE_URGENT_DISABLED"

  // ---------------------------------------------------------------- reading

  predicate Covers(startsAt: Option<Time>, endsAt: Option<Time>, t: Time) {
    (startsAt.Some? ==> startsAt.value <= t) && (endsAt.Some? ==> t < endsAt.value)
  }

  predicate AssignmentEffective(a: Assignment, t: Time) {
    a.status == ActiveAssignment && Covers(Some(a.startsAt), a.endsAt, t)
  }

  predicate ActivationEffective(f: Activation, t: Time) {
    f.active && Covers(None, f.endsAt, t)
  }

  predicate ActiveFor(assignments: map<Id, Assignment>, id: Id, advert: int) {
    id in assignments && assignments[id].status == ActiveAssignment && assignments[id].advert == advert
  }

  predicate Live(features: map<Id, Activation>, id: Id, advert: int, feature: Feature) {
    id in features && features[id].active && features[id].advert == advert && features[id].feature == feature
  }

  ghost predicate HasActive(e: Ent, advert: int) {
    exists id :: ActiveFor(e.assignments, id, advert)
  }

  ghost predicate HasLive(e: Ent, advert: int, feature: Feature) {
    exists id :: Live(e.features, id, advert, feature)
  }

  // ---------------------------------------------------------------- the invariant

  ghost predicate OneActive(assignments: map<Id, Assignment>) {
    forall x, y, advert :: ActiveFor(assignments, x, advert) && ActiveFor(assignments, y, advert) ==> x == y
  }

  ghost predicate OneLive(features: map<Id, Activation>) {
    forall x, y, advert, feature ::
      Live(features, x, advert, feature) && Live(features, y, advert, feature) ==> x == y
  }

  /** Every live activation hangs on its advert's active assignment. */
  ghost predicate Linked(assignments: map<Id, Assignment>, features: map<Id, Activation>) {
    forall id :: id in features && features[id].active ==>
                   ActiveFor(assignments, features[id].assignment, features[id].advert)
  }

  /** How many of the first n creations were for this advert and feature. */
  function CountKey(log: seq<Created>, advert: int, feature: Feature, n: nat): nat
    requires n <= |log|
  {
    if n == 0 then 0
    else CountKey(log, advert, feature, n - 1)
         + (if log[n - 1].advert == advert && log[n - 1].feature == feature then 1 else 0)
  }

  function Total(log: seq<Created>, advert: int, feature: Feature): nat {
    CountKey(log, advert, feature, |log|)
  }

  /** The i-th creation made the row it names, numbered one more than its predecessors of that key. */
  ghost predicate RowNumbered(features: map<Id, Activation>, log: seq<Created>, i: nat)
    requires i < |log|
  {
    && log[i].id in features
    && var f := features[log[i].id];
    && f.advert == log[i].advert && f.feature == log[i].feature
    && f.number == CountKey(log, log[i].advert, log[i].feature, i) + 1
  }

  /** Numbers are gap-free: per advert and feature they are 1..n in creation order, and a live
      activation carries the last of them. */
  ghost predicate Numbered(features: map<Id, Activation>, log: seq<Created>) {
    && (forall i :: 0 <= i < |log| ==> RowNumbered(features, log, i))
    && (forall i, j :: 0 <= i < j < |log| ==> log[i].id != log[j].id)
    && (forall id :: id in features ==> Logged(log, id))
    && (forall id :: id in features && features[id].active ==>
                       features[id].number == Total(log, features[id].advert, features[id].feature))
  }

  ghost predicate Logged(log: seq<Created>, id: Id) {
    exists i :: 0 <= i < |log| && log[i].id == id
  }

  ghost predicate Keyed(e: Ent) {
    && (forall id :: id in e.assignments ==> e.assignments[id].id == id)
    && (forall id :: id in e.features ==> e.features[id].id == id)
  }

  /** The invariant, but for live activations of advert a that may have lost their assignment. */
  ghost predicate CoherentExcept(e: Ent, a: int) {
    match e
    case Ent(assignments, features, log) =>
      && Keyed(e) && OneActive(assignments) && OneLive(features) && Numbered(features, log)
      && forall id :: id in features && features[id].active && features[id].advert != a ==>
                        ActiveFor(assignments, features[id].assignment, features[id].advert)
  }

  ghost predicate Coherent(e: Ent) {
    match e
    case Ent(assignments, features, log) =>
      Keyed(e) && OneActive(assignments) && OneLive(features) && Linked(assignments, features)
          && Numbered(features, log)
  }

  ghost predicate PackagesExist(assignments: map<Id, Assignment>, packages: set<Id>) {
    forall id :: id in assignments ==> assignments[id].pkg in packages
  }

  // ---------------------------------------------------------------- writes to activations

  function Deactivated(f: Activation, now: Time, reason: Option<string>): Activation {
    f.(active := false, deactivatedAt := Some(now), reason := reason, updatedAt := now)
  }

  /** The live activation of this advert and feature, if any, is switched off. */
  function DropOne(
    features: map<Id, Activation>, advert: int, feature: Feature, now: Time, reason: Option<string>)
    : map<Id, Activation>
  {
    map id | id in features ::
      if Live(features, id, advert, feature) then Deactivated(features[id], now, reason) else features[id]
  }

  function DropBoth(e: Ent, advert: int, now: Time): Ent {
    e.(features := DropOne(DropOne(e.features, advert, Urgent, now, Some(PACKAGE_LOSS)),
    advert, Featured, now, Some(PACKAGE_LOSS)))
  }

  datatype Grant = Grant(advert: int, assignment: Id, feature: Feature, actor: Id, endsAt: Option<Time>)

  function NewActivation(g: Grant, number: int, now: Time, id: Id): Activation {
    Activation(id, g.advert, g.assignment, g.feature, true, g.actor, now, g.endsAt, None, None, number, now)
  }

  function Create(e: Ent, g: Grant, now: Time, id: Id): Ent {
    Ent(e.assignments, e.features[id := NewActivation(g, Total(e.log, g.advert, g.feature) + 1, now, id)],
        e.log + [Created(id, g.advert, g.feature)])
  }

  ghost predicate HasEffective(e: Ent, advert: int, feature: Feature, now: Time) {
    exists id :: Live(e.features, id, advert, feature) && ActivationEffective(e.features[id], now)
  }

  /** An activation in effect is kept; a lapsed one is replaced by the next number. */
  ghost function Ensure(e: Ent, g: Grant, now: Time, id: Id): Ent {
    if HasEffective(e, g.advert, g.feature, now) then e
    else Create(e.(features := DropOne(e.features, g.advert, g.feature, now, Some(PACKAGE_LOSS))), g, now, id)
  }

  lemma {:induction false} DropKeeps(e: Ent, a: int, advert: int, feature: Feature, now: Time, reason: Option<string>)
    requires CoherentExcept(e, a)
    ensures CoherentExcept(e.(features := DropOne(e.features, advert, feature, now, reason)), a)
  {
    var features := DropOne(e.features, advert, feature, now, reason);
    forall i | 0 <= i < |e.log|
      ensures RowNumbered(features, e.log, i)
    {
      assert RowNumbered(e.features, e.log, i);
    }
    DropUnique(e.features, advert, feature, now, reason);
  }

  lemma {:induction false} DropUnique(
    features: map<Id, Activation>, advert: int, feature: Feature, now: Time, reason: Option<string>)
    requires OneLive(features)
    ensures OneLive(DropOne(features, advert, feature, now, reason))
    ensures forall id :: !Live(DropOne(features, advert, feature, now, reason), id, advert, feature)
    ensures forall id, a, f :: (a != advert || f != feature) ==>
              (Live(DropOne(features, advert, feature, now, reason), id, a, f) <==> Live(features, id, a, f))
  {
    var after := DropOne(features, advert, feature, now, reason);
    forall id, a, f
      ensures Live(after, id, a, f) <==> Live(features, id, a, f) && (a != advert || f != feature)
    {
    }
  }

  lemma {:induction false} CoherentIsExcept(e: Ent, a: int)
    ensures Coherent(e) ==> CoherentExcept(e, a)
    ensures CoherentExcept(e, a) && (forall f :: !HasLive(e, a, f)) ==> Coherent(e)
  {
    if CoherentExcept(e, a) && forall f :: !HasLive(e, a, f) {
      forall id | id in e.features && e.features[id].active
        ensures e.features[id].advert != a
      {
        assert Live(e.features, id, e.features[id].advert, e.features[id].feature);
        assert HasLive(e, e.features[id].advert, e.features[id].feature);
      }
    }
  }

  /** Losing the package leaves no live activation on the advert, so nothing dangles. */
  lemma {:induction false} DropBothRestores(e: Ent, a: int, now: Time)
    requires CoherentExcept(e, a)
    ensures Coherent(DropBoth(e, a, now))
    ensures forall f :: !HasLive(DropBoth(e, a, now), a, f)
  {
    var e1 := e.(features := DropOne(e.features, a, Urgent, now, Some(PACKAGE_LOSS)));
    DropKeeps(e, a, a, Urgent, now, Some(PACKAGE_LOSS));
    DropKeeps(e1, a, a, Featured, now, Some(PACKAGE_LOSS));
    DropUnique(e.features, a, Urgent, now, Some(PACKAGE_LOSS));
    DropUnique(e1.features, a, Featured, now, Some(PACKAGE_LOSS));
    forall f
      ensures !HasLive(DropBoth(e, a, now), a, f)
    {
      assert f == Urgent || f == Featured;
    }
    CoherentIsExcept(DropBoth(e, a, now), a);
  }

  lemma {:induction false} CountKeyPrefix(log: seq<Created>, more: seq<Created>, advert: int, feature: Feature, n: nat)
    requires n <= |log|
    ensures CountKey(log + more, advert, feature, n) == CountKey(log, advert, feature, n)
  {
    if n > 0 {
      CountKeyPrefix(log, more, advert, feature, n - 1);
    }
  }

  lemma {:induction false} TotalNext(log: seq<Created>, c: Created, advert: int, feature: Feature)
    ensures Total(log + [c], advert, feature)
            == Total(log, advert, feature) + (if c.advert == advert && c.feature == feature then 1 else 0)
  {
    CountKeyPrefix(log, [c], advert, feature, |log|);
  }

  lemma {:induction false} CreateNumbered(e: Ent, g: Grant, now: Time, id: Id)
    requires Numbered(e.features, e.log) && id !in e.features
    requires forall x :: !Live(e.features, x, g.advert, g.feature)
    ensures Numbered(Create(e, g, now, id).features, Create(e, g, now, id).log)
  {
    var c := Created(id, g.advert, g.feature);
    var log, features := e.log + [c], Create(e, g, now, id).features;
    forall i | 0 <= i < |log|
      ensures RowNumbered(features, log, i)
    {
      CountKeyPrefix(e.log, [c], log[i].advert, log[i].feature, i);
      if i < |e.log| {
        assert RowNumbered(e.features, e.log, i);
      }
    }
    forall x | x in features
      ensures Logged(log, x)
      ensures features[x].active ==> features[x].number == Total(log, features[x].advert, features[x].feature)
    {
      TotalNext(e.log, c, features[x].advert, features[x].feature);
      if x == id {
        assert log[|e.log|].id == id;
      } else {
        assert Logged(e.log, x);
        var i :| 0 <= i < |e.log| && e.log[i].id == x;
        assert log[i].id == x;
        assert !Live(e.features, x, g.advert, g.feature);
      }
    }
    forall i, j | 0 <= i < j < |log|
      ensures log[i].id != log[j].id
    {
      if j == |e.log| {
        assert RowNumbered(e.features, e.log, i);
      }
    }
  }

  lemma {:induction false} CreateKeeps(e: Ent, g: Grant, now: Time, id: Id)
    requires Coherent(e) && id !in e.features && ActiveFor(e.assignments, g.assignment, g.advert)
    requires !HasLive(e, g.advert, g.feature)
    ensures Coherent(Create(e, g, now, id))
    ensures Live(Create(e, g, now, id).features, id, g.advert, g.feature)
    ensures forall x, a, f :: x != id ==> (Live(Create(e, g, now, id).features, x, a, f) <==> Live(e.features, x, a, f))
  {
    CreateNumbered(e, g, now, id);
    var features := Create(e, g, now, id).features;
    forall x, y, a, f | Live(features, x, a, f) && Live(features, y, a, f)
      ensures x == y
    {
      if x != id {
        assert Live(e.features, x, a, f);
      }
      if y != id {
        assert Live(e.features, y, a, f);
      }
    }
  }

  /** Granting a feature keeps the invariant; afterwards the advert has exactly that feature live
      in addition to what it had, and other activations are as they were. */
  lemma {:induction false} EnsureKeeps(e: Ent, g: Grant, now: Time, id: Id)
    requires Coherent(e) && id !in e.features && ActiveFor(e.assignments, g.assignment, g.advert)
    ensures Coherent(Ensure(e, g, now, id)) && Ensure(e, g, now, id).assignments == e.assignments
    ensures HasLive(Ensure(e, g, now, id), g.advert, g.feature)
    ensures forall a, f :: (a != g.advert || f != g.feature) ==>
              (HasLive(Ensure(e, g, now, id), a, f) <==> HasLive(e, a, f))
  {
    if !HasEffective(e, g.advert, g.feature, now) {
      var dropped := e.(features := DropOne(e.features, g.advert, g.feature, now, Some(PACKAGE_LOSS)));
      DropOneKeeps(e, g.advert, g.feature, now, Some(PACKAGE_LOSS));
      CreateKeeps(dropped, g, now, id);
      forall a, f | a != g.advert || f != g.feature
        ensures HasLive(Create(dropped, g, now, id), a, f) <==> HasLive(e, a, f)
      {
        CreateElsewhere(dropped, g, now, id, a, f);
      }
    }
  }

  lemma {:induction false} CreateElsewhere(e: Ent, g: Grant, now: Time, id: Id, a: int, f: Feature)
    requires id !in e.features && (a != g.advert || f != g.feature)
    ensures HasLive(Create(e, g, now, id), a, f) <==> HasLive(e, a, f)
  {
    forall x
      ensures Live(Create(e, g, now, id).features, x, a, f) <==> Live(e.features, x, a, f)
    {
    }
  }

  lemma {:induction false} DropOneKeeps(e: Ent, advert: int, feature: Feature, now: Time, reason: Option<string>)
    requires Coherent(e)
    ensures var e' := e.(features := DropOne(e.features, advert, feature, now, reason));
            && Coherent(e') && !HasLive(e', advert, feature)
            && forall a, f :: (a != advert || f != feature) ==> (HasLive(e', a, f) <==> HasLive(e, a, f))
  {
    var e' := e.(features := DropOne(e.features, advert, feature, now, reason));
    var other := advert + 1;
    CoherentIsExcept(e, other);
    DropKeeps(e, other, advert, feature, now, reason);
    DropUnique(e.features, advert, feature, now, reason);
    forall a, f | a != advert || f != feature
      ensures HasLive(e', a, f) <==> HasLive(e, a, f)
    {
      forall id
        ensures Live(e'.features, id, a, f) <==> Live(e.features, id, a, f)
      {
      }
    }
  }

  // ---------------------------------------------------------------- writes to assignments

  function Close(e: Ent, id: Id, status: AssignmentStatus, now: Time, reason: Option<string>): Ent
    requires id in e.assignments
  {
    var a := e.assignments[id];
    e.(assignments := e.assignments[id := a.(status := status, closedAt := Some(now), updatedAt := now,
    reason := if reason.Some? then reason else a.reason, version := a.version + 1)])
  }

  function Open(e: Ent, a: Assignment): Ent {
    e.(assignments := e.assignments[a.id := a])
  }

  lemma {:induction false} CloseKeeps(e: Ent, id: Id, status: AssignmentStatus, now: Time, reason: Option<string>)
    requires Coherent(e) && id in e.assignments && status != ActiveAssignment
    ensures CoherentExcept(Close(e, id, status, now, reason), e.assignments[id].advert)
    ensures ActiveFor(e.assignments, id, e.assignments[id].advert) ==>
              !HasActive(Close(e, id, status, now, reason), e.assignments[id].advert)
  {
    var after := Close(e, id, status, now, reason).assignments;
    forall x, a
      ensures ActiveFor(after, x, a) <==> ActiveFor(e.assignments, x, a) && x != id
    {
    }
  }

  lemma {:induction false} OpenKeeps(e: Ent, a: Assignment)
    requires Coherent(e) && a.id !in e.assignments && a.status == ActiveAssignment && !HasActive(e, a.advert)
    ensures Coherent(Open(e, a)) && ActiveFor(Open(e, a).assignments, a.id, a.advert)
  {
    var after := Open(e, a).assignments;
    forall x, advert
      ensures ActiveFor(after, x, advert) <==> ActiveFor(e.assignments, x, advert) || (x == a.id && advert == a.advert)
    {
    }
  }

  // ---------------------------------------------------------------- packages and use cases

  datatype Package = Package(
    id: Id, code: string, allowsUrgent: bool, featuredDays: Option<int>, defaultDays: Option<int>,
    broadcastOnPublish: bool, isActive: bool, sortOrder: int, version: int)

  datatype Request = Request(
    source: Source, actor: Id, advert: int, startsAt: Option<Time>, endsAt: Option<Time>, reason: Option<string>)

  /** The ids a call draws for the rows it may create. */
  datatype NewIds = NewIds(assignment: Id, urgent: Id, featured: Id)

  predicate FreshIds(e: Ent, ids: NewIds) {
    ids.assignment !in e.assignments && ids.urgent !in e.features && ids.featured !in e.features
    && ids.urgent != ids.featured
  }

  function AddDays(t: Time, days: int): Time {
    t + SECONDS_PER_DAY * days
  }

  function StartOf(req: Request, now: Time): Time {
    if req.startsAt.Some? then req.startsAt.value else now
  }

  function EndOf(req: Request, pkg: Package, now: Time): Option<Time> {
    if req.endsAt.Some? then req.endsAt
    else if pkg.defaultDays.Some? then Some(AddDays(StartOf(req, now), pkg.defaultDays.value))
    else None
  }

  predicate ValidRange(startsAt: Time, endsAt: Option<Time>) {
    endsAt.Some? ==> startsAt <= endsAt.value
  }

  /** The request asks for what the current assignment already is. */
  predicate AlreadyAssigned(current: Assignment, req: Request, pkg: Package, now: Time) {
    && current.pkg == pkg.id
    && ((req.startsAt.None? && req.endsAt.None?)
        || (current.startsAt == StartOf(req, now) && current.endsAt == EndOf(req, pkg, now)))
  }

  predicate StatusAllowsUrgent(s: AdvertStatus) {
    s == Draft || s == PendingReview || s == Published
  }

  predicate GrantsUrgent(a: Assignment, pkg: Package, status: AdvertStatus, now: Time) {
    AssignmentEffective(a, now) && pkg.allowsUrgent && StatusAllowsUrgent(status)
  }

  predicate GrantsFeatured(a: Assignment, pkg: Package, now: Time) {
    AssignmentEffective(a, now) && pkg.featuredDays.Some? && pkg.featuredDays.value > 0
  }

  /** A featured window never outlives the assignment it comes from. */
  function FeaturedEnd(a: Assignment, days: int, now: Time): Time {
    var ends := AddDays(now, days);
    if a.endsAt.Some? && ends > a.endsAt.value then a.endsAt.value else ends
  }

  function UrgentGrant(a: Assignment, actor: Id): Grant {
    Grant(a.advert, a.id, Urgent, actor, None)
  }

  function FeaturedGrant(a: Assignment, pkg: Package, actor: Id, now: Time): Grant {
    Grant(a.advert, a.id, Featured, actor,
          if pkg.featuredDays.Some? then Some(FeaturedEnd(a, pkg.featuredDays.value, now)) else None)
  }

  ghost function Apply(
    e: Ent, a: Assignment, pkg: Package, status: AdvertStatus, actor: Id, now: Time, ids: NewIds): Ent
  {
    var e1 := if GrantsUrgent(a, pkg, status, now) then Ensure(e, UrgentGrant(a, actor), now, ids.urgent) else e;
    if GrantsFeatured(a, pkg, now) then Ensure(e1, FeaturedGrant(a, pkg, actor, now), now, ids.featured) else e1
  }

  function NewAssignment(req: Request, pkg: Package, now: Time, id: Id): Assignment {
    Assignment(id, req.advert, pkg.id, ActiveAssignment, StartOf(req, now), EndOf(req, pkg, now),
               req.actor, now, None, req.reason, req.source, 1, now)
  }

  ghost predicate IsCurrent(e: Ent, advert: int, current: Option<Id>) {
    if current.Some? then ActiveFor(e.assignments, current.value, advert) else !HasActive(e, advert)
  }

  /** The advert without its current assignment and everything that hung on it. */
  function Released(
    e: Ent, advert: int, current: Option<Id>, status: AssignmentStatus, now: Time, reason: Option<string>): Ent
    requires current.Some? ==> current.value in e.assignments
  {
    if current.Some? then DropBoth(Close(e, current.value, status, now, reason), advert, now) else e
  }

  ghost function Assigned(
    e: Ent, current: Option<Id>, req: Request, pkg: Package, status: AdvertStatus, now: Time, ids: NewIds): Ent
    requires current.Some? ==> current.value in e.assignments
  {
    if current.Some? && AlreadyAssigned(e.assignments[current.value], req, pkg, now) then
      Apply(e, e.assignments[current.value], pkg, status, req.actor, now, ids)
    else
      var a := NewAssignment(req, pkg, now, ids.assignment);
      Apply(Open(Released(e, req.advert, current, Superseded, now, None), a), a, pkg, status, req.actor, now, ids)
  }

  lemma {:induction false} EnsureOnlyAdds(e: Ent, g: Grant, now: Time, id: Id, other: Id)
    requires other !in e.features && other != id
    ensures other !in Ensure(e, g, now, id).features
  {
  }

  /** Applying a package keeps the invariant and gives the advert exactly what the package grants,
      on top of what was live; other adverts are untouched. */
  lemma {:induction false} ApplyKeeps(
    e: Ent, a: Assignment, pkg: Package, status: AdvertStatus, actor: Id, now: Time, ids: NewIds)
    requires Coherent(e) && ActiveFor(e.assignments, a.id, a.advert)
    requires ids.urgent !in e.features && ids.featured !in e.features && ids.urgent != ids.featured
    ensures var e' := Apply(e, a, pkg, status, actor, now, ids);
            && Coherent(e') && e'.assignments == e.assignments
            && (HasLive(e', a.advert, Urgent) <==> HasLive(e, a.advert, Urgent) || GrantsUrgent(a, pkg, status, now))
            && (HasLive(e', a.advert, Featured) <==> HasLive(e, a.advert, Featured) || GrantsFeatured(a, pkg, now))
            && forall b, f :: b != a.advert ==> (HasLive(e', b, f) <==> HasLive(e, b, f))
  {
    var e1 := if GrantsUrgent(a, pkg, status, now) then Ensure(e, UrgentGrant(a, actor), now, ids.urgent) else e;
    if GrantsUrgent(a, pkg, status, now) {
      EnsureKeeps(e, UrgentGrant(a, actor), now, ids.urgent);
      EnsureOnlyAdds(e, UrgentGrant(a, actor), now, ids.urgent, ids.featured);
    }
    if GrantsFeatured(a, pkg, now) {
      EnsureKeeps(e1, FeaturedGrant(a, pkg, actor, now), now, ids.featured);
    }
  }

  /** Releasing the current assignment leaves the advert with neither assignment nor live feature. */
  lemma {:induction false} ReleasedKeeps(
    e: Ent, advert: int, current: Option<Id>, status: AssignmentStatus, now: Time, reason: Option<string>)
    requires Coherent(e) && IsCurrent(e, advert, current) && status != ActiveAssignment
    ensures var e' := Released(e, advert, current, status, now, reason);
            && Coherent(e') && !HasActive(e', advert) && (forall f :: !HasLive(e', advert, f))
            && e'.features.Keys == e.features.Keys && e'.assignments.Keys == e.assignments.Keys
  {
    if current.Some? {
      CloseKeeps(e, current.value, status, now, reason);
      DropBothRestores(Close(e, current.value, status, now, reason), advert, now);
    } else {
      forall f
        ensures !HasLive(e, advert, f)
      {
      }
    }
  }

  /** After an assignment the advert has one active assignment, for the requested package, and its
      live features are the granted ones; a repeated request only adds what is granted and missing. */
  lemma {:induction false} AssignedKeeps(
    e: Ent, current: Option<Id>, req: Request, pkg: Package, status: AdvertStatus, now: Time, ids: NewIds)
    requires Coherent(e) && IsCurrent(e, req.advert, current) && FreshIds(e, ids)
    ensures Coherent(Assigned(e, current, req, pkg, status, now, ids))
    ensures exists id :: ActiveFor(Assigned(e, current, req, pkg, status, now, ids).assignments, id, req.advert)
                         && Assigned(e, current, req, pkg, status, now, ids).assignments[id].pkg == pkg.id
  {
    if current.Some? && AlreadyAssigned(e.assignments[current.value], req, pkg, now) {
      ApplyKeeps(e, e.assignments[current.value], pkg, status, req.actor, now, ids);
      assert ActiveFor(Assigned(e, current, req, pkg, status, now, ids).assignments, current.value, req.advert);
    } else {
      var a := NewAssignment(req, pkg, now, ids.assignment);
      var e1 := Released(e, req.advert, current, Superseded, now, None);
      ReleasedKeeps(e, req.advert, current, Superseded, now, None);
      OpenKeeps(e1, a);
      ApplyKeeps(Open(e1, a), a, pkg, status, req.actor, now, ids);
      assert ActiveFor(Assigned(e, current, req, pkg, status, now, ids).assignments, a.id, req.advert);
    }
  }

  /** A new assignment carries over no feature of the package it replaces. */
  lemma {:induction false} NewAssignmentStartsClean(
    e: Ent, current: Option<Id>, req: Request, pkg: Package, status: AdvertStatus, now: Time, ids: NewIds)
    requires Coherent(e) && IsCurrent(e, req.advert, current) && FreshIds(e, ids)
    requires current.Some? ==> !AlreadyAssigned(e.assignments[current.value], req, pkg, now)
    ensures var e' := Assigned(e, current, req, pkg, status, now, ids);
            var a := NewAssignment(req, pkg, now, ids.assignment);
            && ActiveFor(e'.assignments, a.id, req.advert) && e'.assignments[a.id] == a
            && (HasLive(e', req.advert, Urgent) <==> GrantsUrgent(a, pkg, status, now))
            && (HasLive(e', req.advert, Featured) <==> GrantsFeatured(a, pkg, now))
  {
    var a := NewAssignment(req, pkg, now, ids.assignment);
    var e1 := Released(e, req.advert, current, Superseded, now, None);
    ReleasedKeeps(e, req.advert, current, Superseded, now, None);
    OpenKeeps(e1, a);
    ApplyKeeps(Open(e1, a), a, pkg, status, req.actor, now, ids);
    assert Open(e1, a).features == e1.features;
    assert forall f :: HasLive(Open(e1, a), req.advert, f) <==> HasLive(e1, req.advert, f);
  }

  /** The package of an assignment was read before the transaction. Every assignment's package still
      exists afterwards exactly when that package does, or when nothing new was written. */
  lemma {:induction false} AssignedPackageExists(
    e: Ent, current: Option<Id>, req: Request, pkg: Package, status: AdvertStatus, now: Time, ids: NewIds,
    packages: set<Id>)
    requires Coherent(e) && IsCurrent(e, req.advert, current) && FreshIds(e, ids)
              && PackagesExist(e.assignments, packages)
    ensures PackagesExist(Assigned(e, current, req, pkg, status, now, ids).assignments, packages)
            <==> (pkg.id in packages
                  || (current.Some? && AlreadyAssigned(e.assignments[current.value], req, pkg, now)))
  {
    var after := Assigned(e, current, req, pkg, status, now, ids).assignments;
    if current.Some? && AlreadyAssigned(e.assignments[current.value], req, pkg, now) {
      ApplyKeeps(e, e.assignments[current.value], pkg, status, req.actor, now, ids);
    } else {
      var a := NewAssignment(req, pkg, now, ids.assignment);
      NewAssignmentStartsClean(e, current, req, pkg, status, now, ids);
      var e1 := Released(e, req.advert, current, Superseded, now, None);
      ReleasedKeeps(e, req.advert, current, Superseded, now, None);
      OpenKeeps(e1, a);
      ApplyKeeps(Open(e1, a), a, pkg, status, req.actor, now, ids);
      assert after == e1.assignments[a.id := a];
    }
  }

  /** A package deleted between the read and the write leaves an assignment without its package. */
  lemma {:induction false} DeleteDuringAssign()
    ensures exists e: Ent, req: Request, pkg: Package, ids: NewIds ::
              Coherent(e) && IsCurrent(e, req.advert, None) && FreshIds(e, ids)
              && (forall id :: id in e.assignments ==> e.assignments[id].pkg != pkg.id)
              && !PackagesExist(Assigned(e, None, req, pkg, Draft, 0, ids).assignments, {})
  {
    var e := Ent(map[], map[], []);
    var req := Request(AdminSource, 1, 1, None, None, None);
    var pkg := Package(7, "GOLD", true, None, None, false, true, 0, 1);
    var ids := NewIds(1, 2, 3);
    assert Coherent(e) && IsCurrent(e, req.advert, None) && FreshIds(e, ids);
    AssignedPackageExists(e, None, req, pkg, Draft, 0, ids, {});
  }

  // ---------------------------------------------------------------- urgent on request, and package-wide off

  ghost function UrgentOn(e: Ent, a: Assignment, actor: Id, now: Time, id: Id): Ent {
    if HasLive(e, a.advert, Urgent) then e else Create(e, UrgentGrant(a, actor), now, id)
  }

  lemma {:induction false} UrgentOnKeeps(e: Ent, a: Assignment, actor: Id, now: Time, id: Id)
    requires Coherent(e) && ActiveFor(e.assignments, a.id, a.advert) && id !in e.features
    ensures Coherent(UrgentOn(e, a, actor, now, id)) && HasLive(UrgentOn(e, a, actor, now, id), a.advert, Urgent)
    ensures UrgentOn(e, a, actor, now, id).assignments == e.assignments
    ensures forall b, f :: (b != a.advert || f != Urgent) ==>
              (HasLive(UrgentOn(e, a, actor, now, id), b, f) <==> HasLive(e, b, f))
  {
    if !HasLive(e, a.advert, Urgent) {
      CreateKeeps(e, UrgentGrant(a, actor), now, id);
      forall b, f | b != a.advert || f != Urgent
        ensures HasLive(Create(e, UrgentGrant(a, actor), now, id), b, f) <==> HasLive(e, b, f)
      {
        CreateElsewhere(e, UrgentGrant(a, actor), now, id, b, f);
      }
    }
  }

  /** What switching a package's urgent off does: only activations on its active assignments are scanned. */
  function DropUrgent(
    assignments: map<Id, Assignment>, features: map<Id, Activation>, pkg: Id, now: Time): map<Id, Activation>
  {
    map id | id in features ::
      if features[id].active && features[id].feature == Urgent && features[id].assignment in assignments
         && assignments[features[id].assignment].pkg == pkg
         && assignments[features[id].assignment].status == ActiveAssignment
      then Deactivated(features[id], now, Some(URGENT_DISABLED)) else features[id]
  }

  /** Scanning active assignments is enough: no live urgent is left on any assignment of the package. */
  lemma {:induction false} DropUrgentIsComplete(e: Ent, pkg: Id, now: Time)
    requires Coherent(e)
    ensures var e' := e.(features := DropUrgent(e.assignments, e.features, pkg, now));
            && Coherent(e')
            && forall id :: id in e'.features && e'.features[id].active && e'.features[id].feature == Urgent ==>
                              e'.features[id].assignment in e.assignments
                              && e.assignments[e'.features[id].assignment].pkg != pkg
  {
    var features := DropUrgent(e.assignments, e.features, pkg, now);
    forall i | 0 <= i < |e.log|
      ensures RowNumbered(features, e.log, i)
    {
      assert RowNumbered(e.features, e.log, i);
    }
    forall id, a, f | Live(features, id, a, f)
      ensures Live(e.features, id, a, f)
    {
    }
  }

  /** Without the invariant the scan can miss one: a live urgent hanging on a closed assignment stays live. */
  lemma {:induction false} DropUrgentNeedsTheLink()
    ensures exists assignments: map<Id, Assignment>, features: map<Id, Activation>, id ::
              id in features && Live(DropUrgent(assignments, features, 7, 0), id, 1, Urgent)
              && features[id].assignment in assignments && assignments[features[id].assignment].pkg == 7
  {
    var a := Assignment(1, 1, 7, Superseded, 0, None, 1, 0, Some(0), None, AdminSource, 2, 0);
    var f := Activation(2, 1, 1, Urgent, true, 1, 0, None, None, None, 1, 0);
    var assignments, features := map[1 := a], map[2 := f];
    assert 2 in features && Live(DropUrgent(assignments, features, 7, 0), 2, 1, Urgent);
  }
}
