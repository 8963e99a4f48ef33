/** What the entitlement writes mean for the stored rows: how long features last, what a new
    assignment looks like, and which features it brings. */
module EntitlementLaws {
  import opened Basics
  import opened Entitlements

  // ---------------------------------------------------------------- windows

  /** A live URGENT has no end of its own. A live FEATURED has one, and never outlives its assignment. */
  ghost predicate WindowsOk(assignments: map<Id, Assignment>, features: map<Id, Activation>) {
    forall id :: id in features && features[id].active ==>
      var f := features[id];
      && (f.feature == Urgent ==> f.endsAt == None)
      && (f.feature == Featured ==>
            && f.endsAt.Some?
            && (f.assignment in assignments && assignments[f.assignment].endsAt.Some? ==>
                  f.endsAt.value <= assignments[f.assignment].endsAt.value))
  }

  /** Rows that were live before are as they were, and none is new. */
  ghost predicate OnlyOff(features: map<Id, Activation>, features': map<Id, Activation>) {
    forall id :: id in features' && features'[id].active ==> id in features && features'[id] == features[id]
  }

  ghost predicate SameEnds(assignments: map<Id, Assignment>, assignments': map<Id, Assignment>) {
    forall id :: id in assignments' ==> id in assignments && assignments'[id].endsAt == assignments[id].endsAt
  }

  lemma {:induction false} OffKeepsWindows(
    assignments: map<Id, Assignment>, features: map<Id, Activation>, assignments': map<Id, Assignment>,
    features': map<Id, Activation>)
    requires WindowsOk(assignments, features) && OnlyOff(features, features') && SameEnds(assignments, assignments')
    ensures WindowsOk(assignments', features')
  {
  }

  lemma {:induction false} ReleasedKeepsWindows(
    e: Ent, advert: int, current: Option<Id>, status: AssignmentStatus, now: Time, reason: Option<string>)
    requires WindowsOk(e.assignments, e.features) && (current.Some? ==> current.value in e.assignments)
    ensures var e' := Released(e, advert, current, status, now, reason); WindowsOk(e'.assignments, e'.features)
  {
    var e' := Released(e, advert, current, status, now, reason);
    OffKeepsWindows(e.assignments, e.features, e'.assignments, e'.features);
  }

  lemma {:induction false} DropUrgentKeepsWindows(e: Ent, pkg: Id, now: Time)
    requires WindowsOk(e.assignments, e.features)
    ensures WindowsOk(e.assignments, DropUrgent(e.assignments, e.features, pkg, now))
  {
    OffKeepsWindows(e.assignments, e.features, e.assignments, DropUrgent(e.assignments, e.features, pkg, now));
  }

  lemma {:induction false} DropOneKeepsWindows(
    e: Ent, advert: int, feature: Feature, now: Time, reason: Option<string>)
    requires WindowsOk(e.assignments, e.features)
    ensures WindowsOk(e.assignments, DropOne(e.features, advert, feature, now, reason))
  {
    OffKeepsWindows(e.assignments, e.features, e.assignments, DropOne(e.features, advert, feature, now, reason));
  }

  lemma {:induction false} OpenKeepsWindows(e: Ent, a: Assignment)
    requires Coherent(e) && WindowsOk(e.assignments, e.features) && a.id !in e.assignments
    ensures WindowsOk(Open(e, a).assignments, e.features)
  {
    forall id | id in e.features && e.features[id].active
      ensures e.features[id].assignment in e.assignments
    {
      assert ActiveFor(e.assignments, e.features[id].assignment, e.features[id].advert);
    }
  }

  lemma {:induction false} EnsureKeepsWindows(e: Ent, g: Grant, now: Time, id: Id)
    requires WindowsOk(e.assignments, e.features)
    requires g.feature == Urgent ==> g.endsAt == None
    requires g.feature == Featured ==>
               && g.endsAt.Some? && g.assignment in e.assignments
               && (e.assignments[g.assignment].endsAt.Some? ==>
                     g.endsAt.value <= e.assignments[g.assignment].endsAt.value)
    ensures var e' := Ensure(e, g, now, id); WindowsOk(e'.assignments, e'.features) && e'.assignments == e.assignments
  {
    DropOneKeepsWindows(e, g.advert, g.feature, now, Some(PACKAGE_LOSS));
  }

  /** Applying a package never grants a window longer than the assignment. */
  lemma {:induction false} ApplyKeepsWindows(
    e: Ent, a: Assignment, pkg: Package, status: AdvertStatus, actor: Id, now: Time, ids: NewIds)
    requires WindowsOk(e.assignments, e.features) && a.id in e.assignments && e.assignments[a.id] == a
    ensures var e' := Apply(e, a, pkg, status, actor, now, ids); WindowsOk(e'.assignments, e'.features)
  {
    hide WindowsOk, Ensure;
    var e1 := if GrantsUrgent(a, pkg, status, now) then Ensure(e, UrgentGrant(a, actor), now, ids.urgent) else e;
    if GrantsUrgent(a, pkg, status, now) {
      EnsureKeepsWindows(e, UrgentGrant(a, actor), now, ids.urgent);
    }
    if GrantsFeatured(a, pkg, now) {
      EnsureKeepsWindows(e1, FeaturedGrant(a, pkg, actor, now), now, ids.featured);
    }
  }

  lemma {:induction false} AssignedKeepsWindows(
    e: Ent, current: Option<Id>, req: Request, pkg: Package, status: AdvertStatus, now: Time, ids: NewIds)
    requires Coherent(e) && WindowsOk(e.assignments, e.features)
    requires IsCurrent(e, req.advert, current) && FreshIds(e, ids)
    ensures var e' := Assigned(e, current, req, pkg, status, now, ids); WindowsOk(e'.assignments, e'.features)
  {
    IdsMatch(e);
    hide WindowsOk, Coherent, Apply;
    if current.Some? && AlreadyAssigned(e.assignments[current.value], req, pkg, now) {
      ApplyKeepsWindows(e, e.assignments[current.value], pkg, status, req.actor, now, ids);
    } else {
      var a := NewAssignment(req, pkg, now, ids.assignment);
      var e1 := Released(e, req.advert, current, Superseded, now, None);
      ReleasedKeepsWindows(e, req.advert, current, Superseded, now, None);
      ReleasedKeeps(e, req.advert, current, Superseded, now, None);
      OpenKeepsWindows(e1, a);
      ApplyKeepsWindows(Open(e1, a), a, pkg, status, req.actor, now, ids);
    }
  }

  lemma {:induction false} IdsMatch(e: Ent)
    requires Coherent(e)
    ensures forall id :: id in e.assignments ==> e.assignments[id].id == id
  {
  }

  lemma {:induction false} UrgentOnKeepsWindows(e: Ent, a: Assignment, actor: Id, now: Time, id: Id)
    requires WindowsOk(e.assignments, e.features)
    ensures var e' := UrgentOn(e, a, actor, now, id); WindowsOk(e'.assignments, e'.features)
  {
  }

  // ---------------------------------------------------------------- what a package brings

  /** The assignment's own schedule covers the instant. */
  predicate InForceAt(startsAt: Time, endsAt: Option<Time>, now: Time) {
    startsAt <= now && (endsAt.None? || now < endsAt.value)
  }

  /** This activation is live on the advert and in effect. */
  predicate Shows(features: map<Id, Activation>, id: Id, advert: int, feature: Feature, now: Time) {
    && id in features && features[id].active && features[id].advert == advert && features[id].feature == feature
    && (features[id].endsAt.None? || now < features[id].endsAt.value)
  }

  lemma {:induction false} EnsureShows(e: Ent, g: Grant, now: Time, id: Id)
    requires id !in e.features && (g.endsAt.Some? ==> now < g.endsAt.value)
    ensures exists x :: Shows(Ensure(e, g, now, id).features, x, g.advert, g.feature, now)
    ensures forall x :: Shows(e.features, x, g.advert, g.feature, now) ==> Ensure(e, g, now, id) == e
    ensures (forall x :: !Shows(e.features, x, g.advert, g.feature, now)) ==>
              id in Ensure(e, g, now, id).features
              && var f := Ensure(e, g, now, id).features[id];
              && f.active && f.advert == g.advert && f.feature == g.feature && f.endsAt == g.endsAt
              && f.assignment == g.assignment && f.activatedBy == g.actor && f.activatedAt == now
  {
    var e' := Ensure(e, g, now, id);
    forall x
      ensures Shows(e.features, x, g.advert, g.feature, now)
              <==> Live(e.features, x, g.advert, g.feature) && ActivationEffective(e.features[x], now)
    {
    }
    if !HasEffective(e, g.advert, g.feature, now) {
      assert Shows(e'.features, id, g.advert, g.feature, now);
    } else {
      var x :| Live(e.features, x, g.advert, g.feature) && ActivationEffective(e.features[x], now);
      assert Shows(e.features, x, g.advert, g.feature, now);
    }
  }

  lemma {:induction false} EnsureElsewhere(e: Ent, g: Grant, now: Time, id: Id, x: Id, advert: int, feature: Feature)
    requires id !in e.features && (advert != g.advert || feature != g.feature)
    ensures Shows(Ensure(e, g, now, id).features, x, advert, feature, now)
            <==> Shows(e.features, x, advert, feature, now)
    ensures Shows(e.features, x, advert, feature, now) ==> Ensure(e, g, now, id).features[x] == e.features[x]
  {
  }

  /** FEATURED, freshly granted, lasts the package's full number of days when the assignment lasts that
      long, and to the end of the assignment when it does not. */
  lemma {:induction false} FreshFeatured(
    e: Ent, a: Assignment, pkg: Package, status: AdvertStatus, actor: Id, now: Time, ids: NewIds)
    requires a.status == ActiveAssignment && InForceAt(a.startsAt, a.endsAt, now)
    requires pkg.featuredDays.Some? && pkg.featuredDays.value > 0
    requires ids.urgent !in e.features && ids.featured !in e.features && ids.urgent != ids.featured
    requires forall x :: !Shows(e.features, x, a.advert, Featured, now)
    ensures var features, full :=
              Apply(e, a, pkg, status, actor, now, ids).features, now + 86400 * pkg.featuredDays.value;
            && Shows(features, ids.featured, a.advert, Featured, now)
            && features[ids.featured].assignment == a.id && features[ids.featured].activatedAt == now
            && (a.endsAt.None? || full <= a.endsAt.value ==> features[ids.featured].endsAt == Some(full))
            && (a.endsAt.Some? && a.endsAt.value < full ==> features[ids.featured].endsAt == a.endsAt)
  {
    var e1 := if GrantsUrgent(a, pkg, status, now) then Ensure(e, UrgentGrant(a, actor), now, ids.urgent) else e;
    if GrantsUrgent(a, pkg, status, now) {
      EnsureOnlyAdds(e, UrgentGrant(a, actor), now, ids.urgent, ids.featured);
      forall x
        ensures !Shows(e1.features, x, a.advert, Featured, now)
      {
        EnsureElsewhere(e, UrgentGrant(a, actor), now, ids.urgent, x, a.advert, Featured);
      }
    }
    EnsureShows(e1, FeaturedGrant(a, pkg, actor, now), now, ids.featured);
  }

  /** The schedule a request asks for: from its start, or now, to its end, or for the package's days. */
  predicate Scheduled(a: Assignment, req: Request, pkg: Package, now: Time) {
    && a.startsAt == (if req.startsAt.Some? then req.startsAt.value else now)
    && (req.endsAt.Some? ==> a.endsAt == req.endsAt)
    && (req.endsAt.None? && pkg.defaultDays.Some? ==> a.endsAt == Some(a.startsAt + 86400 * pkg.defaultDays.value))
    && (req.endsAt.None? && pkg.defaultDays.None? ==> a.endsAt == None)
  }

  /** The request asks for what is there: the same package, and no schedule or the same one. */
  predicate AsksForTheSame(a: Assignment, req: Request, pkg: Package, now: Time) {
    a.pkg == pkg.id && ((req.startsAt.None? && req.endsAt.None?) || Scheduled(a, req, pkg, now))
  }

  lemma {:induction false} SameIsAssigned(a: Assignment, req: Request, pkg: Package, now: Time)
    ensures AsksForTheSame(a, req, pkg, now) <==> AlreadyAssigned(a, req, pkg, now)
  {
  }

  /** A request for what is there writes no assignment; any other closes the current one as superseded
      and opens one with the schedule asked for. */
  lemma {:induction false} AssignedRows(
    e: Ent, current: Option<Id>, req: Request, pkg: Package, status: AdvertStatus, now: Time, ids: NewIds)
    requires Coherent(e) && IsCurrent(e, req.advert, current) && FreshIds(e, ids)
    ensures var rows, rows' := e.assignments, Assigned(e, current, req, pkg, status, now, ids).assignments;
            if current.Some? && AsksForTheSame(rows[current.value], req, pkg, now) then rows' == rows
            else
              && rows'.Keys == rows.Keys + {ids.assignment}
              && (var a := rows'[ids.assignment];
                  && a.id == ids.assignment && a.advert == req.advert && a.pkg == pkg.id && a.status == ActiveAssignment
                  && Scheduled(a, req, pkg, now) && a.assignedBy == req.actor && a.assignedAt == now
                  && a.source == req.source && a.reason == req.reason && a.closedAt == None)
              && (current.Some? ==> rows'[current.value].status == Superseded
                                    && rows'[current.value].closedAt == Some(now)
                                    && rows'[current.value].pkg == rows[current.value].pkg
                                    && rows'[current.value].endsAt == rows[current.value].endsAt)
              && (forall id :: id in rows && current != Some(id) ==> rows'[id] == rows[id])
  {
    if current.Some? {
      SameIsAssigned(e.assignments[current.value], req, pkg, now);
    }
    if current.Some? && AlreadyAssigned(e.assignments[current.value], req, pkg, now) {
      ApplyAssignments(e, e.assignments[current.value], pkg, status, req.actor, now, ids);
    } else {
      var a := NewAssignment(req, pkg, now, ids.assignment);
      var e1 := Released(e, req.advert, current, Superseded, now, None);
      ApplyAssignments(Open(e1, a), a, pkg, status, req.actor, now, ids);
    }
  }

  lemma {:induction false} ApplyAssignments(
    e: Ent, a: Assignment, pkg: Package, status: AdvertStatus, actor: Id, now: Time, ids: NewIds)
    ensures Apply(e, a, pkg, status, actor, now, ids).assignments == e.assignments
  {
  }

  /** Closing an advert's assignment closes that row and switches off the advert's live features, now and
      with the reason; every other row stays as it is. */
  lemma {:induction false} ReleasedRows(
    e: Ent, advert: int, current: Id, status: AssignmentStatus, now: Time, reason: Option<string>)
    requires Coherent(e) && IsCurrent(e, advert, Some(current)) && status != ActiveAssignment
    ensures var e' := Released(e, advert, Some(current), status, now, reason);
            var a, a' := e.assignments[current], e'.assignments[current];
            && a'.status == status && a'.closedAt == Some(now) && a'.version == a.version + 1
            && (reason.Some? ==> a'.reason == reason) && (reason.None? ==> a'.reason == a.reason)
            && a'.pkg == a.pkg && a'.startsAt == a.startsAt && a'.endsAt == a.endsAt
            && (forall id :: id in e.assignments && id != current ==> e'.assignments[id] == e.assignments[id])
            && (forall id :: id in e.features ==>
                  var f, f' := e.features[id], e'.features[id];
                  if f.active && f.advert == advert
                  then !f'.active && f'.deactivatedAt == Some(now) && f'.reason == Some("PACKAGE_ASSIGNMENT_CHANGED")
                       && f'.number == f.number && f'.activatedAt == f.activatedAt
                  else f' == f)
  {
    var e' := Released(e, advert, Some(current), status, now, reason);
    forall id | id in e.features && e.features[id].active && e.features[id].advert == advert
      ensures !e'.features[id].active && e'.features[id].deactivatedAt == Some(now)
    {
      assert e.features[id].feature == Urgent || e.features[id].feature == Featured;
    }
  }

  /** Switching a package's urgent off touches exactly the live URGENTs on its active assignments. */
  lemma {:induction false} UrgentOffRows(e: Ent, pkg: Id, now: Time, id: Id)
    requires Coherent(e) && id in e.features
    ensures var f, f' := e.features[id], DropUrgent(e.assignments, e.features, pkg, now)[id];
            if f.active && f.feature == Urgent && e.assignments[f.assignment].pkg == pkg
            then !f'.active && f'.deactivatedAt == Some(now) && f'.reason == Some("PACKAGE_URGENT_DISABLED")
            else f' == f
  {
    if e.features[id].active {
      assert ActiveFor(e.assignments, e.features[id].assignment, e.features[id].advert);
    }
  }

  /** Which features a new assignment brings: URGENT when the package allows it and the advert is a draft,
      under review or published, FEATURED when the package has days; both only while the schedule runs. */
  lemma {:induction false} NewAssignmentBrings(
    e: Ent, current: Option<Id>, req: Request, pkg: Package, status: AdvertStatus, now: Time, ids: NewIds)
    requires Coherent(e) && IsCurrent(e, req.advert, current) && FreshIds(e, ids)
    requires current.Some? ==> !AsksForTheSame(e.assignments[current.value], req, pkg, now)
    ensures var e' := Assigned(e, current, req, pkg, status, now, ids);
            && ids.assignment in e'.assignments
            && var a := e'.assignments[ids.assignment];
            && var running := InForceAt(a.startsAt, a.endsAt, now);
            && (HasLive(e', req.advert, Urgent) <==>
                running && pkg.allowsUrgent && status in {Draft, PendingReview, Published})
            && (HasLive(e', req.advert, Featured) <==>
                running && pkg.featuredDays.Some? && pkg.featuredDays.value > 0)
  {
    if current.Some? {
      SameIsAssigned(e.assignments[current.value], req, pkg, now);
    }
    NewAssignmentStartsClean(e, current, req, pkg, status, now, ids);
  }
}
