/**
 The two changes the program makes to a host, each planned and applied in one go
 (internal/orchestrator/orchestrator.go and cmd/nostmesh/routes.go), and what they
 promise whichever call fails and whenever the process dies.
 */
module Changes {
  import opened Prefixes
  import opened Host
  import opened Journal
  import opened Plans
  import opened Network
  import opened Restoration
  import opened Rollback
  import opened Moments
  import opened Manager
  import opened Wrappers
  import Routes
  import Routing

  lemma AllUndone(plan: Plan, start: HostState, left: HostState, stop: Stop, outcomes: seq<bool>)
    requires LeftBehind(plan, plan.operations, start, left, stop, outcomes) && AllTrue(outcomes)
    ensures left == RolledBackHost(start, plan, stop)
  {
    var order := UndoOrder(OpsAtStop(plan.operations, Steps(plan), stop));
    assert outcomes == Trues(|order|);
  }

  lemma FreshPlanned(h: HostState, name: Name, ids: seq<Id>)
    ensures Fresh(PlannedOps(h, name, ids)) == PlannedOps(h, name, ids)
  {
  }

  lemma NoMoments(trace: seq<Snapshot>, plan: Plan, h: HostState)
    ensures Accounted(trace, |trace|, plan, h, Unstarted) && AlwaysSafe(trace, |trace|, plan, h)
  {
  }

  method Establish(m: NetManager, id: string, spec: InterfaceSpec, peers: seq<PeerSpec>)
    returns (ok: bool, ghost end: Ending)
    requires Sane(m.world.host)
    modifies m.world, m`inject
    ensures ok == end.Committed?
    ensures m.world.calm ==> old(m.world.calm)
    ensures m.world.calm ==> ok == (Storable(id) && Owns(spec.name) && InterfaceSpared(peers, old(m.inject)))
    ensures m.world.calm && end.Stopped? ==> AllTrue(end.outcomes)
    ensures ok ==> m.world.host == HostAt(old(m.world.host), InterfaceRun(spec, peers), |InterfaceRun(spec, peers)|)
    ensures end.Unstarted? ==> m.world.host == old(m.world.host)
    ensures end.Stopped? && AllTrue(end.outcomes) && spec.name !in old(m.world.host).interfaces ==>
      m.world.host == old(m.world.host)
    ensures end.Stopped? && AllTrue(end.outcomes) && spec.name in old(m.world.host).interfaces ==>
      KeptAll(old(m.world.host), m.world.host, spec.name)
    ensures end.Stopped? && AllTrue(end.outcomes) && spec.name in old(m.world.host).interfaces ==>
      (PeersOf(m.world.host, spec.name) == PeersOf(old(m.world.host), spec.name) <==>
      !PeerStranded(old(m.world.host), spec, peers, end.stop))
    ensures end.Stopped? && AllTrue(end.outcomes) && spec.name in old(m.world.host).interfaces ==>
      (m.world.host == old(m.world.host) <==> Restored(old(m.world.host), spec, peers, end.stop))
    ensures end.Stopped? && end.lapsed ==> !m.world.calm && end.stop == Done(|InterfaceRun(spec, peers)|)
    ensures old(m.world.trace) <= m.world.trace
    ensures m.world.trace == old(m.world.trace) || m.world.trace[|m.world.trace| - 1] == m.world.Now()
    ensures !end.Unstarted? ==> m.world.trace != old(m.world.trace)
    ensures Accounted(m.world.trace, |old(m.world.trace)|, InterfacePlan(old(m.world.host), id, spec, peers),
      old(m.world.host), end)
    ensures (end.Stopped? ==> m.world.host == old(m.world.host) && !end.lapsed) ==>
      AlwaysSafe(m.world.trace, |old(m.world.trace)|, InterfacePlan(old(m.world.host), id, spec, peers), old(m.world.host))
    ensures old(m.world.Valid()) ==> m.world.Valid()
  {
    hide HostAt, OpsAt, OpsAtStop, Ran, Steps, Unwound, RolledBackHost, Stranded, PeerStranded, UndoOrder, Cleared, PlannedOps,
         Restored, Accounted, AlwaysSafe, Reached;
    ghost var h := m.world.host;
    var planned := m.PlanInterface(id, spec, peers);
    if planned.None? {
      NoMoments(m.world.trace, InterfacePlan(h, id, spec, peers), h);
      return false, Unstarted;
    }
    var plan := planned.value;
    InterfaceGoes(h, id, spec, peers);
    var applied, ending := m.Apply(plan);
    ok, end := applied.Some?, ending;
    if end.Stopped? ==> m.world.host == h && !end.lapsed {
      SafeThroughout(m.world.trace, |old(m.world.trace)|, plan, h, end);
    }
    InterfaceStepsOf(h, id, spec, peers);
    FreshPlanned(h, spec.name, InterfaceIds(spec, peers));
    if end.Stopped? && m.world.calm {
      var order := UndoOrder(OpsAtStop(InterfaceOps(h, spec, peers), InterfaceRun(spec, peers), end.stop));
      forall op | op in order ensures Undoable(spec.name, op.id) { InterfaceUndone(h, spec, peers, end.stop, op); }
      AllUndid(spec.name, order, end.outcomes);
    }
    if end.Stopped? {
      if AllTrue(end.outcomes) {
        AllUndone(plan, h, m.world.host, end.stop, end.outcomes);
        if spec.name in h.interfaces {
          PresentRollback(h, id, spec, peers, end.stop);
          PresentRestored(h, id, spec, peers, end.stop);
        } else {
          AbsentRollback(h, id, spec, peers, end.stop);
        }
      }
    }
  }

  /** Nothing that was there is gone, and nothing elsewhere moved. */
  ghost predicate KeptAll(h: HostState, left: HostState, name: Name) {
    SameElsewhere(left, h, name) && left.routes == h.routes && name in left.interfaces
    && PeersOf(h, name) <= PeersOf(left, name)
  }

  method InstallRoutes(m: NetManager, id: string, name: Name, routes: seq<Prefix>) returns (ok: bool, ghost end: Ending)
    requires Sane(m.world.host)
    modifies m.world, m`inject
    ensures ok == end.Committed?
    ensures m.world.calm ==> old(m.world.calm)
    ensures m.world.calm ==> ok == (Storable(id) && name in old(m.world.host).interfaces && Routed(name, routes, old(m.inject)))
    ensures m.world.calm && end.Stopped? && (forall i :: 0 <= i < |routes| ==> routes[i].Valid()) ==>
      AllTrue(end.outcomes)
    ensures ok ==> m.world.host == old(m.world.host).(routes := old(m.world.host).routes + Added(name, routes, |routes|))
    ensures end.Unstarted? ==> m.world.host == old(m.world.host)
    ensures end.Stopped? && AllTrue(end.outcomes) ==> end.stop.In(RouteSteps(name, routes))
    ensures end.Stopped? && AllTrue(end.outcomes) ==>
      (m.world.host == old(m.world.host) <==>
      (end.stop.Done? || !Stranded(old(m.world.host), name, routes, end.stop.k)))
    ensures end.Stopped? && end.lapsed ==> !m.world.calm && end.stop == Done(|routes|)
    ensures old(m.world.trace) <= m.world.trace
    ensures m.world.trace == old(m.world.trace) || m.world.trace[|m.world.trace| - 1] == m.world.Now()
    ensures !end.Unstarted? ==> m.world.trace != old(m.world.trace)
    ensures Accounted(m.world.trace, |old(m.world.trace)|, RoutePlan(old(m.world.host), id, name, routes),
      old(m.world.host), end)
    ensures (end.Stopped? ==> m.world.host == old(m.world.host) && !end.lapsed) ==>
      AlwaysSafe(m.world.trace, |old(m.world.trace)|, RoutePlan(old(m.world.host), id, name, routes), old(m.world.host))
    ensures old(m.world.Valid()) ==> m.world.Valid()
  {
    hide HostAt, OpsAt, OpsAtStop, Ran, Steps, Unwound, RolledBackHost, Stranded, PeerStranded, UndoOrder, Cleared, PlannedOps,
         Accounted, AlwaysSafe;
    ghost var h := m.world.host;
    var planned := m.PlanRoutes(id, name, routes);
    if planned.None? {
      NoMoments(m.world.trace, RoutePlan(h, id, name, routes), h);
      return false, Unstarted;
    }
    var plan := planned.value;
    RoutesGo(h, id, name, routes);
    var applied, ending := m.Apply(plan);
    ok, end := applied.Some?, ending;
    if end.Stopped? ==> m.world.host == h && !end.lapsed {
      SafeThroughout(m.world.trace, |old(m.world.trace)|, plan, h, end);
    }
    RouteStepsOf(h, id, name, routes);
    FreshPlanned(h, name, RouteIds(routes));
    if end.Stopped? && m.world.calm && forall i :: 0 <= i < |routes| ==> routes[i].Valid() {
      var order := UndoOrder(OpsAtStop(PlannedOps(h, name, RouteIds(routes)), RouteSteps(name, routes), end.stop));
      forall op | op in order ensures Undoable(name, op.id) { RouteUndone(h, name, routes, end.stop, op); }
      AllUndid(name, order, end.outcomes);
    }
    if end.Stopped? {
      if AllTrue(end.outcomes) {
        AllUndone(plan, h, m.world.host, end.stop, end.outcomes);
        RouteRollback(h, id, name, routes, end.stop);
      }
    } else if end.Committed? {
      assert |RouteSteps(name, routes)| == |routes|;
      RoutesAdded(h, name, routes, |routes|);
    }
  }

  /** What a reconciliation asks to install is planned in its order. */
  function PrefixesOf(install: seq<Routes.Route>): seq<Prefix> {
    seq(|install|, i requires 0 <= i < |install| => install[i].prefix)
  }

  /** A reconciliation never asks for a route twice, so whatever stops its plan, undoing restores the host. */
  lemma ReconciliationRestored(offers: Routes.Offers, was: Routes.Selected, now: int, hysteresis: int,
                               before: (Prefix, Prefix) -> bool, best: map<Prefix, Routes.Route>, after: Routes.Offers,
                               selected: Routes.Selected, install: seq<Routes.Route>, remove: seq<Prefix>,
                               h: HostState, id: string, name: Name, stop: Stop)
    requires Routes.WellFormed(offers) && Routes.TotalOrder(before) && Routing.SelectionsFiled(was)
    requires Routing.Reconciles(offers, was, now, hysteresis, before, best, after, selected, install, remove)
    requires Sane(h) && name in h.interfaces && Reached(h, Steps(RoutePlan(h, id, name, PrefixesOf(install))), stop)
    ensures RolledBackHost(h, RoutePlan(h, id, name, PrefixesOf(install)), stop) == h
  {
    hide Reached, RolledBackHost, Steps, RoutePlan;
    Routing.ReconcileIsTheDifference(offers, was, now, hysteresis, before, best, after, selected, install, remove);
    DistinctRoutesRestored(h, id, name, PrefixesOf(install), stop);
  }

  // When only the environment can stop a change

  predicate InterfaceSpared(peers: seq<PeerSpec>, inject: Option<Kind>) {
    match inject
    case None => true
    case Some(kind) => kind == Kind.AddRoute || (kind == Kind.ApplyPeer && peers == [])
  }

  predicate Routed(name: Name, routes: seq<Prefix>, inject: Option<Kind>) {
    routes != [] ==> Owns(name) && inject != Some(Kind.AddRoute) && forall i :: 0 <= i < |routes| ==> routes[i].bits != 0
  }

  /** An interface plan goes through exactly on an interface the program owns. */
  lemma InterfaceGoes(h: HostState, id: string, spec: InterfaceSpec, peers: seq<PeerSpec>)
    ensures var plan := InterfacePlan(h, id, spec, peers);
      forall inject :: GoesThrough(plan, h, inject) <==>
        (Storable(id) && Owns(spec.name) && InterfaceSpared(peers, inject))
  {
    var plan, steps := InterfacePlan(h, id, spec, peers), InterfaceRun(spec, peers);
    InterfaceStepsOf(h, id, spec, peers);
    FreshPlanned(h, spec.name, InterfaceIds(spec, peers));
    assert plan.operations[0].id.Create? && plan.TouchesInterface();
    if Owns(spec.name) {
      forall k | 0 <= k < |steps| ensures Goes(h, plan.operations, steps, k, true) {
        InterfaceNamed(h, spec, peers, k);
        StepOf(spec, peers, k);
        if k > 0 { InterfaceThere(h, spec, peers, k); }
      }
    } else {
      assert !Goes(h, plan.operations, steps, 0, true);
    }
  }

  lemma AllUndid(name: Name, order: seq<Operation>, outcomes: seq<bool>)
    requires |outcomes| == |order| && Undid(name, order, outcomes)
    requires forall op :: op in order ==> Undoable(name, op.id)
    ensures AllTrue(outcomes)
  {
    hide Undoable;
    forall i | 0 <= i < |outcomes| ensures outcomes[i] { assert order[i] in order; }
  }

  /** What an interface run did can be undone: it began by creating an interface the program owns. */
  lemma InterfaceUndone(h: HostState, spec: InterfaceSpec, peers: seq<PeerSpec>, stop: Stop, op: Operation)
    requires Reached(h, InterfaceRun(spec, peers), stop)
    requires op in UndoOrder(OpsAtStop(InterfaceOps(h, spec, peers), InterfaceRun(spec, peers), stop))
    ensures Undoable(spec.name, op.id)
  {
    InterfaceStepsOf(h, "", spec, peers);
    var ops, steps := InterfaceOps(h, spec, peers), InterfaceRun(spec, peers);
    hide UndoOrder, OpsAtStop, Steps;
    UndoneOp(ops, steps, stop, op);
    assert stop.k > 0;
    assert Accepted(HostAt(h, steps, 0), steps[0].effect);
  }

  lemma RoutesGo(h: HostState, id: string, name: Name, routes: seq<Prefix>)
    requires name in h.interfaces
    ensures var plan := RoutePlan(h, id, name, routes);
      forall inject :: GoesThrough(plan, h, inject) <==> (Storable(id) && Routed(name, routes, inject))
  {
    var plan, steps := RoutePlan(h, id, name, routes), RouteSteps(name, routes);
    RouteStepsOf(h, id, name, routes);
    FreshPlanned(h, name, RouteIds(routes));
    assert !plan.TouchesInterface();
    hide PlannedOps, Goes, HostAt, Steps;
    forall k | 0 <= k < |steps|
      ensures Goes(h, plan.operations, steps, k, true) <==> (Owns(name) && routes[k].bits != 0)
    {
      RouteGoes(h, name, routes, k);
    }
    if !Routed(name, routes, None) {
      var k :| 0 <= k < |steps| && !(Owns(name) && routes[k].bits != 0);
      assert !Goes(h, plan.operations, steps, k, true);
    }
  }

  lemma RouteGoes(h: HostState, name: Name, routes: seq<Prefix>, k: nat)
    requires name in h.interfaces && k < |routes|
    ensures Goes(h, PlannedOps(h, name, RouteIds(routes)), RouteSteps(name, routes), k, true) <==>
      (Owns(name) && routes[k].bits != 0)
  {
    assert PlannedOps(h, name, RouteIds(routes))[k].id == RouteSteps(name, routes)[k].id;
    RoutesLeaveInterfaces(h, name, routes, k);
  }

  lemma RouteUndone(h: HostState, name: Name, routes: seq<Prefix>, stop: Stop, op: Operation)
    requires Reached(h, RouteSteps(name, routes), stop) && forall i :: 0 <= i < |routes| ==> routes[i].Valid()
    requires op in UndoOrder(OpsAtStop(PlannedOps(h, name, RouteIds(routes)), RouteSteps(name, routes), stop))
    ensures Undoable(name, op.id)
  {
    var ops, steps := PlannedOps(h, name, RouteIds(routes)), RouteSteps(name, routes);
    hide UndoOrder, OpsAtStop;
    UndoneOp(ops, steps, stop, op);
    assert stop.k > 0;
    assert Accepted(HostAt(h, steps, 0), steps[0].effect);
    hide HostAt, Reached;
    var i :| 0 <= i < |ops| && ops[i] == op.(status := Planned);
    assert op.id == RouteTo(routes[i]);
  }
}
