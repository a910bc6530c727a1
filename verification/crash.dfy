/**
 A process dies in the middle of a change, and the next one starts over: what
 internal/orchestrator/reconcile.go makes of every state a run of
 internal/netstate/manager.go can be cut short in.
 */
module Crashes {
  import opened Prefixes
  import opened Host
  import opened Journal
  import opened Plans
  import opened Network
  import opened Restoration
  import opened Rollback
  import opened Moments
  import opened Manager
  import opened Changes
  import opened Recovery
  import opened Wrappers

  /** What is not this program's: no run of a plan for an owned interface touches it. */
  lemma ForeignElsewhere(a: HostState, b: HostState, name: Name)
    requires Owns(name) && SameElsewhere(a, b, name)
    ensures OnlyForeign(a) == OnlyForeign(b)
  {
    ForeignCleared(a, name);
    ForeignCleared(b, name);
  }

  /** Every call of the plan is about its interface, and the first is refused unless the program owns it. */
  ghost predicate Confined(plan: Plan, h: HostState) {
    (forall j :: 0 <= j < |Steps(plan)| ==> ConfinedTo(Steps(plan)[j].effect, plan.iface.name))
    && (Steps(plan) != [] && Accepted(h, Steps(plan)[0].effect) ==> Owns(plan.iface.name))
  }

  lemma SteppedForeign(plan: Plan, h: HostState, k: nat)
    requires Confined(plan, h) && k <= |Steps(plan)| && Ran(h, Steps(plan), k)
    ensures OnlyForeign(HostAt(h, Steps(plan), k)) == OnlyForeign(h)
    ensures k > 0 ==> Owns(plan.iface.name)
  {
    if k > 0 {
      assert Accepted(HostAt(h, Steps(plan), 0), Steps(plan)[0].effect);
      RunElsewhere(h, Steps(plan), k, plan.iface.name);
      ForeignElsewhere(HostAt(h, Steps(plan), k), h, plan.iface.name);
    }
  }

  lemma UndoneForeign(x: HostState, plan: Plan, h: HostState, stop: Stop, outcomes: seq<bool>)
    requires Confined(plan, h) && Undoing(x, plan, h, stop, outcomes)
    ensures OnlyForeign(x) == OnlyForeign(h)
  {
    var ops, steps, name := Fresh(plan.operations), Steps(plan), plan.iface.name;
    var order := UndoOrder(OpsAtStop(ops, steps, stop));
    SteppedForeign(plan, h, stop.k);
    hide Confined, OnlyForeign, UndoOrder, OpsAtStop, Ran;
    if stop.k == 0 {
      NothingDone(ops, steps, stop);
    } else {
      var k :| 0 <= k <= |order| && x == Unwound(HostAt(h, steps, stop.k), name, order[..k], outcomes[..k]);
      UnwoundElsewhere(HostAt(h, steps, stop.k), name, order[..k], outcomes[..k]);
      ForeignElsewhere(x, HostAt(h, steps, stop.k), name);
    }
  }

  lemma OverUndoing(s: Snapshot, plan: Plan, h: HostState, stop: Stop, outcomes: seq<bool>)
    requires Over(s, plan, h, stop, outcomes)
    ensures Undoing(s.host, plan, h, stop, outcomes)
  {
    hide Steps, Unwound, HostAt, Ran, OpsAtStop, UndoOrder;
    var order := UndoOrder(OpsAtStop(Fresh(plan.operations), Steps(plan), stop));
    assert order[..|order|] == order && outcomes[..|order|] == outcomes;
  }

  /** No moment of a run shows a change to what is not this program's. */
  lemma MomentForeign(s: Snapshot, plan: Plan, h: HostState, end: Ending, last: bool)
    requires Confined(plan, h) && Moment(s, plan, h, end, last)
    ensures OnlyForeign(s.host) == OnlyForeign(h)
  {
    hide OnlyForeign, Confined, Undoing, HostAt, Ran, Steps, Over;
    if end.Stopped? && Over(s, plan, h, end.stop, end.outcomes) {
      OverUndoing(s, plan, h, end.stop, end.outcomes);
    }
    if end.Stopped? && Undoing(s.host, plan, h, end.stop, end.outcomes) {
      UndoneForeign(s.host, plan, h, end.stop, end.outcomes);
    } else if Stepped(s.host, h, Steps(plan)) {
      var k :| 0 <= k <= |Steps(plan)| && Ran(h, Steps(plan), k) && s.host == HostAt(h, Steps(plan), k);
      SteppedForeign(plan, h, k);
    }
  }

  lemma InterfaceConfined(h: HostState, id: string, spec: InterfaceSpec, peers: seq<PeerSpec>)
    ensures Confined(InterfacePlan(h, id, spec, peers), h)
  {
    InterfaceStepsOf(h, id, spec, peers);
    var steps := InterfaceRun(spec, peers);
    forall j | 0 <= j < |steps| ensures ConfinedTo(steps[j].effect, spec.name) { StepOf(spec, peers, j); }
  }

  lemma RoutesConfined(h: HostState, id: string, name: Name, routes: seq<Prefix>)
    ensures Confined(RoutePlan(h, id, name, routes), h)
  {
    RouteStepsOf(h, id, name, routes);
  }

  /**
   What a crash leaves when the journal will not have it looked into: a change made
   in full and committed; one being undone beside a commit that failed and yet is on
   file; or, once all is over, one undone and closed, unless it stopped as a step
   was being journaled.
   */
  ghost predicate Quiet(s: Snapshot, plan: Plan, h: HostState, end: Ending, last: bool) {
    (CommittedIn(s.journal, plan) && s.host == HostAt(h, Steps(plan), |Steps(plan)|))
    || (end.Stopped? && Undoing(s.host, plan, h, end.stop, end.outcomes) && end.lapsed && CommittedIn(s.journal, plan))
    || (end.Stopped? && last && !end.stop.Begun? && Over(s, plan, h, end.stop, end.outcomes))
  }

  /** Every step reports under an operation of the plan. */
  ghost predicate Listed(plan: Plan) {
    AllPlanned(plan.operations) && forall k :: 0 <= k < |Steps(plan)| ==> Names(plan.operations, Steps(plan)[k].id)
  }

  lemma InterfaceListed(h: HostState, id: string, spec: InterfaceSpec, peers: seq<PeerSpec>)
    ensures Listed(InterfacePlan(h, id, spec, peers))
  {
    InterfaceStepsOf(h, id, spec, peers);
    forall k | 0 <= k < |InterfaceRun(spec, peers)|
      ensures Names(InterfaceOps(h, spec, peers), InterfaceRun(spec, peers)[k].id)
    {
      InterfaceNamed(h, spec, peers, k);
    }
  }

  lemma RoutesListed(h: HostState, id: string, name: Name, routes: seq<Prefix>)
    ensures Listed(RoutePlan(h, id, name, routes))
  {
    RouteStepsOf(h, id, name, routes);
    var plan := RoutePlan(h, id, name, routes);
    forall k | 0 <= k < |routes| ensures Names(plan.operations, RouteSteps(name, routes)[k].id) {
      assert plan.operations[k].id == RouteTo(routes[k]);
    }
  }

  lemma ClosedPending(s: Snapshot, plan: Plan, stop: Stop, outcomes: seq<bool>)
    requires Listed(plan) && Closed(s, plan, stop, outcomes)
    ensures Pending(s.journal, plan.id) <==> stop.Begun?
  {
    assert Fresh(plan.operations) == plan.operations;
    hide Steps, OpsAtStop, UndoOrder, Marked;
    ClosedNeedsRecovery(plan, stop, outcomes);
  }

  /** The journal keeps quiet about a changed host exactly then. */
  lemma QuietExact(s: Snapshot, plan: Plan, h: HostState, end: Ending, last: bool)
    requires Moment(s, plan, h, end, last) && Listed(plan)
    ensures s.host == h || (!Pending(s.journal, plan.id) <==> Quiet(s, plan, h, end, last))
  {
    hide Undoing, Stepped, HostAt, Steps, Closed, LeftBehind, CommittedRecord, Listed;
    CommittedSettled(plan);
    if end.Stopped? && Closed(s, plan, end.stop, end.outcomes) {
      ClosedPending(s, plan, end.stop, end.outcomes);
    }
  }

  /** A new process on what the old one left: it recovers, and then recovers again. */
  method StartOver(s: Snapshot) returns (world: World, first: Reconciliation, second: Reconciliation, ghost between: Snapshot)
    requires Tidy(s)
    ensures fresh(world) && world.Valid() && OnlyForeign(world.host) == OnlyForeign(s.host)
    ensures Settled(s.journal) ==> world.Now() == s
    ensures first.ok ==> world.Now() == between && Settled(world.journal)
    ensures !Settled(s.journal) && (first.ok || second.ok) ==> world.host == OnlyForeign(s.host) && Settled(world.journal)
    ensures !Settled(s.journal) && first.ok ==> world.journal == ReconciledJournal(s.journal)
  {
    hide OnlyForeign, ReconciledJournal, Pending;
    world := new World(s.host, s.journal);
    var o := new Orchestrator(world);
    first := o.Recover();
    between := world.Now();
    second := o.Recover();
    NothingPending(s.journal);
    NothingPending(between.journal);
    ForeignTwice(s.host);
  }

  /** What a crash leaves: what was there before the first moment, or what a moment shows, the last one from then on. */
  function Left(before: Snapshot, moments: seq<Snapshot>, crash: nat): Snapshot {
    if crash == 0 || moments == [] then before
    else if crash < |moments| then moments[crash - 1] else moments[|moments| - 1]
  }

  lemma LeftMoment(before: Snapshot, trace: seq<Snapshot>, from: nat, crash: nat, plan: Plan, h: HostState, end: Ending)
    requires from <= |trace| && Accounted(trace, from, plan, h, end) && before.host == h
    ensures Moment(Left(before, trace[from..], crash), plan, h, end, 0 < |trace| - from <= crash)
    ensures AlwaysSafe(trace, from, plan, h) ==> Safe(Left(before, trace[from..], crash), plan, h)
    ensures Left(before, trace[from..], crash) == before || Left(before, trace[from..], crash) in trace
  {
    hide Stepped, Undoing, Over, HostAt, CommittedIn, Unfinished;
    var k := if crash < |trace| - from then crash - 1 else |trace| - from - 1;
    if crash > 0 && from < |trace| {
      assert trace[from..][k] == trace[from + k];
    }
  }

  /** A change to an interface, a crash at any of its moments, and recovery from it. */
  method CrashInEstablish(m: NetManager, id: string, spec: InterfaceSpec, peers: seq<PeerSpec>, crash: nat)
    returns (s: Snapshot, world: World, first: Reconciliation, second: Reconciliation, ghost between: Snapshot,
             ghost end: Ending, ghost last: bool)
    requires m.world.Valid()
    modifies m.world, m`inject
    ensures m.world.calm ==> (end.Committed? <==> Storable(id) && Owns(spec.name) && InterfaceSpared(peers, old(m.inject)))
    ensures end.Committed? ==>
      m.world.host == HostAt(old(m.world.host), InterfaceRun(spec, peers), |InterfaceRun(spec, peers)|)
    ensures end.Unstarted? ==> m.world.host == old(m.world.host)
    ensures old(m.world.trace) <= m.world.trace && (!end.Unstarted? ==> m.world.trace != old(m.world.trace))
    ensures m.world.trace == old(m.world.trace) || m.world.trace[|m.world.trace| - 1] == m.world.Now()
    ensures Accounted(m.world.trace, |old(m.world.trace)|, InterfacePlan(old(m.world.host), id, spec, peers), old(m.world.host), end)
    ensures s == Left(old(m.world.Now()), m.world.trace[|old(m.world.trace)|..], crash)
    ensures last <==> 0 < |m.world.trace| - |old(m.world.trace)| <= crash
    ensures s.host == old(m.world.host)
      || (!Pending(s.journal, id) <==> Quiet(s, InterfacePlan(old(m.world.host), id, spec, peers), old(m.world.host), end, last))
    ensures (end.Stopped? ==> m.world.host == old(m.world.host) && !end.lapsed) ==>
      Safe(s, InterfacePlan(old(m.world.host), id, spec, peers), old(m.world.host))
    ensures Settled(s.journal) ==> world.Now() == s
    ensures OnlyForeign(world.host) == OnlyForeign(old(m.world.host))
    ensures !Settled(s.journal) && (first.ok || second.ok) ==>
      world.host == OnlyForeign(old(m.world.host)) && Settled(world.journal)
    ensures first.ok ==> world.Now() == between && Settled(world.journal)
  {
    hide OnlyForeign, Accounted, AlwaysSafe, Confined, Quiet, Listed, Moment, Safe, HostAt;
    ghost var h := m.world.host;
    ghost var plan := InterfacePlan(h, id, spec, peers);
    var before, from := Snapshot(m.world.host, m.world.journal), |m.world.trace|;
    var _, ending := Establish(m, id, spec, peers);
    s := Left(before, m.world.trace[from..], crash);
    end, last := ending, 0 < |m.world.trace| - from <= crash;
    LeftMoment(before, m.world.trace, from, crash, plan, h, end);
    InterfaceListed(h, id, spec, peers);
    QuietExact(s, plan, h, end, last);
    InterfaceConfined(h, id, spec, peers);
    MomentForeign(s, plan, h, end, last);
    world, first, second, between := StartOver(s);
  }

  /** A change to the routes of an interface, a crash at any of its moments, and recovery from it. */
  method CrashInRoutes(m: NetManager, id: string, name: Name, routes: seq<Prefix>, crash: nat)
    returns (s: Snapshot, world: World, first: Reconciliation, second: Reconciliation, ghost between: Snapshot,
             ghost end: Ending, ghost last: bool)
    requires m.world.Valid()
    modifies m.world, m`inject
    ensures m.world.calm ==> (end.Committed? <==>
      Storable(id) && name in old(m.world.host).interfaces && Routed(name, routes, old(m.inject)))
    ensures end.Committed? ==>
      m.world.host == old(m.world.host).(routes := old(m.world.host).routes + Added(name, routes, |routes|))
    ensures end.Unstarted? ==> m.world.host == old(m.world.host)
    ensures old(m.world.trace) <= m.world.trace && (!end.Unstarted? ==> m.world.trace != old(m.world.trace))
    ensures m.world.trace == old(m.world.trace) || m.world.trace[|m.world.trace| - 1] == m.world.Now()
    ensures Accounted(m.world.trace, |old(m.world.trace)|, RoutePlan(old(m.world.host), id, name, routes), old(m.world.host), end)
    ensures s == Left(old(m.world.Now()), m.world.trace[|old(m.world.trace)|..], crash)
    ensures last <==> 0 < |m.world.trace| - |old(m.world.trace)| <= crash
    ensures s.host == old(m.world.host)
      || (!Pending(s.journal, id) <==> Quiet(s, RoutePlan(old(m.world.host), id, name, routes), old(m.world.host), end, last))
    ensures (end.Stopped? ==> m.world.host == old(m.world.host) && !end.lapsed) ==>
      Safe(s, RoutePlan(old(m.world.host), id, name, routes), old(m.world.host))
    ensures Settled(s.journal) ==> world.Now() == s
    ensures OnlyForeign(world.host) == OnlyForeign(old(m.world.host))
    ensures !Settled(s.journal) && (first.ok || second.ok) ==>
      world.host == OnlyForeign(old(m.world.host)) && Settled(world.journal)
    ensures first.ok ==> world.Now() == between && Settled(world.journal)
  {
    hide OnlyForeign, Accounted, AlwaysSafe, Confined, Quiet, Listed, Moment, Safe, HostAt;
    ghost var h := m.world.host;
    ghost var plan := RoutePlan(h, id, name, routes);
    var before, from := Snapshot(m.world.host, m.world.journal), |m.world.trace|;
    var _, ending := InstallRoutes(m, id, name, routes);
    s := Left(before, m.world.trace[from..], crash);
    end, last := ending, 0 < |m.world.trace| - from <= crash;
    LeftMoment(before, m.world.trace, from, crash, plan, h, end);
    RoutesListed(h, id, name, routes);
    QuietExact(s, plan, h, end, last);
    RoutesConfined(h, id, name, routes);
    MomentForeign(s, plan, h, end, last);
    world, first, second, between := StartOver(s);
  }

  /**
   A crash that goes unnoticed: two new routes were installed, the commit failed and
   yet is on file, and only the second route has been taken out again.
   */
  lemma LapsedUnnoticed(h: HostState, id: string, name: Name, p: Prefix, q: Prefix)
    requires Sane(h) && name in h.interfaces && Owns(name) && p.bits != 0 && q.bits != 0
    requires !HasRoute(h, name, p) && !HasRoute(h, name, q) && Canonical(p) != Canonical(q)
    ensures var plan := RoutePlan(h, id, name, [p, q]);
      var s := Snapshot(h.(routes := h.routes + {(name, Canonical(p))}), map[id := CommittedRecord(plan)]);
      Moment(s, plan, h, Ending.Stopped(Done(2), [true, true], true), false)
      && s.host != h && s.host != HostAt(h, Steps(plan), 2) && Settled(s.journal)
  {
    var plan := RoutePlan(h, id, name, [p, q]);
    RouteStepsOf(h, id, name, [p, q]);
    RoutesRan(h, name, [p, q], 2);
    TwoUndone(h, id, name, p, q);
    HalfUndone(h, name, p, q);
    CommittedSettled(plan);
    hide Steps, HostAt, Ran, Unwound, UndoOrder, OpsAtStop, CommittedRecord, RoutePlan, Canonical;
    var order := UndoOrder(OpsAtStop(Fresh(plan.operations), Steps(plan), Done(2)));
    assert order[..1] == [order[0]] && [true, true][..1] == [true];
  }

  lemma HalfUndone(h: HostState, name: Name, p: Prefix, q: Prefix)
    requires name in h.interfaces && Owns(name) && p.bits != 0 && q.bits != 0
    requires !HasRoute(h, name, p) && !HasRoute(h, name, q) && Canonical(p) != Canonical(q)
    ensures var now := HostAt(h, RouteSteps(name, [p, q]), 2);
      var x := Unwound(now, name, [Operation(RouteTo(q), false, Applied)], [true]);
      x == h.(routes := h.routes + {(name, Canonical(p))}) && x != h && x != now
  {
    var routes, op := [p, q], Operation(RouteTo(q), false, Applied);
    RoutesRan(h, name, routes, 2);
    RoutesAdded(h, name, routes, 2);
    var now := HostAt(h, RouteSteps(name, routes), 2);
    hide HostAt, Ran, RouteSteps, Canonical;
    assert (name, Canonical(routes[0])) in Added(name, routes, 2) && (name, Canonical(routes[1])) in Added(name, routes, 2);
    assert [op][..0] == [];
    assert Unwound(now, name, [op], [true]) == Performed(now, RemoveRoute(name, q));
    assert h.routes + Added(name, routes, 2) - {(name, Canonical(q))} == h.routes + {(name, Canonical(p))};
  }

  lemma TwoUndone(h: HostState, id: string, name: Name, p: Prefix, q: Prefix)
    requires !HasRoute(h, name, p) && !HasRoute(h, name, q) && p != q
    ensures var ops := Fresh(RoutePlan(h, id, name, [p, q]).operations);
      UndoOrder(OpsAtStop(ops, RouteSteps(name, [p, q]), Done(2))) ==
      [Operation(RouteTo(q), false, Applied), Operation(RouteTo(p), false, Applied)]
  {
    var ops, steps := Fresh(RoutePlan(h, id, name, [p, q]).operations), RouteSteps(name, [p, q]);
    assert ops == [Operation(RouteTo(p), false, Planned), Operation(RouteTo(q), false, Planned)];
    var first := [Operation(RouteTo(p), false, Applied), Operation(RouteTo(q), false, Planned)];
    assert OpsAt(ops, steps, 0) == ops && OpsAt(ops, steps, 1) == first;
    var done := [Operation(RouteTo(p), false, Applied), Operation(RouteTo(q), false, Applied)];
    assert first[1..] == [first[1]] && steps[1].id == RouteTo(q);
    assert SetStatus([first[1]], RouteTo(q), Applied) == [done[1]];
    assert SetStatus(first, RouteTo(q), Applied) == [first[0]] + [done[1]];
    assert OpsAt(ops, steps, 2) == done;
    assert done[..1] == [done[0]] && done[..1][..0] == [];
    assert AppliedOf([done[0]]) == AppliedOf([]) + [done[0]];
    assert AppliedOf(done) == AppliedOf(done[..1]) + [done[1]];
    assert AppliedOf(done) == done;
  }
}
