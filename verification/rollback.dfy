/**
 When a stopped plan is undone exactly. The three theorems cover the two kinds of
 plan the manager makes: an interface that was absent, one that was there, and
 routes on an existing interface.
 */
module Rollback {
  import opened Prefixes
  import opened Host
  import opened Journal
  import opened Plans

  ghost function GonePeers(order: seq<Operation>): set<PeerKey> {
    set op | op in order && !op.existed && op.id.PeerOf? :: op.id.key
  }

  ghost function GoneRoutes(order: seq<Operation>): set<Prefix> {
    set op | op in order && !op.existed && op.id.RouteTo? :: Canonical(op.id.prefix)
  }

  function WithoutPeers(h: HostState, name: Name, keys: set<PeerKey>): HostState {
    if name !in h.interfaces then h
    else var i := h.interfaces[name]; WithInterface(h, name, i.(peers := i.peers - keys))
  }

  ghost function WithoutRoutes(h: HostState, name: Name, prefixes: set<Prefix>): HostState {
    h.(routes := set r | r in h.routes && !(r.0 == name && r.1 in prefixes))
  }

  ghost function Stripped(h: HostState, name: Name, keys: set<PeerKey>, prefixes: set<Prefix>): HostState {
    WithoutRoutes(WithoutPeers(h, name, keys), name, prefixes)
  }

  lemma GoneStep(order: seq<Operation>, n: nat)
    requires |order| == n + 1
    ensures GonePeers(order) ==
      GonePeers(order[..n]) + (if !order[n].existed && order[n].id.PeerOf? then {order[n].id.key} else {})
    ensures GoneRoutes(order) ==
      GoneRoutes(order[..n]) +
      (if !order[n].existed && order[n].id.RouteTo? then {Canonical(order[n].id.prefix)} else {})
  {
    assert order == order[..n] + [order[n]];
  }

  lemma StripPeer(h: HostState, name: Name, keys: set<PeerKey>, prefixes: set<Prefix>, key: PeerKey)
    ensures Performed(Stripped(h, name, keys, prefixes), RemovePeer(name, key)) ==
      Stripped(h, name, keys + {key}, prefixes)
  {
    if name in h.interfaces {
      assert h.interfaces[name].peers - keys - {key} == h.interfaces[name].peers - (keys + {key});
    }
  }

  lemma StripRoute(h: HostState, name: Name, keys: set<PeerKey>, prefixes: set<Prefix>, prefix: Prefix)
    requires Owns(name)
    ensures Performed(Stripped(h, name, keys, prefixes), RemoveRoute(name, prefix)) ==
      Stripped(h, name, keys, prefixes + {Canonical(prefix)})
  {
  }

  lemma StripNothing(h: HostState, name: Name)
    ensures Stripped(h, name, {}, {}) == h
  {
    if name in h.interfaces {
      assert h.interfaces[name].peers - {} == h.interfaces[name].peers;
    }
    assert (set r | r in h.routes && !(r.0 == name && r.1 in {})) == h.routes;
  }

  /** Short of a new interface, undoing takes away exactly the new peers and routes it names. */
  lemma {:induction false} UnwoundStrips(h: HostState, name: Name, order: seq<Operation>, outcomes: seq<bool>)
    requires |outcomes| == |order| && AllTrue(outcomes) && Owns(name)
    requires forall op :: op in order && op.id.Create? ==> op.existed
    ensures Unwound(h, name, order, outcomes) == Stripped(h, name, GonePeers(order), GoneRoutes(order))
    decreases |order|
  {
    if order == [] {
      assert GonePeers(order) == {} && GoneRoutes(order) == {};
      StripNothing(h, name);
    } else {
      var n := |order| - 1;
      var op := order[n];
      var keys, prefixes := GonePeers(order[..n]), GoneRoutes(order[..n]);
      UnwoundStrips(h, name, order[..n], outcomes[..n]);
      GoneStep(order, n);
      assert op in order;
      if op.existed || op.id.Create? || op.id.Configure? || op.id.LinkUp? || op.id.Address? {
        assert GonePeers(order) == keys && GoneRoutes(order) == prefixes;
      } else if op.id.PeerOf? {
        StripPeer(h, name, keys, prefixes, op.id.key);
        assert GoneRoutes(order) == prefixes;
      } else {
        StripRoute(h, name, keys, prefixes, op.id.prefix);
        assert GonePeers(order) == keys;
      }
    }
  }

  lemma {:induction false} NothingDone(ops: seq<Operation>, steps: seq<Step>, stop: Stop)
    requires stop.In(steps) && AllPlanned(ops) && stop.k == 0
    ensures UndoOrder(OpsAtStop(ops, steps, stop)) == []
  {
    var order := UndoOrder(OpsAtStop(ops, steps, stop));
    if order != [] {
      UndoneOp(ops, steps, stop, order[0]);
    }
  }

  // Routes

  ghost function Added(name: Name, routes: seq<Prefix>, k: nat): set<(Name, Prefix)>
    requires k <= |routes|
  {
    set j | 0 <= j < k :: (name, Canonical(routes[j]))
  }

  lemma RouteStepsOf(h: HostState, id: string, name: Name, routes: seq<Prefix>)
    ensures Steps(RoutePlan(h, id, name, routes)) == RouteSteps(name, routes)
    ensures AllPlanned(RoutePlan(h, id, name, routes).operations)
  {
    var p := RoutePlan(h, id, name, routes);
    assert !p.TouchesInterface();
    assert PeerSteps(name, []) == [];
    assert [] + [] + RouteSteps(name, routes) == RouteSteps(name, routes);
  }

  lemma AddedMore(held: set<(Name, Prefix)>, name: Name, routes: seq<Prefix>, k: nat)
    requires 0 < k <= |routes|
    ensures held + Added(name, routes, k - 1) + {(name, Canonical(routes[k - 1]))} == held + Added(name, routes, k)
  {
    hide Canonical;
  }

  lemma {:induction false} RoutesAdded(h: HostState, name: Name, routes: seq<Prefix>, k: nat)
    requires k <= |routes| && Ran(h, RouteSteps(name, routes), k)
    ensures HostAt(h, RouteSteps(name, routes), k) == h.(routes := h.routes + Added(name, routes, k))
    ensures k > 0 ==> Owns(name)
  {
    var steps := RouteSteps(name, routes);
    if k == 0 {
      assert h.routes + Added(name, routes, 0) == h.routes;
    } else {
      RoutesAdded(h, name, routes, k - 1);
      hide Added;
      assert steps[k - 1].effect == Effect.AddRoute(name, routes[k - 1]);
      AddedMore(h.routes, name, routes, k);
    }
  }

  /**
   Route k is a new one that an earlier route of the plan already installed, and
   no other spelling of it is undone: marking it again loses the record that the
   first one was applied.
   */
  ghost predicate Stranded(h: HostState, name: Name, routes: seq<Prefix>, k: nat)
    requires k < |routes|
  {
    !HasRoute(h, name, routes[k]) && routes[k] in routes[..k]
    && forall j :: 0 <= j < k && Canonical(routes[j]) == Canonical(routes[k]) ==> routes[j] == routes[k]
  }

  /** A stopped run took c out again: it is new, and an operation other than the one at the stop names it. */
  ghost predicate TakenOut(h: HostState, name: Name, routes: seq<Prefix>, stop: Stop, c: Prefix)
    requires stop.In(RouteSteps(name, routes))
  {
    (name, c) !in h.routes
    && exists j :: 0 <= j < stop.k && Canonical(routes[j]) == c && (stop.Done? || routes[j] != routes[stop.k])
  }

  lemma RouteGone(h: HostState, name: Name, routes: seq<Prefix>, stop: Stop, c: Prefix)
    requires stop.In(RouteSteps(name, routes))
    ensures var ops := PlannedOps(h, name, RouteIds(routes));
      (c in GoneRoutes(UndoOrder(OpsAtStop(ops, RouteSteps(name, routes), stop)))) <==> TakenOut(h, name, routes, stop, c)
  {
    var ops, steps := PlannedOps(h, name, RouteIds(routes)), RouteSteps(name, routes);
    var order := UndoOrder(OpsAtStop(ops, steps, stop));
    assert AllPlanned(ops);
    if c in GoneRoutes(order) {
      var op :| op in order && !op.existed && op.id.RouteTo? && Canonical(op.id.prefix) == c;
      UndoneOp(ops, steps, stop, op);
      var j :| 0 <= j < stop.k && steps[j].id == op.id;
      assert Canonical(routes[j]) == c && (stop.Done? || routes[j] != routes[stop.k]);
    }
    if (name, c) !in h.routes {
      forall j | 0 <= j < stop.k && Canonical(routes[j]) == c && (stop.Done? || routes[j] != routes[stop.k])
        ensures c in GoneRoutes(order)
      {
        assert steps[j].id == ops[j].id == RouteTo(routes[j]);
        assert StepNames(steps, stop.k, ops[j].id);
        var op := OpUndone(ops, steps, stop, j);
        assert !op.existed;
      }
    }
  }

  /** A stopped route plan leaves the host as it was exactly when it does not stop at a stranded repeat. */
  lemma RouteRollback(h: HostState, id: string, name: Name, routes: seq<Prefix>, stop: Stop)
    requires Sane(h) && name in h.interfaces && Reached(h, Steps(RoutePlan(h, id, name, routes)), stop)
    ensures Steps(RoutePlan(h, id, name, routes)) == RouteSteps(name, routes)
    ensures (RolledBackHost(h, RoutePlan(h, id, name, routes), stop) == h) <==>
      (stop.Done? || !Stranded(h, name, routes, stop.k))
  {
    RouteStepsOf(h, id, name, routes);
    var ops, steps := PlannedOps(h, name, RouteIds(routes)), RouteSteps(name, routes);
    var order := UndoOrder(OpsAtStop(ops, steps, stop));
    RoutesAdded(h, name, routes, stop.k);
    if stop.k == 0 {
      NothingDone(ops, steps, stop);
      assert h.routes + Added(name, routes, 0) == h.routes;
    } else {
      RoutesUnwound(h, name, routes, stop);
      RoutesBalance(h, name, routes, stop, GoneRoutes(order));
    }
  }

  lemma RoutesUnwound(h: HostState, name: Name, routes: seq<Prefix>, stop: Stop)
    requires stop.In(RouteSteps(name, routes)) && Owns(name)
    requires HostAt(h, RouteSteps(name, routes), stop.k) == h.(routes := h.routes + Added(name, routes, stop.k))
    ensures var order := UndoOrder(OpsAtStop(PlannedOps(h, name, RouteIds(routes)), RouteSteps(name, routes), stop));
      Unwound(HostAt(h, RouteSteps(name, routes), stop.k), name, order, Trues(|order|)) ==
      WithoutRoutes(h.(routes := h.routes + Added(name, routes, stop.k)), name, GoneRoutes(order))
    ensures var ops := PlannedOps(h, name, RouteIds(routes));
      forall c :: (c in GoneRoutes(UndoOrder(OpsAtStop(ops, RouteSteps(name, routes), stop)))) <==> TakenOut(h, name, routes, stop, c)
  {
    var ops, steps := PlannedOps(h, name, RouteIds(routes)), RouteSteps(name, routes);
    var order := UndoOrder(OpsAtStop(ops, steps, stop));
    var now := HostAt(h, steps, stop.k);
    forall op | op in order ensures op.id.RouteTo? {
      UndoneOp(ops, steps, stop, op);
    }
    UnwoundStrips(now, name, order, Trues(|order|));
    assert GonePeers(order) == {};
    assert WithoutPeers(now, name, {}) == now by {
      if name in now.interfaces {
        assert now.interfaces[name].peers - {} == now.interfaces[name].peers;
      }
    }
    forall c
      ensures (c in GoneRoutes(order)) <==> TakenOut(h, name, routes, stop, c)
    {
      RouteGone(h, name, routes, stop, c);
    }
  }

  lemma RoutesBalance(h: HostState, name: Name, routes: seq<Prefix>, stop: Stop, gone: set<Prefix>)
    requires stop.In(RouteSteps(name, routes))
    requires forall c :: (c in gone) <==> TakenOut(h, name, routes, stop, c)
    ensures (WithoutRoutes(h.(routes := h.routes + Added(name, routes, stop.k)), name, gone) == h) <==>
      (stop.Done? || !Stranded(h, name, routes, stop.k))
  {
    var left := WithoutRoutes(h.(routes := h.routes + Added(name, routes, stop.k)), name, gone);
    if !stop.Done? && Stranded(h, name, routes, stop.k) {
      var c := Canonical(routes[stop.k]);
      var j :| 0 <= j < stop.k && routes[..stop.k][j] == routes[stop.k];
      assert (name, Canonical(routes[j])) in Added(name, routes, stop.k);
      assert (name, c) in left.routes && (name, c) !in h.routes;
    } else {
      forall j | 0 <= j < stop.k
        ensures HasRoute(h, name, routes[j]) || Canonical(routes[j]) in gone
      {
        if stop.Done? || routes[j] != routes[stop.k] || HasRoute(h, name, routes[j]) {
        } else {
          assert routes[..stop.k][j] == routes[stop.k];
          var m :| 0 <= m < stop.k && Canonical(routes[m]) == Canonical(routes[stop.k]) && routes[m] != routes[stop.k];
        }
      }
      assert left.routes == h.routes;
    }
  }

  // Interfaces

  function InterfaceRun(spec: InterfaceSpec, peers: seq<PeerSpec>): seq<Step> {
    InterfaceSteps(spec) + PeerSteps(spec.name, peers)
  }

  function InterfaceOps(h: HostState, spec: InterfaceSpec, peers: seq<PeerSpec>): seq<Operation> {
    PlannedOps(h, spec.name, InterfaceIds(spec, peers))
  }

  lemma InterfaceStepsOf(h: HostState, id: string, spec: InterfaceSpec, peers: seq<PeerSpec>)
    ensures Steps(InterfacePlan(h, id, spec, peers)) == InterfaceRun(spec, peers)
    ensures AllPlanned(InterfaceOps(h, spec, peers))
    ensures InterfaceOps(h, spec, peers)[0].id == Create(spec.name)
  {
    var p := InterfacePlan(h, id, spec, peers);
    assert p.operations[0].id.Create?;
    assert RouteSteps(spec.name, []) == [];
    assert InterfaceRun(spec, peers) + [] == InterfaceRun(spec, peers);
  }

  predicate ConfinedTo(e: Effect, name: Name) {
    match e
    case Nothing => true
    case Ensure(spec) => spec.name == name
    case ApplyPeer(iface, _) => iface == name
    case AddRoute(iface, _) => iface == name
    case RemovePeer(iface, _) => iface == name
    case RemoveInterface(iface) => iface == name
    case RemoveRoute(iface, _) => iface == name
  }

  lemma ConfinedClears(h: HostState, e: Effect, name: Name)
    requires ConfinedTo(e, name)
    ensures Cleared(Performed(h, e), name) == Cleared(h, name)
  {
    var k := Performed(h, e);
    assert k.interfaces - {name} == h.interfaces - {name};
  }

  lemma {:induction false} RunElsewhere(h: HostState, steps: seq<Step>, k: nat, name: Name)
    requires k <= |steps| && forall j :: 0 <= j < k ==> ConfinedTo(steps[j].effect, name)
    ensures Cleared(HostAt(h, steps, k), name) == Cleared(h, name)
  {
    if k > 0 {
      RunElsewhere(h, steps, k - 1, name);
      ConfinedClears(HostAt(h, steps, k - 1), steps[k - 1].effect, name);
    }
  }

  lemma {:induction false} UnwoundElsewhere(h: HostState, name: Name, order: seq<Operation>, outcomes: seq<bool>)
    requires |outcomes| == |order|
    ensures Cleared(Unwound(h, name, order, outcomes), name) == Cleared(h, name)
    decreases |order|
  {
    if order != [] {
      var n := |order| - 1;
      UnwoundElsewhere(h, name, order[..n], outcomes[..n]);
      ConfinedClears(Unwound(h, name, order[..n], outcomes[..n]), UndoEffect(name, order[n].id), name);
    }
  }

  lemma CreateUndoneLast(h: HostState, spec: InterfaceSpec, peers: seq<PeerSpec>, stop: Stop)
    requires stop.In(InterfaceRun(spec, peers)) && stop.k > 0
    ensures var order := UndoOrder(OpsAtStop(InterfaceOps(h, spec, peers), InterfaceRun(spec, peers), stop));
      order != [] && order[|order| - 1].id == Create(spec.name)
      && order[|order| - 1].existed == (spec.name in h.interfaces)
  {
    var ops, steps := InterfaceOps(h, spec, peers), InterfaceRun(spec, peers);
    InterfaceStepsOf(h, "", spec, peers);
    assert steps[0].id == ops[0].id;
    assert forall j :: 0 < j < |steps| ==> !steps[j].id.Create?;
    StopExact(ops, steps, stop, 0);
    assert StepNames(steps, stop.k, ops[0].id);
    AppliedOfFirst(OpsAtStop(ops, steps, stop));
  }

  /** An interface plan stopped anywhere leaves a host that had no such interface exactly as it was. */
  lemma AbsentRollback(h: HostState, id: string, spec: InterfaceSpec, peers: seq<PeerSpec>, stop: Stop)
    requires Sane(h) && spec.name !in h.interfaces
    requires Reached(h, Steps(InterfacePlan(h, id, spec, peers)), stop)
    ensures RolledBackHost(h, InterfacePlan(h, id, spec, peers), stop) == h
  {
    InterfaceStepsOf(h, id, spec, peers);
    var ops, steps := InterfaceOps(h, spec, peers), InterfaceRun(spec, peers);
    var order := UndoOrder(OpsAtStop(ops, steps, stop));
    if stop.k == 0 {
      NothingDone(ops, steps, stop);
    } else {
      assert Accepted(HostAt(h, steps, 0), steps[0].effect);
      CreateUndoneLast(h, spec, peers, stop);
      RunElsewhere(h, steps, stop.k, spec.name);
      var n := |order| - 1;
      var outcomes := Trues(|order|);
      UnwoundElsewhere(HostAt(h, steps, stop.k), spec.name, order[..n], outcomes[..n]);
      ClearedAbsent(h, spec.name);
    }
  }

  lemma ClearedAbsent(h: HostState, name: Name)
    requires Sane(h) && name !in h.interfaces
    ensures Cleared(h, name) == h
  {
    assert h.interfaces - {name} == h.interfaces;
    assert (set r | r in h.routes && r.0 != name) == h.routes;
  }

  ghost function KeysDone(steps: seq<Step>, k: nat): set<PeerKey>
    requires k <= |steps|
  {
    set j | 0 <= j < k && steps[j].id.PeerOf? :: steps[j].id.key
  }

  /** How an interface changes: the plan's own peers may, no other peer does. */
  ghost predicate PeersGrew(h: HostState, now: HostState, name: Name, keys: set<PeerKey>) {
    name in h.interfaces && name in now.interfaces && now.routes == h.routes
    && PeersOf(now, name) == PeersOf(h, name) + keys
    && forall key :: key in PeersOf(h, name) && key !in keys ==>
      now.interfaces[name].peers[key] == h.interfaces[name].peers[key]
  }

  lemma {:induction false} PeersDone(h: HostState, spec: InterfaceSpec, peers: seq<PeerSpec>, k: nat)
    requires spec.name in h.interfaces && k <= |InterfaceRun(spec, peers)| && Ran(h, InterfaceRun(spec, peers), k)
    ensures PeersGrew(h, HostAt(h, InterfaceRun(spec, peers), k), spec.name, KeysDone(InterfaceRun(spec, peers), k))
  {
    var steps := InterfaceRun(spec, peers);
    if k == 0 {
      assert PeersOf(h, spec.name) + {} == PeersOf(h, spec.name);
    } else {
      PeersDone(h, spec, peers, k - 1);
      var step := steps[k - 1];
      KeysMore(steps, k);
      assert Accepted(HostAt(h, steps, k - 1), step.effect);
      StepOf(spec, peers, k - 1);
      hide PeersGrew, KeysDone, InterfaceRun;
      if step.id.PeerOf? {
        PeerGrows(h, HostAt(h, steps, k - 1), spec.name, KeysDone(steps, k - 1), step.effect.peer);
      } else {
        NoPeerGrows(h, HostAt(h, steps, k - 1), spec, KeysDone(steps, k - 1), step.effect);
        assert KeysDone(steps, k - 1) + {} == KeysDone(steps, k - 1);
      }
    }
  }

  lemma KeysMore(steps: seq<Step>, k: nat)
    requires 0 < k <= |steps|
    ensures KeysDone(steps, k) ==
      KeysDone(steps, k - 1) + (if steps[k - 1].id.PeerOf? then {steps[k - 1].id.key} else {})
  {
  }

  lemma StepOf(spec: InterfaceSpec, peers: seq<PeerSpec>, j: nat)
    requires j < |InterfaceRun(spec, peers)|
    ensures var step := InterfaceRun(spec, peers)[j];
      if step.id.PeerOf?
      then step.effect.ApplyPeer? && step.effect.iface == spec.name && step.effect.peer.key == step.id.key
      else step.effect == Nothing || step.effect == Ensure(spec)
  {
  }

  lemma PeerGrows(h: HostState, now: HostState, name: Name, keys: set<PeerKey>, peer: PeerSpec)
    requires PeersGrew(h, now, name, keys)
    ensures Accepted(now, Effect.ApplyPeer(name, peer))
    ensures PeersGrew(h, Perform(now, Effect.ApplyPeer(name, peer)), name, keys + {peer.key})
  {
  }

  lemma NoPeerGrows(h: HostState, now: HostState, spec: InterfaceSpec, keys: set<PeerKey>, effect: Effect)
    requires PeersGrew(h, now, spec.name, keys) && Accepted(now, effect)
    requires effect == Nothing || effect == Ensure(spec)
    ensures PeersGrew(h, Perform(now, effect), spec.name, keys)
  {
  }

  /** The stop is at a new peer that an earlier entry of the plan already added. */
  ghost predicate PeerStranded(h: HostState, spec: InterfaceSpec, peers: seq<PeerSpec>, stop: Stop) {
    var m := stop.k - 3 - |spec.addresses|;
    !stop.Done? && 0 <= m < |peers| && peers[m].key !in PeersOf(h, spec.name)
    && exists j :: 0 <= j < m && peers[j].key == peers[m].key
  }

  lemma PeerGoneFrom(ops: seq<Operation>, steps: seq<Step>, stop: Stop, key: PeerKey, existed: bool)
    requires stop.In(steps) && AllPlanned(ops)
    requires forall i :: 0 <= i < |ops| && ops[i].id == PeerOf(key) ==> ops[i].existed == existed
    requires Undoes(steps, stop, PeerOf(key)) ==> exists i :: 0 <= i < |ops| && ops[i].id == PeerOf(key)
    ensures (key in GonePeers(UndoOrder(OpsAtStop(ops, steps, stop)))) <==>
      (!existed && Undoes(steps, stop, PeerOf(key)))
  {
    var order := UndoOrder(OpsAtStop(ops, steps, stop));
    if key in GonePeers(order) {
      var op :| op in order && !op.existed && op.id == PeerOf(key);
      UndoneOp(ops, steps, stop, op);
    }
    if !existed && Undoes(steps, stop, PeerOf(key)) {
      var i :| 0 <= i < |ops| && ops[i].id == PeerOf(key);
      var op := OpUndone(ops, steps, stop, i);
    }
  }

  lemma PeerGone(h: HostState, spec: InterfaceSpec, peers: seq<PeerSpec>, stop: Stop, key: PeerKey)
    requires stop.In(InterfaceRun(spec, peers))
    ensures var steps := InterfaceRun(spec, peers);
      (key in GonePeers(UndoOrder(OpsAtStop(InterfaceOps(h, spec, peers), steps, stop)))) <==>
      (key !in PeersOf(h, spec.name) && key in KeysDone(steps, stop.k)
        && (stop.Done? || steps[stop.k].id != PeerOf(key)))
  {
    hide Unwound, OpsAtStop, Steps;
    var ops, steps := InterfaceOps(h, spec, peers), InterfaceRun(spec, peers);
    InterfaceStepsOf(h, "", spec, peers);
    if StepNames(steps, stop.k, PeerOf(key)) {
      var j :| 0 <= j < stop.k && steps[j].id == PeerOf(key);
      assert ops[j].id == PeerOf(key);
    }
    PeerGoneFrom(ops, steps, stop, key, key in PeersOf(h, spec.name));
  }

  /**
   On an interface that was there, a stopped plan removes nothing that existed and
   touches nothing elsewhere; the interface has the peers it had exactly when the
   plan does not stop at a stranded repeat of a peer.
   */
  lemma PresentRollback(h: HostState, id: string, spec: InterfaceSpec, peers: seq<PeerSpec>, stop: Stop)
    requires Sane(h) && spec.name in h.interfaces
    requires Reached(h, Steps(InterfacePlan(h, id, spec, peers)), stop)
    ensures var left := RolledBackHost(h, InterfacePlan(h, id, spec, peers), stop);
      SameElsewhere(left, h, spec.name) && left.routes == h.routes && spec.name in left.interfaces
      && PeersOf(h, spec.name) <= PeersOf(left, spec.name)
    ensures (PeersOf(RolledBackHost(h, InterfacePlan(h, id, spec, peers), stop), spec.name) == PeersOf(h, spec.name))
      <==> !PeerStranded(h, spec, peers, stop)
  {
    InterfaceStepsOf(h, id, spec, peers);
    var ops, steps, name := InterfaceOps(h, spec, peers), InterfaceRun(spec, peers), spec.name;
    var order := UndoOrder(OpsAtStop(ops, steps, stop));
    var now := HostAt(h, steps, stop.k);
    if stop.k == 0 {
      NothingDone(ops, steps, stop);
    } else {
      assert Accepted(HostAt(h, steps, 0), steps[0].effect);
      RunElsewhere(h, steps, stop.k, name);
      UnwoundElsewhere(now, name, order, Trues(|order|));
      OnlyPeersGone(h, spec, peers, stop);
      UnwoundStrips(now, name, order, Trues(|order|));
      PeersDone(h, spec, peers, stop.k);
      hide Unwound, UndoOrder, OpsAtStop, HostAt, Ran, GonePeers, GoneRoutes;
      StrippedPeers(now, name, GonePeers(order));
      forall key
        ensures (key in GonePeers(order)) <==>
          (key !in PeersOf(h, name) && key in KeysDone(steps, stop.k) && (stop.Done? || steps[stop.k].id != PeerOf(key)))
      {
        PeerGone(h, spec, peers, stop, key);
      }
      PeerBalance(h, spec, peers, stop, GonePeers(order));
    }
  }

  lemma OnlyPeersGone(h: HostState, spec: InterfaceSpec, peers: seq<PeerSpec>, stop: Stop)
    requires stop.In(InterfaceRun(spec, peers)) && spec.name in h.interfaces
    ensures var order := UndoOrder(OpsAtStop(InterfaceOps(h, spec, peers), InterfaceRun(spec, peers), stop));
      GoneRoutes(order) == {} && forall op :: op in order && op.id.Create? ==> op.existed
  {
    InterfaceStepsOf(h, "", spec, peers);
    var ops, steps := InterfaceOps(h, spec, peers), InterfaceRun(spec, peers);
    hide OpsAtStop, UndoOrder, Steps;
    forall op | op in UndoOrder(OpsAtStop(ops, steps, stop)) ensures !op.id.RouteTo? && (op.id.Create? ==> op.existed) {
      UndoneOp(ops, steps, stop, op);
    }
  }

  lemma StrippedPeers(now: HostState, name: Name, gone: set<PeerKey>)
    requires name in now.interfaces
    ensures var left := Stripped(now, name, gone, {});
      name in left.interfaces && left.routes == now.routes && PeersOf(left, name) == PeersOf(now, name) - gone
  {
  }

  lemma PeerBalance(h: HostState, spec: InterfaceSpec, peers: seq<PeerSpec>, stop: Stop, gone: set<PeerKey>)
    requires stop.In(InterfaceRun(spec, peers))
    requires forall key :: (key in gone) <==>
      (key !in PeersOf(h, spec.name) && key in KeysDone(InterfaceRun(spec, peers), stop.k)
        && (stop.Done? || InterfaceRun(spec, peers)[stop.k].id != PeerOf(key)))
    ensures PeersOf(h, spec.name) <= PeersOf(h, spec.name) + KeysDone(InterfaceRun(spec, peers), stop.k) - gone
    ensures (PeersOf(h, spec.name) + KeysDone(InterfaceRun(spec, peers), stop.k) - gone == PeersOf(h, spec.name))
      <==> !PeerStranded(h, spec, peers, stop)
  {
    StrandedKey(h, spec, peers, stop);
    hide KeysDone, InterfaceRun, PeersOf, PeerStranded;
    var held, done := PeersOf(h, spec.name), KeysDone(InterfaceRun(spec, peers), stop.k);
    if !stop.Done? && InterfaceRun(spec, peers)[stop.k].id.PeerOf? {
      var key := InterfaceRun(spec, peers)[stop.k].id.key;
      assert key in done && key !in held ==> key in held + done - gone;
    }
  }

  lemma StrandedKey(h: HostState, spec: InterfaceSpec, peers: seq<PeerSpec>, stop: Stop)
    requires stop.In(InterfaceRun(spec, peers))
    ensures var steps := InterfaceRun(spec, peers);
      PeerStranded(h, spec, peers, stop) <==>
      (!stop.Done? && steps[stop.k].id.PeerOf? && steps[stop.k].id.key !in PeersOf(h, spec.name)
        && steps[stop.k].id.key in KeysDone(steps, stop.k))
  {
    var steps := InterfaceRun(spec, peers);
    if !stop.Done? && steps[stop.k].id.PeerOf? {
      var m := stop.k - 3 - |spec.addresses|;
      assert 0 <= m < |peers| && steps[stop.k].id.key == peers[m].key;
      if j :| 0 <= j < m && peers[j].key == peers[m].key {
        assert steps[j + 3 + |spec.addresses|].id == PeerOf(peers[m].key);
      }
      if steps[stop.k].id.key in KeysDone(steps, stop.k) {
        var j :| 0 <= j < stop.k && steps[j].id.PeerOf? && steps[j].id.key == peers[m].key;
        assert peers[j - 3 - |spec.addresses|].key == peers[m].key;
      }
    }
  }

  // What stays wrong

  /** The smallest stranded repeat: the same new route twice, the second call refused. */
  lemma RepeatedRouteStays(h: HostState, id: string, name: Name, prefix: Prefix)
    requires Sane(h) && Owns(name) && name in h.interfaces && prefix.bits != 0 && !HasRoute(h, name, prefix)
    ensures var plan := RoutePlan(h, id, name, [prefix, prefix]);
      Reached(h, Steps(plan), Refused(1)) && RolledBackHost(h, plan, Refused(1)) != h
  {
    var routes := [prefix, prefix];
    RouteStepsOf(h, id, name, routes);
    assert Accepted(HostAt(h, RouteSteps(name, routes), 0), RouteSteps(name, routes)[0].effect);
    assert routes[..1][0] == prefix;
    RouteRollback(h, id, name, routes, Refused(1));
  }

  lemma {:induction false} MarkedKeeps(ops: seq<Operation>, order: seq<Operation>, outcomes: seq<bool>, i: nat)
    requires |outcomes| == |order| && i < |ops|
    ensures Marked(ops, order, outcomes)[i].id == ops[i].id
    ensures Marked(ops, order, outcomes)[i] == ops[i] || Marked(ops, order, outcomes)[i].status == RolledBack
    ensures (forall op :: op in order ==> op.id != ops[i].id) ==> Marked(ops, order, outcomes)[i] == ops[i]
    decreases |order|
  {
    if order != [] {
      var n := |order| - 1;
      MarkedKeeps(ops, order[..n], outcomes[..n], i);
      SetStatusExact(Marked(ops, order[..n], outcomes[..n]), order[n].id, RolledBack, i);
      assert order[n] in order;
    }
  }

  lemma ApplyingAtStop(ops: seq<Operation>, steps: seq<Step>, stop: Stop, i: nat)
    requires stop.In(steps) && AllPlanned(ops) && i < |ops|
    ensures (OpsAtStop(ops, steps, stop)[i].status == Applying) <==>
      (stop.Begun? && First(ops, i) && ops[i].id == steps[stop.k].id)
  {
    var done := OpsAt(ops, steps, stop.k);
    forall j | 0 <= j <= i ensures done[j].id == ops[j].id { OpsAtId(ops, steps, stop.k, j); }
    OpsAtExact(ops, steps, stop.k, i);
    FirstSame(done, ops, i);
    if !stop.Done? {
      SetStatusExact(done, steps[stop.k].id, if stop.Begun? then Applying else Failed, i);
    }
  }

  /** A rolled-back and closed record asks for recovery exactly when the run stopped while journaling a step. */
  lemma ClosedNeedsRecovery(plan: Plan, stop: Stop, outcomes: seq<bool>)
    requires stop.In(Steps(plan)) && AllPlanned(plan.operations)
    requires |outcomes| == |UndoOrder(OpsAtStop(plan.operations, Steps(plan), stop))|
    ensures ClosedRecord(plan, stop, outcomes).NeedsRecovery() <==>
      (stop.Begun? && Names(plan.operations, Steps(plan)[stop.k].id))
  {
    var ops, steps := plan.operations, Steps(plan);
    var at := OpsAtStop(ops, steps, stop);
    var order := UndoOrder(at);
    forall i | 0 <= i < |ops|
      ensures (Marked(at, order, outcomes)[i].status == Applying) <==> (at[i].status == Applying)
    {
      MarkedKeeps(at, order, outcomes, i);
      ApplyingAtStop(ops, steps, stop, i);
      StopExact(ops, steps, stop, i);
      if at[i].status == Applying {
        forall op | op in order ensures op.id != at[i].id { UndoneOp(ops, steps, stop, op); }
      }
    }
    forall i | 0 <= i < |ops|
      ensures (at[i].status == Applying) <==> (stop.Begun? && First(ops, i) && ops[i].id == steps[stop.k].id)
    {
      ApplyingAtStop(ops, steps, stop, i);
    }
    if stop.Begun? && Names(ops, steps[stop.k].id) {
      var i :| 0 <= i < |ops| && ops[i].id == steps[stop.k].id;
      var f := FirstNamed(ops, i);
      assert ClosedRecord(plan, stop, outcomes).operations[f].status == Applying;
    }
  }

  function ClosedRecord(plan: Plan, stop: Stop, outcomes: seq<bool>): Record
    requires stop.In(Steps(plan))
    requires |outcomes| == |UndoOrder(OpsAtStop(plan.operations, Steps(plan), stop))|
  {
    var at := OpsAtStop(plan.operations, Steps(plan), stop);
    Record(plan.id, plan.iface.name, Marked(at, UndoOrder(at), outcomes), true, false)
  }

  /** An interface that was there keeps what the plan configured, and no record says so. */
  lemma PresentUnnoticed(h: HostState, id: string, spec: InterfaceSpec, peers: seq<PeerSpec>)
    requires Sane(h) && Owns(spec.name) && spec.name in h.interfaces && h.interfaces[spec.name].mtu != spec.mtu
    ensures var plan := InterfacePlan(h, id, spec, peers);
      Reached(h, Steps(plan), Done(1)) && RolledBackHost(h, plan, Done(1)) != h
      && var outcomes := Trues(|UndoOrder(OpsAtStop(plan.operations, Steps(plan), Done(1)))|);
      !ClosedRecord(plan, Done(1), outcomes).NeedsRecovery()
  {
    var plan := InterfacePlan(h, id, spec, peers);
    InterfaceStepsOf(h, id, spec, peers);
    var ops, steps := plan.operations, Steps(plan);
    var order := UndoOrder(OpsAtStop(ops, steps, Done(1)));
    ClosedNeedsRecovery(plan, Done(1), Trues(|order|));
    forall op | op in order ensures op.existed && op.id.Create? {
      UndoneOp(ops, steps, Done(1), op);
    }
    assert Accepted(HostAt(h, steps, 0), steps[0].effect);
    UnwoundStrips(HostAt(h, steps, 1), spec.name, order, Trues(|order|));
    assert HostAt(h, steps, 1) == Perform(h, Ensure(spec)) by {
      assert HostAt(h, steps, 0) == h;
    }
    assert RolledBackHost(h, plan, Done(1)).interfaces[spec.name].mtu == spec.mtu;
  }
}
