/**
 When a stopped and rolled-back plan has restored the whole host, decided from what
 the host held and what the plan asked for, and when the journal keeps quiet about
 a host that was not restored (internal/netstate/manager.go).
 */
module Restoration {
  import opened Prefixes
  import opened Host
  import opened Journal
  import opened Plans
  import opened Rollback

  // An interface that was there

  /** Entry i is the last one for this peer. */
  predicate Last(done: seq<PeerSpec>, key: PeerKey, i: nat) {
    i < |done| && done[i].key == key && forall j :: i < j < |done| ==> done[j].key != key
  }

  /** Entry i is the last one for this peer that asks for a keepalive. */
  predicate LastAlive(done: seq<PeerSpec>, key: PeerKey, i: nat) {
    i < |done| && done[i].key == key && done[i].keepalive > 0
    && forall j :: i < j < |done| && done[j].key == key ==> done[j].keepalive <= 0
  }

  /** What the entries ask of a peer comes to what it had. */
  ghost predicate AsksNothingNew(held: Peer, done: seq<PeerSpec>, key: PeerKey) {
    (forall i: nat :: Last(done, key, i) ==> done[i].endpoint == held.endpoint && done[i].allowedIPs == held.allowedIPs)
    && forall i: nat :: LastAlive(done, key, i) ==> done[i].keepalive == held.keepalive
  }

  function Converged(peers: map<PeerKey, Peer>, done: seq<PeerSpec>): map<PeerKey, Peer> {
    if done == [] then peers else Converge(Converged(peers, done[..|done| - 1]), done[|done| - 1])
  }

  /** What the entries make of one peer. */
  function Folded(entry: Peer, done: seq<PeerSpec>, key: PeerKey): Peer {
    if done == [] then entry
    else
      var before, last := Folded(entry, done[..|done| - 1], key), done[|done| - 1];
      if last.key != key then before
      else Peer(last.endpoint, last.allowedIPs, if last.keepalive <= 0 then before.keepalive else last.keepalive)
  }

  lemma {:induction false} ConvergedEntry(peers: map<PeerKey, Peer>, done: seq<PeerSpec>, key: PeerKey)
    requires key in peers
    ensures key in Converged(peers, done) && Converged(peers, done)[key] == Folded(peers[key], done, key)
  {
    if done != [] {
      ConvergedEntry(peers, done[..|done| - 1], key);
    }
  }

  lemma {:induction false} FoldedLast(entry: Peer, done: seq<PeerSpec>, key: PeerKey)
    ensures var r := Folded(entry, done, key);
      (forall i: nat :: Last(done, key, i) ==> r.endpoint == done[i].endpoint && r.allowedIPs == done[i].allowedIPs)
      && (forall i: nat :: LastAlive(done, key, i) ==> r.keepalive == done[i].keepalive)
    ensures (forall i :: 0 <= i < |done| ==> done[i].key != key) ==> Folded(entry, done, key) == entry
    ensures (forall i :: 0 <= i < |done| && done[i].key == key ==> done[i].keepalive <= 0) ==>
      Folded(entry, done, key).keepalive == entry.keepalive
  {
    if done != [] {
      var n := |done| - 1;
      FoldedLast(entry, done[..n], key);
      forall i | 0 <= i < n ensures done[..n][i] == done[i] {}
      forall i: nat | Last(done, key, i) ensures i == n || (done[n].key != key && Last(done[..n], key, i)) {}
      forall i: nat | LastAlive(done, key, i)
        ensures i == n || ((done[n].key != key || done[n].keepalive <= 0) && LastAlive(done[..n], key, i))
      {}
    }
  }

  lemma LastExists(done: seq<PeerSpec>, key: PeerKey, j: nat) returns (i: nat)
    requires j < |done| && done[j].key == key
    ensures Last(done, key, i)
  {
    i := |done| - 1;
    while done[i].key != key
      invariant j <= i < |done| && forall k :: i < k < |done| ==> done[k].key != key
      decreases i
    {
      i := i - 1;
    }
  }

  lemma LastAliveExists(done: seq<PeerSpec>, key: PeerKey, j: nat) returns (i: nat)
    requires j < |done| && done[j].key == key && done[j].keepalive > 0
    ensures LastAlive(done, key, i)
  {
    i := |done| - 1;
    while !(done[i].key == key && done[i].keepalive > 0)
      invariant j <= i < |done| && forall k :: i < k < |done| && done[k].key == key ==> done[k].keepalive <= 0
      decreases i
    {
      i := i - 1;
    }
  }

  /** A peer that was there is as it was exactly when the entries ask nothing new of it. */
  lemma EntryUnchanged(peers: map<PeerKey, Peer>, done: seq<PeerSpec>, key: PeerKey)
    requires key in peers
    ensures key in Converged(peers, done)
    ensures Converged(peers, done)[key] == peers[key] <==> AsksNothingNew(peers[key], done, key)
  {
    ConvergedEntry(peers, done, key);
    FoldedLast(peers[key], done, key);
    hide Converged, Folded;
    if j :| 0 <= j < |done| && done[j].key == key {
      var i := LastExists(done, key, j);
      if k :| 0 <= k < |done| && done[k].key == key && done[k].keepalive > 0 {
        var m := LastAliveExists(done, key, k);
      }
    }
  }

  /** The entries of the plan that had reached the interface. */
  function PeersSoFar(spec: InterfaceSpec, peers: seq<PeerSpec>, k: nat): seq<PeerSpec> {
    var m := k - 3 - |spec.addresses|;
    if m <= 0 then [] else if m <= |peers| then peers[..m] else peers
  }

  lemma {:induction false} InterfaceAt(h: HostState, spec: InterfaceSpec, peers: seq<PeerSpec>, k: nat)
    requires spec.name in h.interfaces && 0 < k <= |InterfaceRun(spec, peers)| && Ran(h, InterfaceRun(spec, peers), k)
    ensures spec.name in HostAt(h, InterfaceRun(spec, peers), k).interfaces
    ensures HostAt(h, InterfaceRun(spec, peers), k).interfaces[spec.name] ==
      Interface(spec.listenPort, spec.addresses, spec.mtu,
                Converged(h.interfaces[spec.name].peers, PeersSoFar(spec, peers, k)))
  {
    var steps := InterfaceRun(spec, peers);
    assert Accepted(HostAt(h, steps, k - 1), steps[k - 1].effect);
    assert HostAt(h, steps, k) == Performed(HostAt(h, steps, k - 1), steps[k - 1].effect);
    if k == 1 {
      assert HostAt(h, steps, 0) == h && steps[0].effect == Ensure(spec);
    } else {
      InterfaceAt(h, spec, peers, k - 1);
      StepEffect(spec, peers, k - 1);
      hide HostAt, InterfaceRun, Ran, Converged, PeersSoFar, Performed;
      EffectOn(HostAt(h, steps, k - 1), spec.name, steps[k - 1].effect);
      if k > 3 + |spec.addresses| {
        SoFarMore(h.interfaces[spec.name].peers, spec, peers, k);
      } else {
        NoneSoFar(spec, peers, k);
      }
    }
  }

  lemma EffectOn(now: HostState, name: Name, e: Effect)
    requires name in now.interfaces && (e == Nothing || (e.ApplyPeer? && e.iface == name))
    ensures name in Performed(now, e).interfaces
    ensures Performed(now, e).interfaces[name] ==
      if e == Nothing then now.interfaces[name]
      else now.interfaces[name].(peers := Converge(now.interfaces[name].peers, e.peer))
  {
    hide Converge;
  }

  lemma NoneSoFar(spec: InterfaceSpec, peers: seq<PeerSpec>, k: nat)
    requires 0 < k <= 3 + |spec.addresses|
    ensures PeersSoFar(spec, peers, k) == PeersSoFar(spec, peers, k - 1) == []
  {
  }

  lemma SoFarMore(held: map<PeerKey, Peer>, spec: InterfaceSpec, peers: seq<PeerSpec>, k: nat)
    requires 3 + |spec.addresses| < k <= 3 + |spec.addresses| + |peers|
    ensures Converged(held, PeersSoFar(spec, peers, k)) ==
      Converge(Converged(held, PeersSoFar(spec, peers, k - 1)), peers[k - 4 - |spec.addresses|])
  {
    hide Converge;
    var m := k - 3 - |spec.addresses|;
    assert PeersSoFar(spec, peers, k) == peers[..m] && peers[..m][..m - 1] == peers[..m - 1];
    assert PeersSoFar(spec, peers, k - 1) == peers[..m - 1];
  }

  lemma StepEffect(spec: InterfaceSpec, peers: seq<PeerSpec>, j: nat)
    requires 0 < j < |InterfaceRun(spec, peers)|
    ensures |InterfaceRun(spec, peers)| == 3 + |spec.addresses| + |peers|
    ensures InterfaceRun(spec, peers)[j].effect ==
      (if j < 3 + |spec.addresses| then Nothing else Effect.ApplyPeer(spec.name, peers[j - 3 - |spec.addresses|]))
  {
  }

  /** A rolled-back plan takes only its own new peers off an interface that was there. */
  lemma PresentLeft(h: HostState, id: string, spec: InterfaceSpec, peers: seq<PeerSpec>, stop: Stop)
    returns (gone: set<PeerKey>)
    requires Sane(h) && spec.name in h.interfaces && stop.k > 0
    requires Reached(h, Steps(InterfacePlan(h, id, spec, peers)), stop)
    ensures stop.In(InterfaceRun(spec, peers)) && gone !! PeersOf(h, spec.name)
    ensures RolledBackHost(h, InterfacePlan(h, id, spec, peers), stop) ==
      WithoutPeers(HostAt(h, InterfaceRun(spec, peers), stop.k), spec.name, gone)
  {
    InterfaceStepsOf(h, id, spec, peers);
    var ops, steps, name := InterfaceOps(h, spec, peers), InterfaceRun(spec, peers), spec.name;
    var order := UndoOrder(OpsAtStop(ops, steps, stop));
    var now := HostAt(h, steps, stop.k);
    assert Accepted(HostAt(h, steps, 0), steps[0].effect);
    OnlyPeersGone(h, spec, peers, stop);
    UnwoundStrips(now, name, order, Trues(|order|));
    gone := GonePeers(order);
    hide Unwound, UndoOrder, OpsAtStop, HostAt, Ran, GonePeers, GoneRoutes;
    forall key | key in gone ensures key !in PeersOf(h, name) { PeerGone(h, spec, peers, stop, key); }
    NoRoutesGone(WithoutPeers(now, name, gone), name);
  }

  lemma NoRoutesGone(h: HostState, name: Name)
    ensures WithoutRoutes(h, name, {}) == h
  {
    assert (set r | r in h.routes && !(r.0 == name && r.1 in {})) == h.routes;
  }

  /** The stop comes before the plan touched anything, or what it asked for by then is what was there. */
  ghost predicate Restored(h: HostState, spec: InterfaceSpec, peers: seq<PeerSpec>, stop: Stop)
    requires spec.name in h.interfaces
  {
    var held := h.interfaces[spec.name];
    stop.k == 0
    || (held.listenPort == spec.listenPort && held.addresses == spec.addresses && held.mtu == spec.mtu
        && !PeerStranded(h, spec, peers, stop)
        && forall key :: key in held.peers ==> AsksNothingNew(held.peers[key], PeersSoFar(spec, peers, stop.k), key))
  }

  /** On an interface that was there, exactly when a stopped and rolled-back plan leaves the whole host as it was. */
  lemma PresentRestored(h: HostState, id: string, spec: InterfaceSpec, peers: seq<PeerSpec>, stop: Stop)
    requires Sane(h) && spec.name in h.interfaces
    requires Reached(h, Steps(InterfacePlan(h, id, spec, peers)), stop)
    ensures RolledBackHost(h, InterfacePlan(h, id, spec, peers), stop) == h <==> Restored(h, spec, peers, stop)
  {
    InterfaceStepsOf(h, id, spec, peers);
    if stop.k == 0 {
      NothingDone(InterfaceOps(h, spec, peers), InterfaceRun(spec, peers), stop);
    } else {
      var gone := PresentLeft(h, id, spec, peers, stop);
      PresentRollback(h, id, spec, peers, stop);
      InterfaceAt(h, spec, peers, stop.k);
      var left, name := RolledBackHost(h, InterfacePlan(h, id, spec, peers), stop), spec.name;
      hide RolledBackHost, HostAt, Steps, InterfacePlan, InterfaceRun, PeerStranded, Reached, AsksNothingNew, Converged;
      var held := h.interfaces[name].peers;
      forall key | key in held
        ensures key in left.interfaces[name].peers
        ensures left.interfaces[name].peers[key] == held[key] <==> AsksNothingNew(held[key], PeersSoFar(spec, peers, stop.k), key)
      {
        EntryUnchanged(held, PeersSoFar(spec, peers, stop.k), key);
      }
      OneInterface(left, h, name);
    }
  }

  lemma OneInterface(left: HostState, h: HostState, name: Name)
    requires name in h.interfaces && name in left.interfaces && left.routes == h.routes && SameElsewhere(left, h, name)
    ensures left == h <==> left.interfaces[name] == h.interfaces[name]
  {
    if left.interfaces[name] == h.interfaces[name] {
      forall n ensures (n in left.interfaces) == (n in h.interfaces) {
        assert n != name ==> ((n in left.interfaces) == (n in Cleared(left, name).interfaces));
      }
      forall n | n in h.interfaces ensures left.interfaces[n] == h.interfaces[n] {
        assert n != name ==> Cleared(left, name).interfaces[n] == left.interfaces[n];
      }
      assert left.interfaces == h.interfaces;
    }
  }

  // An interface plan as a whole

  lemma {:induction false} InterfaceThere(h: HostState, spec: InterfaceSpec, peers: seq<PeerSpec>, k: nat)
    requires Owns(spec.name) && 0 < k <= |InterfaceRun(spec, peers)|
    ensures spec.name in HostAt(h, InterfaceRun(spec, peers), k).interfaces
  {
    StepOf(spec, peers, k - 1);
    if k > 1 {
      InterfaceThere(h, spec, peers, k - 1);
    }
  }

  lemma InterfaceRan(h: HostState, spec: InterfaceSpec, peers: seq<PeerSpec>, k: nat)
    requires Owns(spec.name) && k <= |InterfaceRun(spec, peers)|
    ensures Ran(h, InterfaceRun(spec, peers), k)
  {
    var steps := InterfaceRun(spec, peers);
    forall j | 0 <= j < k ensures Accepted(HostAt(h, steps, j), steps[j].effect) {
      StepOf(spec, peers, j);
      if j > 0 { InterfaceThere(h, spec, peers, j); }
    }
  }

  /** One entry asks nothing of a peer but what it has. */
  predicate Matches(held: Peer, entry: PeerSpec) {
    entry.endpoint == held.endpoint && entry.allowedIPs == held.allowedIPs
    && (entry.keepalive > 0 ==> entry.keepalive == held.keepalive)
  }

  /** The settings asked for and every entry for a peer that is there match it, and no new peer is named twice. */
  predicate AsksNothing(held: Interface, spec: InterfaceSpec, peers: seq<PeerSpec>) {
    held.listenPort == spec.listenPort && held.addresses == spec.addresses && held.mtu == spec.mtu
    && (forall i :: 0 <= i < |peers| && peers[i].key in held.peers ==> Matches(held.peers[peers[i].key], peers[i]))
    && forall i, j :: 0 <= i < j < |peers| && peers[i].key == peers[j].key ==> peers[i].key in held.peers
  }

  lemma AsksNothingRestores(h: HostState, spec: InterfaceSpec, peers: seq<PeerSpec>, stop: Stop)
    requires spec.name in h.interfaces && AsksNothing(h.interfaces[spec.name], spec, peers)
    ensures Restored(h, spec, peers, stop)
  {
    var held, done := h.interfaces[spec.name], PeersSoFar(spec, peers, stop.k);
    assert forall i :: 0 <= i < |done| ==> i < |peers| && done[i] == peers[i];
    forall key | key in held.peers ensures AsksNothingNew(held.peers[key], done, key) {
      forall i: nat | Last(done, key, i) || LastAlive(done, key, i) ensures Matches(held.peers[key], done[i]) {
        assert done[i] == peers[i];
      }
    }
  }

  /** Stopping right after entry i shows what that entry asked for. */
  lemma RestoredMatches(h: HostState, spec: InterfaceSpec, peers: seq<PeerSpec>, i: nat)
    requires spec.name in h.interfaces && i < |peers| && Restored(h, spec, peers, Done(4 + |spec.addresses| + i))
    ensures peers[i].key in h.interfaces[spec.name].peers ==>
      Matches(h.interfaces[spec.name].peers[peers[i].key], peers[i])
  {
    var held, done, key := h.interfaces[spec.name], PeersSoFar(spec, peers, 4 + |spec.addresses| + i), peers[i].key;
    assert done == peers[..i + 1];
    if key in held.peers {
      assert AsksNothingNew(held.peers[key], done, key);
      assert Last(done, key, i);
      if peers[i].keepalive > 0 { assert LastAlive(done, key, i); }
    }
  }

  lemma RestoredAlways(h: HostState, spec: InterfaceSpec, peers: seq<PeerSpec>)
    requires spec.name in h.interfaces
    ensures (forall stop: Stop :: stop.In(InterfaceRun(spec, peers)) ==> Restored(h, spec, peers, stop)) <==>
      AsksNothing(h.interfaces[spec.name], spec, peers)
  {
    var steps, held, base := InterfaceRun(spec, peers), h.interfaces[spec.name], 3 + |spec.addresses|;
    assert |steps| == base + |peers|;
    hide InterfaceRun, AsksNothingNew, PeersSoFar;
    if AsksNothing(held, spec, peers) {
      forall stop: Stop | stop.In(steps) ensures Restored(h, spec, peers, stop) {
        AsksNothingRestores(h, spec, peers, stop);
      }
    }
    if forall stop: Stop :: stop.In(steps) ==> Restored(h, spec, peers, stop) {
      assert Done(1).In(steps) && Restored(h, spec, peers, Done(1));
      forall i | 0 <= i < |peers| && peers[i].key in held.peers ensures Matches(held.peers[peers[i].key], peers[i]) {
        assert Done(base + 1 + i).In(steps);
        RestoredMatches(h, spec, peers, i);
      }
      forall i, j | 0 <= i < j < |peers| && peers[i].key == peers[j].key ensures peers[i].key in held.peers {
        assert Refused(base + j).In(steps) && Restored(h, spec, peers, Refused(base + j));
        assert !PeerStranded(h, spec, peers, Refused(base + j));
      }
    }
  }

  /** An interface plan can be trusted to undo itself exactly when nothing was there, or nothing that was there would change. */
  lemma InterfaceAlwaysRestored(h: HostState, id: string, spec: InterfaceSpec, peers: seq<PeerSpec>)
    requires Sane(h)
    ensures var plan := InterfacePlan(h, id, spec, peers);
      (forall stop :: Reached(h, Steps(plan), stop) ==> RolledBackHost(h, plan, stop) == h) <==>
      (spec.name !in h.interfaces || !Owns(spec.name) || AsksNothing(h.interfaces[spec.name], spec, peers))
  {
    var plan, steps := InterfacePlan(h, id, spec, peers), InterfaceRun(spec, peers);
    InterfaceStepsOf(h, id, spec, peers);
    forall stop: Stop | Reached(h, steps, stop) ensures stop.k == 0 || Owns(spec.name) {
      if stop.k > 0 { assert Accepted(HostAt(h, steps, 0), steps[0].effect); }
    }
    hide RolledBackHost, Steps, InterfacePlan, InterfaceRun, AsksNothing, Ran;
    if spec.name !in h.interfaces {
      forall stop | Reached(h, steps, stop) ensures RolledBackHost(h, plan, stop) == h {
        AbsentRollback(h, id, spec, peers, stop);
      }
    } else {
      forall stop | Reached(h, steps, stop)
        ensures RolledBackHost(h, plan, stop) == h <==> Restored(h, spec, peers, stop)
      {
        PresentRestored(h, id, spec, peers, stop);
      }
      if Owns(spec.name) {
        forall stop: Stop | stop.In(steps) ensures Reached(h, steps, stop) { InterfaceRan(h, spec, peers, stop.k); }
        RestoredAlways(h, spec, peers);
      }
    }
  }

  // What the journal says of it

  lemma InterfaceNamed(h: HostState, spec: InterfaceSpec, peers: seq<PeerSpec>, k: nat)
    requires k < |InterfaceRun(spec, peers)|
    ensures Names(InterfaceOps(h, spec, peers), InterfaceRun(spec, peers)[k].id)
  {
    var ops, steps, n := InterfaceOps(h, spec, peers), InterfaceRun(spec, peers), |spec.addresses|;
    var i := if k == 2 then 2 + n else if 3 <= k < 3 + n then k - 1 else k;
    assert ops[i].id == steps[k].id;
  }

  /** The host differs from what it was although every undo went through, and the closed record asks for nothing. */
  ghost predicate Unnoticed(h: HostState, plan: Plan, stop: Stop)
    requires stop.In(Steps(plan))
  {
    RolledBackHost(h, plan, stop) != h
    && !ClosedRecord(plan, stop, Trues(|UndoOrder(OpsAtStop(plan.operations, Steps(plan), stop))|)).NeedsRecovery()
  }

  /** Exactly when a failed change to an interface that was there leaves it changed with nothing to say so. */
  lemma PresentUnnoticedIff(h: HostState, id: string, spec: InterfaceSpec, peers: seq<PeerSpec>, stop: Stop)
    requires Sane(h) && spec.name in h.interfaces
    requires Reached(h, Steps(InterfacePlan(h, id, spec, peers)), stop)
    ensures Unnoticed(h, InterfacePlan(h, id, spec, peers), stop) <==> (!Restored(h, spec, peers, stop) && !stop.Begun?)
  {
    var plan := InterfacePlan(h, id, spec, peers);
    InterfaceStepsOf(h, id, spec, peers);
    PresentRestored(h, id, spec, peers, stop);
    hide RolledBackHost, Restored, ClosedRecord, UndoOrder, OpsAtStop;
    if stop.Begun? {
      InterfaceNamed(h, spec, peers, stop.k);
    }
    ClosedNeedsRecovery(plan, stop, Trues(|UndoOrder(OpsAtStop(plan.operations, Steps(plan), stop))|));
  }

  // Routes

  lemma {:induction false} RoutesLeaveInterfaces(h: HostState, name: Name, routes: seq<Prefix>, k: nat)
    requires k <= |routes|
    ensures HostAt(h, RouteSteps(name, routes), k).interfaces == h.interfaces
  {
    if k > 0 { RoutesLeaveInterfaces(h, name, routes, k - 1); }
  }

  /** Nothing but a fault stops a run of routes before route k. */
  predicate Comes(name: Name, routes: seq<Prefix>, k: nat)
    requires k <= |routes|
  {
    k > 0 ==> Owns(name) && forall j :: 0 <= j < k ==> routes[j].bits != 0
  }

  lemma RoutesRan(h: HostState, name: Name, routes: seq<Prefix>, k: nat)
    requires name in h.interfaces && k <= |routes|
    ensures Ran(h, RouteSteps(name, routes), k) <==> Comes(name, routes, k)
  {
    var steps := RouteSteps(name, routes);
    forall j | 0 <= j < k
      ensures Accepted(HostAt(h, steps, j), steps[j].effect) <==> (Owns(name) && routes[j].bits != 0)
    {
      RoutesLeaveInterfaces(h, name, routes, j);
    }
    if Ran(h, steps, k) {
      if k > 0 { assert Accepted(HostAt(h, steps, 0), steps[0].effect); }
      forall j | 0 <= j < k ensures Owns(name) && routes[j].bits != 0 { assert Accepted(HostAt(h, steps, j), steps[j].effect); }
      assert Comes(name, routes, k);
    }
    if Comes(name, routes, k) {
      forall j | 0 <= j < k ensures Accepted(HostAt(h, steps, j), steps[j].effect) {}
      assert Ran(h, steps, k);
    }
  }

  /** A route plan can be trusted to undo itself exactly when it repeats no new route that would strand. */
  lemma RoutesAlwaysRestored(h: HostState, id: string, name: Name, routes: seq<Prefix>)
    requires Sane(h) && name in h.interfaces
    ensures var plan := RoutePlan(h, id, name, routes);
      (forall stop :: Reached(h, Steps(plan), stop) ==> RolledBackHost(h, plan, stop) == h) <==>
      (forall k :: 0 <= k < |routes| && Comes(name, routes, k) ==> !Stranded(h, name, routes, k))
  {
    var plan := RoutePlan(h, id, name, routes);
    RouteStepsOf(h, id, name, routes);
    hide RolledBackHost, Stranded, Steps, Comes, Ran;
    forall stop: Stop | Reached(h, Steps(plan), stop)
      ensures RolledBackHost(h, plan, stop) == h <==> (stop.Done? || !Stranded(h, name, routes, stop.k))
      ensures Comes(name, routes, stop.k)
    {
      RouteRollback(h, id, name, routes, stop);
      RoutesRan(h, name, routes, stop.k);
    }
    forall k | 0 <= k < |routes| && Comes(name, routes, k) ensures Reached(h, Steps(plan), Refused(k)) {
      RoutesRan(h, name, routes, k);
    }
  }

  /** A list that names no route twice is undone from every stop. */
  lemma DistinctRoutesRestored(h: HostState, id: string, name: Name, routes: seq<Prefix>, stop: Stop)
    requires Sane(h) && name in h.interfaces && Reached(h, Steps(RoutePlan(h, id, name, routes)), stop)
    requires forall i, j :: 0 <= i < j < |routes| ==> routes[i] != routes[j]
    ensures RolledBackHost(h, RoutePlan(h, id, name, routes), stop) == h
  {
    RouteRollback(h, id, name, routes, stop);
  }

  /** Exactly when a failed change of routes leaves one behind with nothing to say so. */
  lemma RouteUnnoticedIff(h: HostState, id: string, name: Name, routes: seq<Prefix>, stop: Stop)
    requires Sane(h) && name in h.interfaces && Reached(h, Steps(RoutePlan(h, id, name, routes)), stop)
    ensures Unnoticed(h, RoutePlan(h, id, name, routes), stop) <==> (stop.Refused? && Stranded(h, name, routes, stop.k))
  {
    var plan := RoutePlan(h, id, name, routes);
    RouteStepsOf(h, id, name, routes);
    RouteRollback(h, id, name, routes, stop);
    if stop.Begun? {
      assert plan.operations[stop.k].id == Steps(plan)[stop.k].id;
    }
    hide RolledBackHost, Stranded, ClosedRecord, UndoOrder, OpsAtStop;
    ClosedNeedsRecovery(plan, stop, Trues(|UndoOrder(OpsAtStop(plan.operations, Steps(plan), stop))|));
  }
}
