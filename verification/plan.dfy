/**
 What applying a plan does, as functions: the host and the journal after every
 step, where a run can stop, and what compensation makes of it
 (internal/netstate/manager.go). The theorems say when a stopped plan leaves the
 host as it was found.
 */
module Plans {
  import opened Prefixes
  import opened Host
  import opened Journal

  datatype Plan = Plan(id: string, iface: InterfaceSpec, peers: seq<PeerSpec>, routes: seq<Prefix>,
                       operations: seq<Operation>)
  {
    predicate TouchesInterface() { exists i :: 0 <= i < |operations| && operations[i].id.Create? }
  }

  /** One journaled step: the operation it reports under and the call it makes. */
  datatype Step = Step(id: Id, effect: Effect)

  function InterfaceSteps(spec: InterfaceSpec): seq<Step> {
    [Step(Create(spec.name), Ensure(spec)), Step(Configure(spec.name), Nothing), Step(LinkUp(spec.name), Nothing)]
    + AddressSteps(spec.addresses)
  }

  function AddressSteps(addresses: seq<Prefix>): seq<Step> {
    seq(|addresses|, i requires 0 <= i < |addresses| => Step(Address(addresses[i]), Nothing))
  }

  function PeerSteps(name: Name, peers: seq<PeerSpec>): seq<Step> {
    seq(|peers|, i requires 0 <= i < |peers| => Step(PeerOf(peers[i].key), Effect.ApplyPeer(name, peers[i])))
  }

  function RouteSteps(name: Name, routes: seq<Prefix>): seq<Step> {
    seq(|routes|, i requires 0 <= i < |routes| => Step(RouteTo(routes[i]), Effect.AddRoute(name, routes[i])))
  }

  function Steps(p: Plan): seq<Step> {
    (if p.TouchesInterface() then InterfaceSteps(p.iface) else [])
    + PeerSteps(p.iface.name, p.peers) + RouteSteps(p.iface.name, p.routes)
  }

  /** Whether what an operation acts on is already there. */
  function Exists(h: HostState, name: Name, id: Id): bool {
    match id
    case Create(_) => name in h.interfaces
    case Configure(_) => name in h.interfaces
    case LinkUp(_) => name in h.interfaces
    case Address(prefix) => name in h.interfaces && prefix in h.interfaces[name].addresses
    case PeerOf(key) => key in PeersOf(h, name)
    case RouteTo(prefix) => HasRoute(h, name, prefix)
  }

  function PlannedOps(h: HostState, name: Name, ids: seq<Id>): (ops: seq<Operation>)
    ensures |ops| == |ids|
  {
    seq(|ids|, i requires 0 <= i < |ids| => Operation(ids[i], Exists(h, name, ids[i]), Planned))
  }

  function InterfaceIds(spec: InterfaceSpec, peers: seq<PeerSpec>): seq<Id> {
    [Create(spec.name), Configure(spec.name)]
    + seq(|spec.addresses|, i requires 0 <= i < |spec.addresses| => Address(spec.addresses[i]))
    + [LinkUp(spec.name)]
    + seq(|peers|, i requires 0 <= i < |peers| => PeerOf(peers[i].key))
  }

  function RouteIds(routes: seq<Prefix>): seq<Id> {
    seq(|routes|, i requires 0 <= i < |routes| => RouteTo(routes[i]))
  }

  function InterfacePlan(h: HostState, id: string, spec: InterfaceSpec, peers: seq<PeerSpec>): Plan {
    Plan(id, spec, peers, [], PlannedOps(h, spec.name, InterfaceIds(spec, peers)))
  }

  function RoutePlan(h: HostState, id: string, name: Name, routes: seq<Prefix>): Plan {
    Plan(id, InterfaceSpec(name, 0, [], 0), [], routes, PlannedOps(h, name, RouteIds(routes)))
  }

  // Runs

  /** A refused call changes nothing. */
  function Performed(h: HostState, e: Effect): HostState { if Accepted(h, e) then Perform(h, e) else h }

  /** The host once the first k steps are done. */
  function HostAt(h: HostState, steps: seq<Step>, k: nat): HostState
    requires k <= |steps|
  {
    if k == 0 then h else Performed(HostAt(h, steps, k - 1), steps[k - 1].effect)
  }

  /** The operations once the first k steps are done. */
  function OpsAt(ops: seq<Operation>, steps: seq<Step>, k: nat): (r: seq<Operation>)
    requires k <= |steps|
    ensures |r| == |ops|
  {
    if k == 0 then ops else SetStatus(OpsAt(ops, steps, k - 1), steps[k - 1].id, Applied)
  }

  /** The first k calls were all accepted. */
  predicate Ran(h: HostState, steps: seq<Step>, k: nat)
    requires k <= |steps|
  {
    forall j {:trigger steps[j]} :: 0 <= j < k ==> Accepted(HostAt(h, steps, j), steps[j].effect)
  }

  /** Where a failed run ends: after k steps, with step k journaled as begun, or with its call refused. */
  datatype Stop = Done(k: nat) | Begun(k: nat) | Refused(k: nat) {
    predicate In(steps: seq<Step>) { if Done? then k <= |steps| else k < |steps| }
  }

  predicate Reached(h: HostState, steps: seq<Step>, stop: Stop) { stop.In(steps) && Ran(h, steps, stop.k) }

  function OpsAtStop(ops: seq<Operation>, steps: seq<Step>, stop: Stop): seq<Operation>
    requires stop.In(steps)
  {
    var done := OpsAt(ops, steps, stop.k);
    match stop
    case Done(_) => done
    case Begun(k) => SetStatus(done, steps[k].id, Applying)
    case Refused(k) => SetStatus(done, steps[k].id, Failed)
  }

  /** Step k goes through unless the environment fails it: it can be journaled, was planned, and the host accepts it. */
  predicate Goes(h: HostState, ops: seq<Operation>, steps: seq<Step>, k: nat, storable: bool)
    requires k < |steps|
  {
    storable && Names(ops, steps[k].id) && Accepted(HostAt(h, steps, k), steps[k].effect)
  }

  predicate GoesBetween(h: HostState, ops: seq<Operation>, steps: seq<Step>, from: nat, to: nat, storable: bool)
    requires to <= |steps|
  {
    forall k :: from <= k < to ==> Goes(h, ops, steps, k, storable)
  }

  // Compensation

  /** Whether undoing an operation goes through unless the environment fails it. */
  predicate Undoable(name: Name, id: Id) {
    match id
    case RouteTo(prefix) => prefix.Valid() && Owns(name)
    case Create(_) => Owns(name)
    case Configure(_) => true
    case Address(_) => true
    case LinkUp(_) => true
    case PeerOf(_) => true
  }

  function UndoOrder(ops: seq<Operation>): seq<Operation> { Reversed(AppliedOf(ops)) }

  function UndoEffect(name: Name, id: Id): Effect {
    match id
    case PeerOf(key) => RemovePeer(name, key)
    case Create(_) => RemoveInterface(name)
    case RouteTo(prefix) => RemoveRoute(name, prefix)
    case Configure(_) => Nothing
    case LinkUp(_) => Nothing
    case Address(_) => Nothing
  }

  /** Undoing the operations in turn; an outcome of false is an undo that failed and changed nothing. */
  function Unwound(h: HostState, name: Name, order: seq<Operation>, outcomes: seq<bool>): HostState
    requires |outcomes| == |order|
    decreases |order|
  {
    if order == [] then h
    else
      var n := |order| - 1;
      var before := Unwound(h, name, order[..n], outcomes[..n]);
      if order[n].existed || !outcomes[n] then before else Performed(before, UndoEffect(name, order[n].id))
  }

  /** The marks compensation leaves behind. */
  function Marked(ops: seq<Operation>, order: seq<Operation>, outcomes: seq<bool>): (r: seq<Operation>)
    requires |outcomes| == |order|
    ensures |r| == |ops|
    decreases |order|
  {
    if order == [] then ops
    else
      var n := |order| - 1;
      var before := Marked(ops, order[..n], outcomes[..n]);
      if order[n].existed || outcomes[n] then SetStatus(before, order[n].id, RolledBack) else before
  }

  predicate AllTrue(outcomes: seq<bool>) { forall i :: 0 <= i < |outcomes| ==> outcomes[i] }

  function Trues(n: nat): (r: seq<bool>)
    ensures |r| == n && AllTrue(r)
  {
    seq(n, _ => true)
  }

  /** The host after a run that stopped there and was compensated, every undo succeeding. */
  function RolledBackHost(h: HostState, plan: Plan, stop: Stop): HostState
    requires stop.In(Steps(plan))
  {
    var order := UndoOrder(OpsAtStop(plan.operations, Steps(plan), stop));
    Unwound(HostAt(h, Steps(plan), stop.k), plan.iface.name, order, Trues(|order|))
  }

  // What is undone

  predicate StepNames(steps: seq<Step>, k: nat, id: Id)
    requires k <= |steps|
  {
    exists j :: 0 <= j < k && steps[j].id == id
  }

  /** The operations a stopped run would undo: those done, short of the one the stop is at. */
  predicate Undoes(steps: seq<Step>, stop: Stop, id: Id)
    requires stop.In(steps)
  {
    StepNames(steps, stop.k, id) && (stop.Done? || steps[stop.k].id != id)
  }

  lemma FirstSame(a: seq<Operation>, b: seq<Operation>, i: nat)
    requires i < |a| == |b| && forall j :: 0 <= j <= i ==> a[j].id == b[j].id
    ensures First(a, i) == First(b, i)
  {
    if !First(b, i) {
      var j :| 0 <= j < i && b[j].id == b[i].id;
      assert a[j].id == a[i].id;
    }
  }

  lemma {:induction false} OpsAtExact(ops: seq<Operation>, steps: seq<Step>, k: nat, i: nat)
    requires k <= |steps| && i < |ops|
    ensures OpsAt(ops, steps, k)[i] ==
      if First(ops, i) && StepNames(steps, k, ops[i].id) then ops[i].(status := Applied) else ops[i]
  {
    if k > 0 {
      forall j | 0 <= j <= i ensures OpsAt(ops, steps, k - 1)[j].id == ops[j].id { OpsAtId(ops, steps, k - 1, j); }
      OpsAtExact(ops, steps, k - 1, i);
      SetStatusExact(OpsAt(ops, steps, k - 1), steps[k - 1].id, Applied, i);
      FirstSame(OpsAt(ops, steps, k - 1), ops, i);
      assert StepNames(steps, k, ops[i].id) == (StepNames(steps, k - 1, ops[i].id) || steps[k - 1].id == ops[i].id);
    }
  }

  lemma {:induction false} OpsAtId(ops: seq<Operation>, steps: seq<Step>, k: nat, i: nat)
    requires k <= |steps| && i < |ops|
    ensures OpsAt(ops, steps, k)[i].id == ops[i].id
  {
    if k > 0 {
      OpsAtId(ops, steps, k - 1, i);
      SetStatusExact(OpsAt(ops, steps, k - 1), steps[k - 1].id, Applied, i);
    }
  }

  lemma StopExact(ops: seq<Operation>, steps: seq<Step>, stop: Stop, i: nat)
    requires stop.In(steps) && i < |ops| && ops[i].status == Planned
    ensures var op := OpsAtStop(ops, steps, stop)[i];
      op.id == ops[i].id && op.existed == ops[i].existed
      && ((op.status == Applied) <==> (First(ops, i) && Undoes(steps, stop, ops[i].id)))
  {
    var done := OpsAt(ops, steps, stop.k);
    forall j | 0 <= j <= i ensures done[j].id == ops[j].id { OpsAtId(ops, steps, stop.k, j); }
    OpsAtExact(ops, steps, stop.k, i);
    FirstSame(done, ops, i);
    if !stop.Done? {
      SetStatusExact(done, steps[stop.k].id, if stop.Begun? then Applying else Failed, i);
    }
  }

  ghost predicate AllPlanned(ops: seq<Operation>) { forall i :: 0 <= i < |ops| ==> ops[i].status == Planned }

  lemma UndoneOp(ops: seq<Operation>, steps: seq<Step>, stop: Stop, op: Operation)
    requires stop.In(steps) && AllPlanned(ops) && op in UndoOrder(OpsAtStop(ops, steps, stop))
    ensures Undoes(steps, stop, op.id) && op.(status := Planned) in ops
  {
    var at := OpsAtStop(ops, steps, stop);
    ReversedMembers(AppliedOf(at), op);
    AppliedOfMembers(at, op);
    var i :| 0 <= i < |at| && at[i] == op;
    StopExact(ops, steps, stop, i);
    assert op.(status := Planned) == ops[i];
  }

  lemma {:induction false} FirstNamed(ops: seq<Operation>, i: nat) returns (f: nat)
    requires i < |ops|
    ensures f <= i && ops[f].id == ops[i].id && First(ops, f)
  {
    if First(ops, i) {
      f := i;
    } else {
      var j :| 0 <= j < i && ops[j].id == ops[i].id;
      f := FirstNamed(ops, j);
    }
  }

  lemma OpUndone(ops: seq<Operation>, steps: seq<Step>, stop: Stop, i: nat) returns (op: Operation)
    requires stop.In(steps) && AllPlanned(ops) && i < |ops| && Undoes(steps, stop, ops[i].id)
    ensures op in UndoOrder(OpsAtStop(ops, steps, stop)) && op.id == ops[i].id && op.(status := Planned) in ops
  {
    var f := FirstNamed(ops, i);
    StopExact(ops, steps, stop, f);
    var at := OpsAtStop(ops, steps, stop);
    op := at[f];
    AppliedOfMembers(at, op);
    ReversedMembers(AppliedOf(at), op);
    assert op.(status := Planned) == ops[f];
  }
}
