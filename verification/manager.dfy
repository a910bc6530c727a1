/**
 The transactional manager of internal/netstate/manager.go: plan against what the
 host holds, apply with every step journaled, compensate in reverse on failure.
 */
module Manager {
  import opened Prefixes
  import opened Host
  import opened Journal
  import opened Moments
  import opened Plans
  import opened Network
  import opened Rollback
  import opened Wrappers

  class NetManager {
    const world: World
    var inject: Option<Kind>

    constructor (world: World)
      ensures this.world == world && inject == None
    {
      this.world, inject := world, None;
    }

    /** What was planned and how far it got. */
    ghost predicate At(t: Transaction, h: HostState, ops: seq<Operation>, steps: seq<Step>, stop: Stop)
      reads world, t
    {
      Reached(h, steps, stop) && world.host == HostAt(h, steps, stop.k) && t.operations == OpsAtStop(ops, steps, stop)
    }

    /** Records of other transactions are untouched. */
    ghost predicate OthersKept(id: string, before: Records)
      reads world
    {
      forall other :: other != id ==>
        (other in before <==> other in world.journal) &&
        (other in before ==> world.journal[other] == before[other])
    }

    /** The journal holds this transaction as unfinished, as does memory. */
    ghost predicate Open(t: Transaction)
      reads world, t
    {
      !t.ended && !t.committed && WellMarked(t.operations)
      && t.id in world.journal && WellMarked(world.journal[t.id].operations)
      && !world.journal[t.id].ended && !world.journal[t.id].committed
    }

    lemma OpenUnfinished(t: Transaction)
      requires Open(t)
      ensures Unfinished(world.journal, t.id) && WellMarked(t.operations)
    {
    }

    method Save(t: Transaction) returns (ok: bool)
      requires Open(t)
      modifies world
      ensures Open(t) && world.host == old(world.host) && OthersKept(t.id, old(world.journal))
      ensures world.trace == old(world.trace) + [world.Now()] && Unfinished(world.journal, t.id)
      ensures world.calm ==> old(world.calm) && ok == Storable(t.id)
      ensures old(world.Valid()) ==> world.Valid()
    {
      ok := world.Save(t.Current());
    }

    method Begin(t: Transaction, id: Id) returns (ok: bool)
      requires Open(t)
      modifies world, t`operations
      ensures Open(t) && world.host == old(world.host) && OthersKept(t.id, old(world.journal))
      ensures t.operations == SetStatus(old(t.operations), id, Applying)
      ensures old(world.trace) <= world.trace && Still(world.trace, |old(world.trace)|, t.id, world.host)
      ensures old(world.Valid()) ==> world.Valid()
      ensures ok ==> Names(old(t.operations), id)
      ensures world.calm ==> old(world.calm) && ok == (Storable(t.id) && Names(old(t.operations), id))
    {
      WellMarkedKept(t.operations, id, Applying);
      ok := t.UpdateStatus(id, Applying);
      if ok {
        ok := Save(t);
      }
    }

    method Complete(t: Transaction, id: Id) returns (ok: bool)
      requires Open(t)
      modifies world, t`operations
      ensures Open(t) && world.host == old(world.host) && OthersKept(t.id, old(world.journal))
      ensures t.operations == SetStatus(old(t.operations), id, Applied)
      ensures old(world.trace) <= world.trace && Still(world.trace, |old(world.trace)|, t.id, world.host)
      ensures old(world.Valid()) ==> world.Valid()
      ensures world.calm ==> old(world.calm) && ok == (Storable(t.id) && Names(old(t.operations), id))
    {
      WellMarkedKept(t.operations, id, Applied);
      ok := t.UpdateStatus(id, Applied);
      if ok {
        ok := Save(t);
      }
    }

    /** Mark the operation failed, and record it if that can be done. */
    method Fail(t: Transaction, id: Id)
      requires Open(t)
      modifies world, t`operations
      ensures Open(t) && world.host == old(world.host) && OthersKept(t.id, old(world.journal))
      ensures t.operations == SetStatus(old(t.operations), id, Failed)
      ensures old(world.trace) <= world.trace && Still(world.trace, |old(world.trace)|, t.id, world.host)
      ensures old(world.Valid()) ==> world.Valid()
      ensures world.calm ==> old(world.calm)
    {
      WellMarkedKept(t.operations, id, Failed);
      var _ := t.UpdateStatus(id, Failed);
      var _ := Save(t);
    }

    /** A controller call made while the record is open. */
    method Call(t: Transaction, e: Effect) returns (ok: bool)
      requires Open(t)
      modifies world
      ensures Open(t) && world.journal == old(world.journal)
      ensures ok ==> Accepted(old(world.host), e)
      ensures world.host == if ok then Performed(old(world.host), e) else old(world.host)
      ensures old(world.trace) <= world.trace && Still(world.trace, |old(world.trace)|, t.id, world.host)
      ensures old(world.Valid()) ==> world.Valid()
      ensures world.calm ==> old(world.calm) && ok == Accepted(old(world.host), e)
    {
      ok := world.Call(e);
    }

    method MaybeInject(kind: Kind) returns (ok: bool)
      modifies this`inject
      ensures ok == (old(inject) != Some(kind)) && inject == if ok then old(inject) else None
    {
      if inject == Some(kind) {
        inject := None;
        return false;
      }
      return true;
    }

    /** Begin, call the host where the step has something to do, and complete. */
    method Take(t: Transaction, step: Step, ghost h: HostState, ghost ops: seq<Operation>, ghost steps: seq<Step>,
                ghost k: nat)
      returns (ok: bool, ghost stop: Stop)
      requires k < |steps| && steps[k] == step && Open(t) && At(t, h, ops, steps, Done(k))
      modifies world, t`operations
      ensures Open(t) && At(t, h, ops, steps, stop) && (ok ==> stop == Done(k + 1))
      ensures OthersKept(t.id, old(world.journal))
      ensures old(world.trace) <= world.trace && Underway(world.trace, |old(world.trace)|, t.id, h, steps)
      ensures old(world.Valid()) ==> world.Valid()
      ensures world.calm ==> old(world.calm) && ok == Goes(h, ops, steps, k, Storable(t.id))
    {
      hide WellMarked, First, HostAt, OpsAt, OpsAtStop, Ran, Reached, SetStatus, Stepped, Underway, Unfinished, Open, Names;
      StopsAt(h, ops, steps, k);
      OpsAtNames(ops, steps, k, step.id);
      ghost var from := |world.trace|;
      ok := Begin(t, step.id);
      StandsAt(world.trace, from, t.id, h, steps, k);
      if !ok {
        return false, Begun(k);
      }
      ghost var called := world.trace;
      if step.effect != Nothing {
        ok := Call(t, step.effect);
        if !ok {
          AgainExact(OpsAt(ops, steps, k), step.id, Applying, Failed);
          Fail(t, step.id);
          StandsAt(world.trace, |called|, t.id, h, steps, k);
          GoesOn(called, world.trace, from, t.id, h, steps);
          return false, Refused(k);
        }
      }
      AgainExact(OpsAt(ops, steps, k), step.id, Applying, Applied);
      SetStatusNames(OpsAt(ops, steps, k), step.id, Applying, step.id);
      ok := Complete(t, step.id);
      StandsAt(world.trace, |called|, t.id, h, steps, k + 1);
      GoesOn(called, world.trace, from, t.id, h, steps);
      return ok, Done(k + 1);
    }

    method ApplyInterface(t: Transaction, plan: Plan, ghost h: HostState, ghost ops: seq<Operation>)
      returns (ok: bool, ghost stop: Stop)
      requires plan.TouchesInterface() && Open(t) && At(t, h, ops, Steps(plan), Done(0))
      modifies world, t`operations, this`inject
      ensures Open(t) && At(t, h, ops, Steps(plan), stop) && OthersKept(t.id, old(world.journal))
      ensures ok ==> stop == Done(|InterfaceSteps(plan.iface)|) && inject == old(inject)
      ensures ok ==> inject !in {Some(CreateInterface), Some(ConfigureInterface), Some(SetLinkUp), Some(AddAddress)}
      ensures old(world.trace) <= world.trace && Underway(world.trace, |old(world.trace)|, t.id, h, Steps(plan))
      ensures old(world.Valid()) ==> world.Valid()
      ensures world.calm ==> old(world.calm)
      ensures world.calm ==>
        ok == (GoesBetween(h, ops, Steps(plan), 0, |InterfaceSteps(plan.iface)|, Storable(t.id))
          && old(inject) !in {Some(CreateInterface), Some(ConfigureInterface), Some(SetLinkUp), Some(AddAddress)})
    {
      hide HostAt, OpsAtStop, OpsAt, Ran, Unfinished, Stepped, Goes, Reached, Open, At;
      InterfaceStepsAt(plan);
      hide Steps;
      ok, stop := ApplyLinks(t, plan, h, ops);
      if !ok {
        return;
      }
      ok, stop := ApplyAddresses(t, plan, h, ops);
      if !ok {
        return;
      }
      ok := MaybeInject(AddAddress);
    }

    method ApplyLinks(t: Transaction, plan: Plan, ghost h: HostState, ghost ops: seq<Operation>)
      returns (ok: bool, ghost stop: Stop)
      requires plan.TouchesInterface() && Open(t) && 3 <= |Steps(plan)| && At(t, h, ops, Steps(plan), Done(0))
      modifies world, t`operations, this`inject
      ensures Open(t) && At(t, h, ops, Steps(plan), stop) && OthersKept(t.id, old(world.journal))
      ensures ok ==> stop == Done(3) && inject == old(inject)
      ensures ok ==> inject !in {Some(CreateInterface), Some(ConfigureInterface), Some(SetLinkUp)}
      ensures old(world.trace) <= world.trace && Underway(world.trace, |old(world.trace)|, t.id, h, Steps(plan))
      ensures old(world.Valid()) ==> world.Valid()
      ensures world.calm ==> old(world.calm)
      ensures world.calm ==>
        ok == (GoesBetween(h, ops, Steps(plan), 0, 3, Storable(t.id))
          && old(inject) !in {Some(CreateInterface), Some(ConfigureInterface), Some(SetLinkUp)})
    {
      hide HostAt, OpsAtStop, OpsAt, Ran, Unfinished, Stepped, Goes, Reached, Open, At;
      ghost var steps := Steps(plan);
      ok, stop := true, Done(0);
      InterfaceStepsAt(plan);
      hide Steps;
      var links := [Step(Create(plan.iface.name), Ensure(plan.iface)), Step(Configure(plan.iface.name), Nothing),
                    Step(LinkUp(plan.iface.name), Nothing)];
      for i := 0 to |links|
        invariant ok && Open(t) && At(t, h, ops, steps, stop) && stop == Done(i) && inject == old(inject)
        invariant OthersKept(t.id, old(world.journal))
        invariant world.calm ==> old(world.calm) && GoesBetween(h, ops, steps, 0, i, Storable(t.id))
        invariant forall j :: 0 <= j < i ==> inject != Some(links[j].id.KindOf())
        invariant old(world.trace) <= world.trace && Underway(world.trace, |old(world.trace)|, t.id, h, steps)
        invariant old(world.Valid()) ==> world.Valid()
      {
        ok, stop := Take(t, links[i], h, ops, steps, i);
        if !ok {
          return;
        }
        ok := MaybeInject(links[i].id.KindOf());
        if !ok {
          return;
        }
      }
      assert links[0].id.KindOf() == CreateInterface && links[1].id.KindOf() == ConfigureInterface;
      assert links[2].id.KindOf() == SetLinkUp;
    }

    method ApplyAddresses(t: Transaction, plan: Plan, ghost h: HostState, ghost ops: seq<Operation>)
      returns (ok: bool, ghost stop: Stop)
      requires plan.TouchesInterface() && Open(t) && 3 <= |Steps(plan)| && At(t, h, ops, Steps(plan), Done(3))
      modifies world, t`operations
      ensures Open(t) && At(t, h, ops, Steps(plan), stop) && OthersKept(t.id, old(world.journal))
      ensures ok ==> stop == Done(|InterfaceSteps(plan.iface)|)
      ensures old(world.trace) <= world.trace && Underway(world.trace, |old(world.trace)|, t.id, h, Steps(plan))
      ensures old(world.Valid()) ==> world.Valid()
      ensures world.calm ==> old(world.calm)
      ensures world.calm ==> ok == GoesBetween(h, ops, Steps(plan), 3, |InterfaceSteps(plan.iface)|, Storable(t.id))
    {
      hide HostAt, OpsAtStop, OpsAt, Ran, Unfinished, Stepped, Goes, Reached, Open, At;
      ghost var steps := Steps(plan);
      InterfaceStepsAt(plan);
      hide Steps;
      ok, stop := true, Done(3);
      for i := 0 to |plan.iface.addresses|
        invariant ok && Open(t) && At(t, h, ops, steps, stop) && stop == Done(3 + i)
        invariant OthersKept(t.id, old(world.journal))
        invariant world.calm ==> old(world.calm) && GoesBetween(h, ops, steps, 3, 3 + i, Storable(t.id))
        invariant old(world.trace) <= world.trace && Underway(world.trace, |old(world.trace)|, t.id, h, steps)
        invariant old(world.Valid()) ==> world.Valid()
      {
        ok, stop := Take(t, Step(Address(plan.iface.addresses[i]), Nothing), h, ops, steps, 3 + i);
        if !ok {
          return;
        }
      }
    }

    method ApplyPeers(t: Transaction, plan: Plan, ghost h: HostState, ghost ops: seq<Operation>, ghost from: nat)
      returns (ok: bool, ghost stop: Stop)
      requires from + |plan.peers| + |plan.routes| == |Steps(plan)|
      requires Open(t) && At(t, h, ops, Steps(plan), Done(from))
      modifies world, t`operations, this`inject
      ensures Open(t) && At(t, h, ops, Steps(plan), stop) && OthersKept(t.id, old(world.journal))
      ensures ok ==> stop == Done(from + |plan.peers|) && inject == old(inject)
      ensures ok && plan.peers != [] ==> inject != Some(Kind.ApplyPeer)
      ensures old(world.trace) <= world.trace && Underway(world.trace, |old(world.trace)|, t.id, h, Steps(plan))
      ensures old(world.Valid()) ==> world.Valid()
      ensures world.calm ==> old(world.calm)
      ensures world.calm ==>
        ok == (GoesBetween(h, ops, Steps(plan), from, from + |plan.peers|, Storable(t.id))
          && (plan.peers == [] || old(inject) != Some(Kind.ApplyPeer)))
    {
      hide HostAt, OpsAtStop, OpsAt, Ran, Steps, Unfinished, Stepped, PeerSteps, RouteSteps, Goes, Reached, Open, At;
      ghost var steps := Steps(plan);
      ok, stop := true, Done(from);
      for i := 0 to |plan.peers|
        invariant Open(t) && At(t, h, ops, steps, stop) && stop == Done(from + i) && inject == old(inject)
        invariant OthersKept(t.id, old(world.journal))
        invariant world.calm ==> old(world.calm) && GoesBetween(h, ops, steps, from, from + i, Storable(t.id))
        invariant ok && (i > 0 ==> inject != Some(Kind.ApplyPeer))
        invariant old(world.trace) <= world.trace && Underway(world.trace, |old(world.trace)|, t.id, h, steps)
        invariant old(world.Valid()) ==> world.Valid()
      {
        var peer := plan.peers[i];
        PeerStepAt(plan, from, i);
        ok, stop := Take(t, Step(PeerOf(peer.key), Effect.ApplyPeer(plan.iface.name, peer)), h, ops, steps, from + i);
        if !ok {
          return;
        }
        ok := MaybeInject(Kind.ApplyPeer);
        if !ok {
          return;
        }
      }
    }

    method ApplyRoutes(t: Transaction, plan: Plan, ghost h: HostState, ghost ops: seq<Operation>, ghost from: nat)
      returns (ok: bool, ghost stop: Stop)
      requires from + |plan.routes| == |Steps(plan)|
      requires Open(t) && At(t, h, ops, Steps(plan), Done(from))
      modifies world, t`operations, this`inject
      ensures Open(t) && At(t, h, ops, Steps(plan), stop) && OthersKept(t.id, old(world.journal))
      ensures ok ==> stop == Done(|Steps(plan)|) && inject == old(inject)
      ensures ok && plan.routes != [] ==> inject != Some(Kind.AddRoute)
      ensures old(world.trace) <= world.trace && Underway(world.trace, |old(world.trace)|, t.id, h, Steps(plan))
      ensures old(world.Valid()) ==> world.Valid()
      ensures world.calm ==> old(world.calm)
      ensures world.calm ==>
        ok == (GoesBetween(h, ops, Steps(plan), from, |Steps(plan)|, Storable(t.id))
          && (plan.routes == [] || old(inject) != Some(Kind.AddRoute)))
    {
      hide HostAt, OpsAtStop, OpsAt, Ran, Steps, Unfinished, Stepped, PeerSteps, RouteSteps, Goes, Reached, Open, At;
      ghost var steps := Steps(plan);
      ok, stop := true, Done(from);
      for i := 0 to |plan.routes|
        invariant Open(t) && At(t, h, ops, steps, stop) && stop == Done(from + i) && inject == old(inject)
        invariant OthersKept(t.id, old(world.journal))
        invariant world.calm ==> old(world.calm) && GoesBetween(h, ops, steps, from, from + i, Storable(t.id))
        invariant ok && (i > 0 ==> inject != Some(Kind.AddRoute))
        invariant old(world.trace) <= world.trace && Underway(world.trace, |old(world.trace)|, t.id, h, steps)
        invariant old(world.Valid()) ==> world.Valid()
      {
        var prefix := plan.routes[i];
        RouteStepAt(plan, from, i);
        ok, stop := Take(t, Step(RouteTo(prefix), Effect.AddRoute(plan.iface.name, prefix)), h, ops, steps, from + i);
        if !ok {
          return;
        }
        ok := MaybeInject(Kind.AddRoute);
        if !ok {
          return;
        }
      }
    }

    /** What parses back from the journal is called; a prefix that does not parse is an error. */
    method Undo(name: Name, id: Id) returns (ok: bool)
      modifies world
      ensures world.host == if ok then Performed(old(world.host), UndoEffect(name, id)) else old(world.host)
      ensures world.journal == old(world.journal)
      ensures old(world.trace) <= world.trace
      ensures forall i :: |old(world.trace)| <= i < |world.trace| ==> world.trace[i] == world.Now()
      ensures world.calm ==> old(world.calm) && ok == Undoable(name, id)
      ensures old(world.Valid()) ==> world.Valid()
    {
      if id.RouteTo? && !id.prefix.Valid() {
        return false;
      }
      var effect := UndoEffect(name, id);
      if effect == Nothing {
        return true;
      }
      ok := world.Call(effect);
    }

    /** Newest first; a failed undo does not stop the others. */
    method Compensate(t: Transaction) returns (ok: bool, ghost outcomes: seq<bool>)
      modifies world, t`operations
      ensures |outcomes| == |UndoOrder(old(t.operations))| && ok == AllTrue(outcomes)
      ensures world.host == Unwound(old(world.host), t.iface, UndoOrder(old(t.operations)), outcomes)
      ensures t.operations == Marked(old(t.operations), UndoOrder(old(t.operations)), outcomes)
      ensures world.journal == old(world.journal) && old(world.trace) <= world.trace
      ensures UndosOnly(world.trace, |old(world.trace)|, world.journal, old(world.host), t.iface,
        UndoOrder(old(t.operations)), outcomes)
      ensures world.calm ==> old(world.calm) && Undid(t.iface, UndoOrder(old(t.operations)), outcomes)
      ensures old(world.Valid()) ==> world.Valid()
    {
      var order := t.CompensationOrder();
      ok, outcomes := true, [];
      NothingUndone(world.host, t.iface, t.operations, order, world.trace, world.journal);
      hide Unwound, Marked, Undid, UndosOnly, UndoEffect;
      for i := 0 to |order|
        invariant |outcomes| == i && ok == AllTrue(outcomes)
        invariant world.calm ==> old(world.calm) && Undid(t.iface, order[..i], outcomes)
        invariant world.host == Unwound(old(world.host), t.iface, order[..i], outcomes)
        invariant t.operations == Marked(old(t.operations), order[..i], outcomes)
        invariant world.journal == old(world.journal) && old(world.trace) <= world.trace
        invariant UndosOnly(world.trace, |old(world.trace)|, world.journal, old(world.host), t.iface, order[..i], outcomes)
        invariant old(world.Valid()) ==> world.Valid()
      {
        ghost var before := world.trace;
        var undone := UndoOne(t, order[i]);
        UndoneTo(old(world.host), old(t.operations), t.iface, order, i, outcomes, undone);
        UndosFurther(before, world.trace, |old(world.trace)|, world.journal, old(world.host), t.iface, order, i, outcomes,
          undone);
        outcomes := outcomes + [undone];
        AllTrueMore(outcomes, i);
        ok := ok && undone;
      }
      assert order[..|order|] == order;
    }

    /** One operation: passed over if it was there before, else undone, and marked unless that failed. */
    method UndoOne(t: Transaction, op: Operation) returns (undone: bool)
      modifies world, t`operations
      ensures op.existed ==> undone
      ensures world.host ==
        if op.existed || !undone then old(world.host) else Performed(old(world.host), UndoEffect(t.iface, op.id))
      ensures t.operations == if undone then SetStatus(old(t.operations), op.id, RolledBack) else old(t.operations)
      ensures world.journal == old(world.journal) && old(world.trace) <= world.trace
      ensures forall i :: |old(world.trace)| <= i < |world.trace| ==> world.trace[i] == world.Now()
      ensures world.calm ==> old(world.calm) && undone == (op.existed || Undoable(t.iface, op.id))
      ensures old(world.Valid()) ==> world.Valid()
    {
      undone := true;
      if !op.existed {
        undone := Undo(t.iface, op.id);
      }
      if undone {
        var _ := t.UpdateStatus(op.id, RolledBack);
      }
    }

    /** Everything up to the point where the run succeeds or starts to fail. */
    method ApplyAll(t: Transaction, plan: Plan, ghost h: HostState, ghost ops: seq<Operation>)
      returns (ok: bool, ghost stop: Stop)
      requires Open(t) && At(t, h, ops, Steps(plan), Done(0))
      modifies world, t`operations, this`inject
      ensures Open(t) && At(t, h, ops, Steps(plan), stop) && OthersKept(t.id, old(world.journal))
      ensures ok ==> stop == Done(|Steps(plan)|) && inject == old(inject) && Spared(plan, inject)
      ensures old(world.trace) <= world.trace && Underway(world.trace, |old(world.trace)|, t.id, h, Steps(plan))
      ensures old(world.Valid()) ==> world.Valid()
      ensures world.calm ==> old(world.calm)
      ensures world.calm ==>
        ok == (GoesBetween(h, ops, Steps(plan), 0, |Steps(plan)|, Storable(t.id)) && Spared(plan, old(inject)))
    {
      hide HostAt, OpsAtStop, OpsAt, Ran, Unfinished, Stepped, Open, At, Goes, Steps, InterfaceSteps;
      ghost var from := 0;
      StepCount(plan);
      ok, stop := true, Done(0);
      if plan.TouchesInterface() {
        ok, stop := ApplyInterface(t, plan, h, ops);
        if !ok {
          return;
        }
        from := |InterfaceSteps(plan.iface)|;
      }
      ok, stop := ApplyPeers(t, plan, h, ops, from);
      if !ok {
        return;
      }
      ok, stop := ApplyRoutes(t, plan, h, ops, from + |plan.peers|);
    }

    /** The deferred half of a failed run: compensate, close, and record, whatever the save says. */
    method RollBack(t: Transaction) returns (ghost outcomes: seq<bool>)
      modifies world, t`operations, t`ended
      ensures |outcomes| == |UndoOrder(old(t.operations))|
      ensures world.host == Unwound(old(world.host), t.iface, UndoOrder(old(t.operations)), outcomes)
      ensures t.Current() == Record(t.id, t.iface, Marked(old(t.operations), UndoOrder(old(t.operations)), outcomes),
        true, old(t.committed))
      ensures world.journal in {old(world.journal), old(world.journal)[t.id := t.Current()]}
      ensures old(world.trace) < world.trace && world.trace[|world.trace| - 1] == world.Now()
      ensures UndosOnly(world.trace[..|world.trace| - 1], |old(world.trace)|, old(world.journal), old(world.host), t.iface,
        UndoOrder(old(t.operations)), outcomes)
      ensures world.calm ==> old(world.calm) && Undid(t.iface, UndoOrder(old(t.operations)), outcomes)
      ensures old(world.Valid()) && WellMarked(old(t.operations)) ==> world.Valid()
    {
      var _, results := Compensate(t);
      outcomes := results;
      if WellMarked(old(t.operations)) {
        MarkedWell(old(t.operations), UndoOrder(old(t.operations)), outcomes);
      }
      t.Close();
      var _ := world.Save(t.Current());
    }

    /**
     Apply a plan: all of it, or compensate what was done. What a crash would find is
     said of every moment.
     */
    method Apply(plan: Plan) returns (r: Option<Transaction>, ghost end: Ending)
      modifies world, this`inject
      ensures r.Some? <==> end.Committed?
      ensures end.Committed? ==> Reached(old(world.host), Steps(plan), Done(|Steps(plan)|))
      ensures end.Committed? ==> world.host == HostAt(old(world.host), Steps(plan), |Steps(plan)|)
      ensures end.Committed? ==> Spared(plan, old(inject))
      ensures r.Some? ==> fresh(r.value) && r.value.Current() == CommittedRecord(plan)
      ensures r.Some? ==> plan.id in world.journal && world.journal[plan.id] == CommittedRecord(plan)
      ensures end.Unstarted? ==> world.host == old(world.host)
      ensures end.Stopped? ==> LeftBehind(plan, Fresh(plan.operations), old(world.host), world.host, end.stop, end.outcomes)
      ensures OthersKept(plan.id, old(world.journal))
      ensures old(world.trace) < world.trace && world.trace[|world.trace| - 1] == world.Now()
      ensures Accounted(world.trace, |old(world.trace)|, plan, old(world.host), end)
      ensures end.Stopped? && end.lapsed ==> !world.calm && end.stop == Done(|Steps(plan)|)
      ensures old(world.Valid()) ==> world.Valid()
      ensures world.calm ==> old(world.calm) && (end.Committed? <==> GoesThrough(plan, old(world.host), old(inject)))
      ensures world.calm && end.Stopped? ==> UndidAll(plan, Fresh(plan.operations), end.stop, end.outcomes)
    {
      hide HostAt, OpsAt, OpsAtStop, Ran, Reached, Unwound, Marked, Steps, Spared, UndoOrder, Fresh;
      ghost var h, ops := world.host, Fresh(plan.operations);
      DoneOps(h, ops, Steps(plan));
      var t := new Transaction(plan.id, plan.iface.name);
      PlanAll(t, plan.operations);
      var saved := world.Save(t.Current());
      if !saved {
        return None, Unstarted;
      }
      ghost var before := |world.trace|;
      var ok, stop, outcomes, lapsed := Carry(t, plan, h);
      r := if ok then Some(t) else None;
      end := if ok then Committed else Ending.Stopped(stop, outcomes, lapsed);
    }

    /** The part of a run that any failure rolls back, a failure to record the commit included. */
    method Carry(t: Transaction, plan: Plan, ghost h: HostState)
      returns (ok: bool, ghost stop: Stop, ghost outcomes: seq<bool>, ghost lapsed: bool)
      requires Open(t) && At(t, h, Fresh(plan.operations), Steps(plan), Done(0)) && Storable(t.id)
      requires t.iface == plan.iface.name && t.id == plan.id
      modifies world, t, this`inject
      ensures OthersKept(t.id, old(world.journal)) && Reached(h, Steps(plan), stop)
      ensures ok ==> stop == Done(|Steps(plan)|) && world.host == HostAt(h, Steps(plan), stop.k)
      ensures ok ==> t.Current() == Record(t.id, t.iface, OpsAtStop(Fresh(plan.operations), Steps(plan), stop), true, true)
      ensures ok ==> Spared(plan, old(inject)) && t.id in world.journal && world.journal[t.id] == t.Current()
      ensures !ok ==> LeftBehind(plan, Fresh(plan.operations), h, world.host, stop, outcomes)
      ensures old(world.trace) < world.trace && world.trace[|world.trace| - 1] == world.Now()
      ensures Accounted(world.trace, |old(world.trace)|, plan, h,
        if ok then Committed else Ending.Stopped(stop, outcomes, lapsed))
      ensures lapsed ==> !ok && !world.calm && stop == Done(|Steps(plan)|)
      ensures world.calm ==> old(world.calm)
      ensures world.calm ==>
        ok == (GoesBetween(h, Fresh(plan.operations), Steps(plan), 0, |Steps(plan)|, Storable(t.id)) && Spared(plan, old(inject)))
      ensures world.calm && !ok ==> UndidAll(plan, Fresh(plan.operations), stop, outcomes)
      ensures old(world.Valid()) ==> world.Valid()
    {
      hide HostAt, OpsAt, OpsAtStop, Ran, Reached, Unwound, Marked, Steps, Spared, UndoOrder, Fresh, Unfinished,
           Accounted, Open, WellMarked, LeftBehind, UndidAll, GoesBetween, Underway;
      ghost var from := |world.trace|;
      outcomes, lapsed := [], false;
      ok, stop := ApplyAll(t, plan, h, Fresh(plan.operations));
      OpenUnfinished(t);
      ghost var stepped := world.trace;
      if ok {
        DoneOps(h, Fresh(plan.operations), Steps(plan));
        ok := TryCommit(t);
        assert t.Current() == CommittedRecord(plan);
        hide CommittedRecord;
        lapsed := !ok && CommittedIn(world.journal, plan);
        if ok {
          CommittedMoments(world.trace, from, plan, h);
          return;
        }
      }
      assert world.trace[..|stepped|] == stepped;
      outcomes := GiveUp(t, plan, h, stop, from, |stepped|, lapsed);
    }

    /** The rollback, seen from the plan: the steps, a commit that failed, the undos and the closing save. */
    method GiveUp(t: Transaction, plan: Plan, ghost h: HostState, ghost stop: Stop, ghost from: nat, ghost stepped: nat,
                  ghost lapsed: bool)
      returns (ghost outcomes: seq<bool>)
      requires At(t, h, Fresh(plan.operations), Steps(plan), stop) && WellMarked(t.operations)
      requires t.iface == plan.iface.name && t.id == plan.id
      requires from <= stepped <= |world.trace|
      requires Underway(world.trace[..stepped], from, plan.id, h, Steps(plan))
      requires Tried(world.trace, stepped, plan, h, stop)
      requires if lapsed then CommittedIn(world.journal, plan) else Unfinished(world.journal, plan.id)
      modifies world, t`operations, t`ended
      ensures OthersKept(t.id, old(world.journal))
      ensures LeftBehind(plan, Fresh(plan.operations), h, world.host, stop, outcomes)
      ensures old(world.trace) < world.trace && world.trace[|world.trace| - 1] == world.Now()
      ensures Accounted(world.trace, from, plan, h, Ending.Stopped(stop, outcomes, lapsed))
      ensures world.calm ==> old(world.calm) && UndidAll(plan, Fresh(plan.operations), stop, outcomes)
      ensures old(world.Valid()) ==> world.Valid()
    {
      hide HostAt, OpsAt, OpsAtStop, Ran, Unwound, Marked, Steps, UndoOrder, Fresh, Unfinished, Accounted, WellMarked, Tried;
      ReachedIn(h, Steps(plan), stop);
      hide Reached;
      ghost var tried, kept := world.trace, world.journal;
      outcomes := RollBack(t);
      assert world.trace[..stepped] == tried[..stepped];
      TriedStill(tried, world.trace, stepped, plan, h, stop);
      assert world.journal == kept || Closed(world.Now(), plan, stop, outcomes);
      StoppedMoments(world.trace, from, stepped, |tried|, plan, h, stop, outcomes, lapsed, kept);
    }

    /** A commit that cannot be recorded is no commit, though its flag stays set, and may be on file. */
    method TryCommit(t: Transaction) returns (ok: bool)
      requires Open(t)
      modifies world, t`ended, t`committed
      ensures t.Current() == old(t.Current()).(ended := true, committed := true)
      ensures world.host == old(world.host) && OthersKept(t.id, old(world.journal))
      ensures world.trace == old(world.trace) + [world.Now()]
      ensures t.id in world.journal && (Unfinished(world.journal, t.id) || world.journal[t.id] == t.Current())
      ensures ok ==> world.journal[t.id] == t.Current()
      ensures world.calm ==> old(world.calm) && ok == Storable(t.id)
      ensures old(world.Valid()) ==> world.Valid()
    {
      t.Commit();
      ok := world.Save(t.Current());
    }

    /** Observe first, so that the plan knows what it found. */
    method PlanInterface(id: string, spec: InterfaceSpec, peers: seq<PeerSpec>) returns (r: Option<Plan>)
      modifies world`calm
      ensures world.calm ==> old(world.calm) && r.Some? == (id != "")
      ensures r.Some? ==> id != "" && r.value == InterfacePlan(world.host, id, spec, peers)
    {
      if id == "" {
        return None;
      }
      var seen := world.ObserveInterface(spec.name);
      if seen.Unreadable? {
        return None;
      }
      var existed := seen.Found?;
      var held := if existed then seen.iface.addresses else [];
      var present := if existed then seen.iface.peers.Keys else {};
      var operations := [Operation(Create(spec.name), existed, Planned), Operation(Configure(spec.name), existed, Planned)];
      InterfaceIdsAt(spec, peers);
      assert operations == PlannedOps(world.host, spec.name, InterfaceIds(spec, peers)[..2]);
      operations := PlanAddresses(operations, spec, existed, held, peers);
      PlannedNext(world.host, spec.name, InterfaceIds(spec, peers), 2 + |spec.addresses|);
      operations := operations + [Operation(LinkUp(spec.name), existed, Planned)];
      operations := PlanPeers(operations, spec, existed, present, peers);
      return Some(Plan(id, spec, peers, [], operations));
    }

    method PlanAddresses(before: seq<Operation>, spec: InterfaceSpec, existed: bool, held: seq<Prefix>,
                         ghost peers: seq<PeerSpec>)
      returns (operations: seq<Operation>)
      requires |InterfaceIds(spec, peers)| >= 2 + |spec.addresses|
      requires before == PlannedOps(world.host, spec.name, InterfaceIds(spec, peers)[..2])
      requires existed == (spec.name in world.host.interfaces)
      requires existed ==> held == world.host.interfaces[spec.name].addresses
      ensures operations == PlannedOps(world.host, spec.name, InterfaceIds(spec, peers)[..2 + |spec.addresses|])
    {
      ghost var h, ids := world.host, InterfaceIds(spec, peers);
      InterfaceIdsAt(spec, peers);
      hide PlannedOps, InterfaceIds;
      operations := before;
      for i := 0 to |spec.addresses|
        invariant operations == PlannedOps(h, spec.name, ids[..2 + i])
      {
        PlannedNext(h, spec.name, ids, 2 + i);
        operations := operations + [Operation(Address(spec.addresses[i]), existed && spec.addresses[i] in held, Planned)];
      }
    }

    method PlanPeers(before: seq<Operation>, spec: InterfaceSpec, existed: bool, present: set<PeerKey>,
                     peers: seq<PeerSpec>)
      returns (operations: seq<Operation>)
      requires |InterfaceIds(spec, peers)| == 3 + |spec.addresses| + |peers|
      requires before == PlannedOps(world.host, spec.name, InterfaceIds(spec, peers)[..3 + |spec.addresses|])
      requires existed == (spec.name in world.host.interfaces)
      requires existed ==> present == world.host.interfaces[spec.name].peers.Keys
      ensures operations == PlannedOps(world.host, spec.name, InterfaceIds(spec, peers))
    {
      ghost var h, ids, base := world.host, InterfaceIds(spec, peers), 3 + |spec.addresses|;
      InterfaceIdsAt(spec, peers);
      hide PlannedOps, InterfaceIds;
      operations := before;
      for i := 0 to |peers|
        invariant operations == PlannedOps(h, spec.name, ids[..base + i])
      {
        PlannedNext(h, spec.name, ids, base + i);
        operations := operations + [Operation(PeerOf(peers[i].key), existed && peers[i].key in present, Planned)];
      }
      assert ids[..base + |peers|] == ids;
    }

    method PlanRoutes(id: string, name: Name, routes: seq<Prefix>) returns (r: Option<Plan>)
      modifies world`calm
      ensures world.calm ==> old(world.calm) && r.Some? == (name in world.host.interfaces)
      ensures r.Some? ==> name in world.host.interfaces && r.value == RoutePlan(world.host, id, name, routes)
    {
      var seen := world.ObserveInterface(name);
      if !seen.Found? {
        return None;
      }
      var operations := [];
      for i := 0 to |routes|
        invariant operations == PlannedOps(world.host, name, RouteIds(routes)[..i])
        invariant world.calm ==> old(world.calm)
      {
        var existed := world.HasRoute(name, routes[i]);
        if existed.None? {
          return None;
        }
        operations := operations + [Operation(RouteTo(routes[i]), existed.value, Planned)];
        assert RouteIds(routes)[i] == RouteTo(routes[i]);
      }
      assert RouteIds(routes)[..|routes|] == RouteIds(routes);
      return Some(Plan(id, InterfaceSpec(name, 0, [], 0), [], routes, operations));
    }

    method PlanAll(t: Transaction, ops: seq<Operation>)
      requires t.operations == [] && !t.ended
      modifies t`operations
      ensures t.operations == Fresh(ops) && WellMarked(t.operations)
    {
      for i := 0 to |ops|
        invariant t.operations == Fresh(ops[..i])
      {
        var _ := t.Plan(ops[i]);
        assert ops[..i + 1] == ops[..i] + [ops[i]];
      }
      assert ops[..|ops|] == ops;
    }
  }
}
