/**
 The vocabulary of a run of internal/netstate/manager.go: how it can end, what a
 crash at each of its moments finds on the host and in the journal, and how steps,
 a commit and undos add up to the whole.
 */
module Moments {
  import opened Prefixes
  import opened Host
  import opened Journal
  import opened Plans
  import opened Network
  import opened Rollback
  import opened Wrappers

  /** The record here is open: whatever the host holds, recovery will look into it. */
  ghost predicate Unfinished(journal: Records, id: string) {
    Pending(journal, id) && WellMarked(journal[id].operations)
  }

  ghost predicate CommittedIn(journal: Records, plan: Plan) {
    plan.id in journal && journal[plan.id] == CommittedRecord(plan)
  }

  /** The host after some number of the steps. */
  ghost predicate Stepped(x: HostState, h: HostState, steps: seq<Step>) {
    exists k :: 0 <= k <= |steps| && Ran(h, steps, k) && x == HostAt(h, steps, k)
  }

  /** The host after some number of the undos. */
  ghost predicate Rolling(x: HostState, h: HostState, name: Name, order: seq<Operation>, outcomes: seq<bool>)
    requires |outcomes| == |order|
  {
    exists k :: 0 <= k <= |order| && x == Unwound(h, name, order[..k], outcomes[..k])
  }

  /** Nothing but the journal moved, and the record stayed open. */
  ghost predicate Still(trace: seq<Snapshot>, from: nat, id: string, host: HostState) {
    forall i :: from <= i < |trace| ==> Unfinished(trace[i].journal, id) && trace[i].host == host
  }

  /** The steps are being taken, and the record stays open. */
  ghost predicate Underway(trace: seq<Snapshot>, from: nat, id: string, h: HostState, steps: seq<Step>) {
    forall i :: from <= i < |trace| ==> Unfinished(trace[i].journal, id) && Stepped(trace[i].host, h, steps)
  }

  /** Every step was taken and the commit did not go through, whatever it left on file. */
  ghost predicate Tried(trace: seq<Snapshot>, from: nat, plan: Plan, h: HostState, stop: Stop)
    requires stop.In(Steps(plan))
  {
    forall i :: from <= i < |trace| ==>
      stop.k == |Steps(plan)| && trace[i].host == HostAt(h, Steps(plan), stop.k)
      && (Unfinished(trace[i].journal, plan.id) || CommittedIn(trace[i].journal, plan))
  }

  /** The undos are being made, and the journal does not move. */
  ghost predicate UndosOnly(trace: seq<Snapshot>, from: nat, journal: Records, h: HostState, name: Name,
                            order: seq<Operation>, outcomes: seq<bool>)
    requires |outcomes| == |order|
  {
    forall i :: from <= i < |trace| ==> trace[i].journal == journal && Rolling(trace[i].host, h, name, order, outcomes)
  }

  /**
   What a crash at one moment of a run finds: the host as it was; or an open record,
   with steps being taken or undone; or the commit, with every step taken; or, when
   the commit replaced the record and yet failed, a record that says committed
   beside a host being undone. Only the last moment can find the record closed.
  */
  ghost predicate Moment(s: Snapshot, plan: Plan, h: HostState, end: Ending, last: bool) {
    s.host == h
    || (Unfinished(s.journal, plan.id) && Stepped(s.host, h, Steps(plan)))
    || (CommittedIn(s.journal, plan) && Ran(h, Steps(plan), |Steps(plan)|) && s.host == HostAt(h, Steps(plan), |Steps(plan)|))
    || (end.Stopped? && Undoing(s.host, plan, h, end.stop, end.outcomes)
        && (Unfinished(s.journal, plan.id) || (end.lapsed && CommittedIn(s.journal, plan))))
    || (end.Stopped? && last && Over(s, plan, h, end.stop, end.outcomes))
  }

  /** The undoing is done and the record closed. */
  ghost predicate Over(s: Snapshot, plan: Plan, h: HostState, stop: Stop, outcomes: seq<bool>) {
    LeftBehind(plan, Fresh(plan.operations), h, s.host, stop, outcomes) && Closed(s, plan, stop, outcomes)
  }

  /** The host as it was, or a record to have it looked into, or the change in full and committed. */
  ghost predicate Safe(s: Snapshot, plan: Plan, h: HostState) {
    s.host == h || Pending(s.journal, plan.id)
    || (CommittedIn(s.journal, plan) && s.host == HostAt(h, Steps(plan), |Steps(plan)|))
  }

  ghost predicate AlwaysSafe(trace: seq<Snapshot>, from: nat, plan: Plan, h: HostState) {
    forall i :: from <= i < |trace| ==> Safe(trace[i], plan, h)
  }

  /** A run that did not stop, or whose commit did not lapse and whose undoing restores the host, is safe at every moment. */
  lemma SafeThroughout(trace: seq<Snapshot>, from: nat, plan: Plan, h: HostState, end: Ending)
    requires Accounted(trace, from, plan, h, end)
    requires end.Stopped? ==> !end.lapsed && LeftBehind(plan, Fresh(plan.operations), h, h, end.stop, end.outcomes)
    ensures AlwaysSafe(trace, from, plan, h)
  {
    hide Steps, HostAt, Unwound, UndoOrder, OpsAtStop, Fresh, Stepped, Undoing, Closed, CommittedIn;
    forall i | from <= i < |trace| ensures Safe(trace[i], plan, h) {
      assert Moment(trace[i], plan, h, end, i == |trace| - 1);
    }
  }

  /** What every moment of a run would show. */
  ghost predicate Accounted(trace: seq<Snapshot>, from: nat, plan: Plan, h: HostState, end: Ending) {
    forall i :: from <= i < |trace| ==> Moment(trace[i], plan, h, end, i == |trace| - 1)
  }

  /** The record is closed, and its operations say where the run stopped and what was undone. */
  ghost predicate Closed(s: Snapshot, plan: Plan, stop: Stop, outcomes: seq<bool>) {
    stop.In(Steps(plan)) && plan.id in s.journal && s.journal[plan.id].ended &&
    var at := OpsAtStop(Fresh(plan.operations), Steps(plan), stop);
    |outcomes| == |UndoOrder(at)| && s.journal[plan.id].operations == Marked(at, UndoOrder(at), outcomes)
  }

  ghost predicate Undoing(x: HostState, plan: Plan, h: HostState, stop: Stop, outcomes: seq<bool>) {
    Reached(h, Steps(plan), stop) &&
    var order := UndoOrder(OpsAtStop(Fresh(plan.operations), Steps(plan), stop));
    |outcomes| == |order| && Rolling(x, HostAt(h, Steps(plan), stop.k), plan.iface.name, order, outcomes)
  }

  lemma InterfaceIdsAt(spec: InterfaceSpec, peers: seq<PeerSpec>)
    ensures var ids := InterfaceIds(spec, peers); var base := 3 + |spec.addresses|;
      |ids| == base + |peers| && ids[base - 1] == LinkUp(spec.name)
      && (forall i :: 0 <= i < |spec.addresses| ==> ids[2 + i] == Address(spec.addresses[i]))
      && forall i :: 0 <= i < |peers| ==> ids[base + i] == PeerOf(peers[i].key)
  {
  }

  lemma PlannedNext(h: HostState, name: Name, ids: seq<Id>, i: nat)
    requires i < |ids|
    ensures PlannedOps(h, name, ids[..i + 1]) ==
      PlannedOps(h, name, ids[..i]) + [Operation(ids[i], Exists(h, name, ids[i]), Planned)]
  {
  }

  lemma StandsAt(trace: seq<Snapshot>, from: nat, id: string, h: HostState, steps: seq<Step>, k: nat)
    requires k <= |steps| && Reached(h, steps, Done(k)) && Still(trace, from, id, HostAt(h, steps, k))
    ensures Underway(trace, from, id, h, steps)
  {
    hide HostAt, Ran, Unfinished;
  }

  lemma GoesOn(before: seq<Snapshot>, trace: seq<Snapshot>, from: nat, id: string, h: HostState, steps: seq<Step>)
    requires before <= trace
    requires Underway(before, from, id, h, steps) && Underway(trace, |before|, id, h, steps)
    ensures Underway(trace, from, id, h, steps)
  {
    hide Stepped, Unfinished;
    forall i | from <= i < |before| ensures trace[i] == before[i] {}
  }

  lemma CommittedMoments(trace: seq<Snapshot>, from: nat, plan: Plan, h: HostState)
    requires from < |trace| && Underway(trace[..|trace| - 1], from, plan.id, h, Steps(plan))
    requires Reached(h, Steps(plan), Done(|Steps(plan)|)) && CommittedIn(trace[|trace| - 1].journal, plan)
    requires trace[|trace| - 1].host == HostAt(h, Steps(plan), |Steps(plan)|)
    ensures Accounted(trace, from, plan, h, Committed)
  {
    hide HostAt, Ran, Steps, Stepped, Unfinished;
    forall i | from <= i < |trace| ensures Moment(trace[i], plan, h, Committed, i == |trace| - 1) {
      if i < |trace| - 1 { assert trace[i] == trace[..|trace| - 1][i]; }
    }
  }

  lemma TriedStill(before: seq<Snapshot>, trace: seq<Snapshot>, from: nat, plan: Plan, h: HostState, stop: Stop)
    requires stop.In(Steps(plan)) && before <= trace && Tried(before, from, plan, h, stop)
    ensures Tried(trace[..|before|], from, plan, h, stop)
  {
    assert trace[..|before|] == before;
  }

  /** Steps up to a, then a failed commit up to b, then undos, then the closing save. */
  lemma StoppedMoments(trace: seq<Snapshot>, from: nat, a: nat, b: nat, plan: Plan, h: HostState, stop: Stop,
                       outcomes: seq<bool>, lapsed: bool, kept: Records)
    requires from <= a <= b < |trace| && Reached(h, Steps(plan), stop)
    requires Underway(trace[..a], from, plan.id, h, Steps(plan)) && Tried(trace[..b], a, plan, h, stop)
    requires if lapsed then CommittedIn(kept, plan) else Unfinished(kept, plan.id)
    requires LeftBehind(plan, Fresh(plan.operations), h, trace[|trace| - 1].host, stop, outcomes)
    requires UndosOnly(trace[..|trace| - 1], b, kept, HostAt(h, Steps(plan), stop.k), plan.iface.name,
      UndoOrder(OpsAtStop(Fresh(plan.operations), Steps(plan), stop)), outcomes)
    requires var last := trace[|trace| - 1];
      Unfinished(last.journal, plan.id) || (lapsed && CommittedIn(last.journal, plan)) || Closed(last, plan, stop, outcomes)
    ensures Accounted(trace, from, plan, h, Ending.Stopped(stop, outcomes, lapsed))
  {
    hide HostAt, Steps, Unwound, OpsAtStop, Fresh, UndoOrder, Ran, Closed, Unfinished;
    var order := UndoOrder(OpsAtStop(Fresh(plan.operations), Steps(plan), stop));
    forall i | from <= i < |trace|
      ensures Moment(trace[i], plan, h, Ending.Stopped(stop, outcomes, lapsed), i == |trace| - 1)
    {
      if i < a {
        assert trace[i] == trace[..a][i];
      } else if a <= i < b {
        assert trace[i] == trace[..b][i];
        assert Stepped(trace[i].host, h, Steps(plan));
      } else if i < |trace| - 1 {
        assert trace[i] == trace[..|trace| - 1][i];
      } else {
        assert order[..|order|] == order && outcomes[..|order|] == outcomes;
      }
    }
  }

  lemma {:induction false} MarkedWell(ops: seq<Operation>, order: seq<Operation>, outcomes: seq<bool>)
    requires |outcomes| == |order| && WellMarked(ops)
    ensures WellMarked(Marked(ops, order, outcomes))
    decreases |order|
  {
    if order != [] {
      var n := |order| - 1;
      MarkedWell(ops, order[..n], outcomes[..n]);
      WellMarkedKept(Marked(ops, order[..n], outcomes[..n]), order[n].id, RolledBack);
    }
  }

  lemma NothingUndone(h: HostState, name: Name, ops: seq<Operation>, order: seq<Operation>, trace: seq<Snapshot>,
                      journal: Records)
    ensures order[..0] == [] && Unwound(h, name, order[..0], []) == h && Marked(ops, order[..0], []) == ops
    ensures Undid(name, order[..0], []) && UndosOnly(trace, |trace|, journal, h, name, order[..0], [])
  {
  }

  /** The host and the marks after one undo more. */
  lemma UndoneTo(h: HostState, ops: seq<Operation>, name: Name, order: seq<Operation>, i: nat, outcomes: seq<bool>,
                 undone: bool)
    requires i < |order| && |outcomes| == i && (order[i].existed ==> undone)
    ensures var more := outcomes + [undone];
      Unwound(h, name, order[..i + 1], more) ==
        (if order[i].existed || !undone then Unwound(h, name, order[..i], outcomes)
         else Performed(Unwound(h, name, order[..i], outcomes), UndoEffect(name, order[i].id)))
      && Marked(ops, order[..i + 1], more) ==
        (if undone then SetStatus(Marked(ops, order[..i], outcomes), order[i].id, RolledBack)
         else Marked(ops, order[..i], outcomes))
    ensures Undid(name, order[..i], outcomes) && undone == (order[i].existed || Undoable(name, order[i].id)) ==>
      Undid(name, order[..i + 1], outcomes + [undone])
  {
    assert order[..i + 1][..i] == order[..i] && (outcomes + [undone])[..i] == outcomes;
    hide Performed, UndoEffect;
  }

  lemma UndosFurther(before: seq<Snapshot>, trace: seq<Snapshot>, from: nat, journal: Records, h: HostState, name: Name,
                     order: seq<Operation>, i: nat, outcomes: seq<bool>, undone: bool)
    requires i < |order| && |outcomes| == i && from <= |before| && before <= trace
    requires UndosOnly(before, from, journal, h, name, order[..i], outcomes)
    requires forall j :: |before| <= j < |trace| ==>
      trace[j] == Snapshot(Unwound(h, name, order[..i + 1], outcomes + [undone]), journal)
    ensures UndosOnly(trace, from, journal, h, name, order[..i + 1], outcomes + [undone])
  {
    hide Unwound;
    var more := outcomes + [undone];
    forall j | from <= j < |trace| ensures trace[j].journal == journal && Rolling(trace[j].host, h, name, order[..i + 1], more) {
      if j < |before| {
        assert trace[j] == before[j];
        var k :| 0 <= k <= i && before[j].host == Unwound(h, name, order[..i][..k], outcomes[..k]);
        assert order[..i][..k] == order[..i + 1][..k] && outcomes[..k] == more[..k];
      } else {
        assert order[..i + 1][..i + 1] == order[..i + 1] && more[..i + 1] == more;
      }
    }
  }

  lemma AllTrueMore(outcomes: seq<bool>, i: nat)
    requires |outcomes| == i + 1
    ensures AllTrue(outcomes) == (AllTrue(outcomes[..i]) && outcomes[i])
  {
    if AllTrue(outcomes) { assert forall j :: 0 <= j < i ==> outcomes[..i][j] == outcomes[j]; }
    if AllTrue(outcomes[..i]) { assert forall j :: 0 <= j < i ==> outcomes[j] == outcomes[..i][j]; }
  }

  /** Without a fault, an undo failed only where it cannot be done. */
  ghost predicate Undid(name: Name, order: seq<Operation>, outcomes: seq<bool>)
    requires |outcomes| == |order|
  {
    forall i :: 0 <= i < |order| ==> outcomes[i] == (order[i].existed || Undoable(name, order[i].id))
  }

  ghost predicate UndidAll(plan: Plan, ops: seq<Operation>, stop: Stop, outcomes: seq<bool>) {
    stop.In(Steps(plan)) &&
    var order := UndoOrder(OpsAtStop(ops, Steps(plan), stop));
    |outcomes| == |order| && Undid(plan.iface.name, order, outcomes)
  }

  /** A plan that nothing but the environment can stop. */
  ghost predicate GoesThrough(plan: Plan, h: HostState, inject: Option<Kind>) {
    Storable(plan.id) && Spared(plan, inject)
    && GoesBetween(h, Fresh(plan.operations), Steps(plan), 0, |Steps(plan)|, true)
  }

  lemma SetStatusNames(ops: seq<Operation>, id: Id, status: Status, other: Id)
    ensures Names(SetStatus(ops, id, status), other) == Names(ops, other)
  {
    var r := SetStatus(ops, id, status);
    forall i | 0 <= i < |ops| ensures r[i].id == ops[i].id { SetStatusExact(ops, id, status, i); }
    if i :| 0 <= i < |ops| && ops[i].id == other { assert r[i].id == other; }
  }

  lemma {:induction false} OpsAtNames(ops: seq<Operation>, steps: seq<Step>, k: nat, id: Id)
    requires k <= |steps|
    ensures Names(OpsAt(ops, steps, k), id) == Names(ops, id)
  {
    if k > 0 {
      OpsAtNames(ops, steps, k - 1, id);
      SetStatusNames(OpsAt(ops, steps, k - 1), steps[k - 1].id, Applied, id);
    }
  }

  /** Where step k can leave a run that had done the steps before it. */
  lemma StopsAt(h: HostState, ops: seq<Operation>, steps: seq<Step>, k: nat)
    requires k < |steps| && Reached(h, steps, Done(k))
    ensures OpsAtStop(ops, steps, Done(k)) == OpsAt(ops, steps, k)
    ensures Reached(h, steps, Begun(k)) && Reached(h, steps, Refused(k))
    ensures OpsAtStop(ops, steps, Begun(k)) == SetStatus(OpsAt(ops, steps, k), steps[k].id, Applying)
    ensures OpsAtStop(ops, steps, Refused(k)) == SetStatus(OpsAt(ops, steps, k), steps[k].id, Failed)
    ensures OpsAtStop(ops, steps, Done(k + 1)) == SetStatus(OpsAt(ops, steps, k), steps[k].id, Applied)
    ensures HostAt(h, steps, k + 1) == Performed(HostAt(h, steps, k), steps[k].effect)
    ensures Accepted(HostAt(h, steps, k), steps[k].effect) ==> Reached(h, steps, Done(k + 1))
  {
    hide SetStatus;
  }

  /** Only the last mark on an operation stands. */
  lemma {:induction false} AgainExact(ops: seq<Operation>, id: Id, first: Status, second: Status)
    ensures SetStatus(SetStatus(ops, id, first), id, second) == SetStatus(ops, id, second)
  {
    if ops != [] && ops[0].id != id {
      AgainExact(ops[1..], id, first, second);
    }
  }

  lemma InterfaceStepsAt(plan: Plan)
    requires plan.TouchesInterface()
    ensures |Steps(plan)| >= 3 + |plan.iface.addresses| && |InterfaceSteps(plan.iface)| == 3 + |plan.iface.addresses|
    ensures Steps(plan)[0] == Step(Create(plan.iface.name), Ensure(plan.iface))
    ensures Steps(plan)[1] == Step(Configure(plan.iface.name), Nothing)
    ensures Steps(plan)[2] == Step(LinkUp(plan.iface.name), Nothing)
    ensures forall i :: 0 <= i < |plan.iface.addresses| ==>
      Steps(plan)[3 + i] == Step(Address(plan.iface.addresses[i]), Nothing)
  {
  }

  lemma PeerStepAt(plan: Plan, from: nat, i: nat)
    requires from + |plan.peers| + |plan.routes| == |Steps(plan)| && i < |plan.peers|
    ensures Steps(plan)[from + i] == Step(PeerOf(plan.peers[i].key), Effect.ApplyPeer(plan.iface.name, plan.peers[i]))
  {
  }

  lemma RouteStepAt(plan: Plan, from: nat, i: nat)
    requires from + |plan.routes| == |Steps(plan)| && i < |plan.routes|
    ensures Steps(plan)[from + i] == Step(RouteTo(plan.routes[i]), Effect.AddRoute(plan.iface.name, plan.routes[i]))
  {
  }

  /** A run that stopped says where, which undos went through, and whether its commit was on file all the same. */
  datatype Ending = Committed | Unstarted | Stopped(stop: Stop, outcomes: seq<bool>, lapsed: bool)

  /** The host a failed run leaves: what had been done at the stop, less what compensation took back. */
  ghost predicate LeftBehind(plan: Plan, ops: seq<Operation>, start: HostState, left: HostState, stop: Stop,
                             outcomes: seq<bool>)
  {
    Reached(start, Steps(plan), stop) &&
    var order := UndoOrder(OpsAtStop(ops, Steps(plan), stop));
    |outcomes| == |order| && left == Unwound(HostAt(start, Steps(plan), stop.k), plan.iface.name, order, outcomes)
  }

  function CommittedRecord(plan: Plan): Record {
    var done := OpsAt(Fresh(plan.operations), Steps(plan), |Steps(plan)|);
    Record(plan.id, plan.iface.name, done, true, true)
  }

  function Fresh(ops: seq<Operation>): (r: seq<Operation>)
    ensures |r| == |ops|
  {
    seq(|ops|, i requires 0 <= i < |ops| => ops[i].(status := Planned))
  }

  /** An armed failure spares a plan that never reaches its kind. */
  predicate Spared(plan: Plan, inject: Option<Kind>) {
    (inject == Some(Kind.ApplyPeer) ==> plan.peers == [])
    && (inject == Some(Kind.AddRoute) ==> plan.routes == [])
    && (inject in {Some(CreateInterface), Some(ConfigureInterface), Some(SetLinkUp), Some(AddAddress)} ==>
          !plan.TouchesInterface())
  }

  /** A committed record asks for nothing. */
  lemma CommittedSettled(plan: Plan)
    ensures !CommittedRecord(plan).NeedsRecovery()
  {
    var ops, steps := Fresh(plan.operations), Steps(plan);
    hide Steps;
    forall i | 0 <= i < |ops| ensures OpsAt(ops, steps, |steps|)[i].status != Applying {
      OpsAtExact(ops, steps, |steps|, i);
    }
  }

  lemma DoneOps(h: HostState, ops: seq<Operation>, steps: seq<Step>)
    ensures Reached(h, steps, Done(0)) && HostAt(h, steps, 0) == h && OpsAtStop(ops, steps, Done(0)) == ops
    ensures OpsAtStop(ops, steps, Done(|steps|)) == OpsAt(ops, steps, |steps|)
  {
  }

  lemma ReachedIn(h: HostState, steps: seq<Step>, stop: Stop)
    requires Reached(h, steps, stop)
    ensures stop.In(steps)
  {
  }

  lemma StepCount(plan: Plan)
    ensures |Steps(plan)| ==
      (if plan.TouchesInterface() then |InterfaceSteps(plan.iface)| else 0) + |plan.peers| + |plan.routes|
  {
  }
}
