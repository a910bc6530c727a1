/**
 Taking NostMesh's interfaces down and settling what a dead process left in the
 journal (internal/orchestrator/reconcile.go).
 */
module Recovery {
  import opened Host
  import opened Journal
  import opened Network
  import opened Wrappers

  // What recovery leaves

  /** The host without the interfaces this program owns, and without their routes. */
  ghost function OnlyForeign(h: HostState): HostState {
    HostState(map n | n in h.interfaces && !Owns(n) :: h.interfaces[n], set r | r in h.routes && !Owns(r.0))
  }

  /** Every operation that reached the host, or might have, is marked rolled back, in order. */
  function ReconciledOps(ops: seq<Operation>, n: nat): (r: seq<Operation>)
    requires n <= |ops|
    ensures |r| == |ops|
  {
    if n == 0 then ops
    else
      var before := ReconciledOps(ops, n - 1);
      if before[n - 1].status in {Applied, Applying} then SetStatus(before, before[n - 1].id, RolledBack) else before
  }

  function ReconciledRecord(r: Record): Record {
    r.(operations := ReconciledOps(r.operations, |r.operations|), ended := true)
  }

  ghost function ReconciledJournal(journal: Records): Records {
    map id | id in journal :: if journal[id].NeedsRecovery() then ReconciledRecord(journal[id]) else journal[id]
  }

  /** Some operation in flight hides behind an earlier one of the same identifier. */
  ghost predicate Shadowed(r: Record) {
    exists i :: 0 <= i < |r.operations| && r.operations[i].status == Applying && !First(r.operations, i)
  }

  lemma {:induction false} ReconciledOp(ops: seq<Operation>, n: nat, i: nat)
    requires n <= |ops| && i < |ops|
    ensures ReconciledOps(ops, n)[i].id == ops[i].id
    ensures !First(ops, i) ==> ReconciledOps(ops, n)[i] == ops[i]
    ensures First(ops, i) ==> ReconciledOps(ops, n)[i] in {ops[i], ops[i].(status := RolledBack)}
    ensures First(ops, i) && i < n ==> ReconciledOps(ops, n)[i].status !in {Applied, Applying}
  {
    if n > 0 {
      var before := ReconciledOps(ops, n - 1);
      forall j | 0 <= j <= i ensures before[j].id == ops[j].id { ReconciledOp(ops, n - 1, j); }
      ReconciledOp(ops, n - 1, i);
      ReconciledOp(ops, n - 1, n - 1);
      SetStatusExact(before, before[n - 1].id, RolledBack, i);
      assert First(before, i) == First(ops, i) by {
        if !First(ops, i) {
          var j :| 0 <= j < i && ops[j].id == ops[i].id;
          assert before[j].id == before[i].id;
        }
      }
    }
  }

  /** A reconciled record is settled exactly when no operation in flight was shadowed. */
  lemma ReconciledSettles(r: Record)
    ensures ReconciledRecord(r).NeedsRecovery() <==> Shadowed(r)
  {
    var ops := r.operations;
    forall i | 0 <= i < |ops|
      ensures (ReconciledOps(ops, |ops|)[i].status == Applying) <==> (ops[i].status == Applying && !First(ops, i))
    {
      ReconciledOp(ops, |ops|, i);
    }
    if Shadowed(r) {
      var i :| 0 <= i < |ops| && ops[i].status == Applying && !First(ops, i);
      assert ReconciledRecord(r).operations[i].status == Applying;
    }
  }

  lemma PendingAfter(journal: Records, id: string)
    ensures Pending(ReconciledJournal(journal), id) <==> (Pending(journal, id) && Shadowed(journal[id]))
  {
    if id in journal {
      ReconciledSettles(journal[id]);
    }
  }

  /** Records left by runs of the manager settle completely. */
  lemma NothingPending(journal: Records)
    requires forall id :: Pending(journal, id) ==> WellMarked(journal[id].operations)
    ensures Settled(ReconciledJournal(journal))
  {
    forall id ensures !Pending(ReconciledJournal(journal), id) {
      PendingAfter(journal, id);
    }
  }

  /** Nothing was interrupted, or all of it has been settled. */
  ghost predicate Settled(journal: Records) { forall id :: !Pending(journal, id) }

  lemma {:induction false} ReconciledWell(ops: seq<Operation>, n: nat)
    requires n <= |ops| && WellMarked(ops)
    ensures WellMarked(ReconciledOps(ops, n))
  {
    if n > 0 {
      ReconciledWell(ops, n - 1);
      var before := ReconciledOps(ops, n - 1);
      WellMarkedKept(before, before[n - 1].id, RolledBack);
    }
  }

  lemma ForeignTwice(h: HostState)
    ensures OnlyForeign(OnlyForeign(h)) == OnlyForeign(h)
  {
  }

  lemma ForeignCleared(h: HostState, name: Name)
    requires Owns(name)
    ensures OnlyForeign(Cleared(h, name)) == OnlyForeign(h)
  {
    var a, b := OnlyForeign(Cleared(h, name)), OnlyForeign(h);
    assert a.interfaces == b.interfaces;
    assert a.routes == b.routes;
  }

  lemma ForeignAlone(h: HostState)
    requires Sane(h) && forall n :: n in h.interfaces ==> !Owns(n)
    ensures OnlyForeign(h) == h
  {
    assert OnlyForeign(h).interfaces == h.interfaces;
    assert OnlyForeign(h).routes == h.routes;
  }

  // The operations

  datatype Removal = Removed | NotThere | RemovalFailed

  datatype Reconciliation = Reconciliation(ok: bool, interrupted: seq<string>, removed: seq<Name>, kept: seq<Name>)

  class Orchestrator {
    const world: World

    constructor (world: World)
      ensures this.world == world
    {
      this.world := world;
    }

    method RemoveOne(name: Name) returns (r: Removal)
      modifies world
      ensures world.host == if r.Removed? then Cleared(old(world.host), name) else old(world.host)
      ensures r.Removed? ==> Owns(name) && name in old(world.host).interfaces
      ensures r.NotThere? ==> name !in world.host.interfaces || !Owns(name)
      ensures world.journal == old(world.journal)
      ensures world.calm ==> old(world.calm) && !r.RemovalFailed?
      ensures old(world.Valid()) ==> world.Valid()
    {
      var seen := world.ObserveInterface(name);
      if seen.Missing? {
        return NotThere;
      }
      if seen.Unreadable? {
        return RemovalFailed;
      }
      if !Owns(name) {
        return NotThere;
      }
      var ok := world.Call(RemoveInterface(name));
      return if ok then Removed else RemovalFailed;
    }

    /** Removing stops at the first failure; what went before stays removed. */
    method RemoveAll(owned: seq<Name>) returns (ok: bool, removed: seq<Name>, kept: seq<Name>)
      requires Sane(world.host) && Distinct(owned)
      requires forall n :: (n in owned) <==> (n in world.host.interfaces && Owns(n))
      modifies world
      ensures Sane(world.host) && OnlyForeign(world.host) == OnlyForeign(old(world.host))
      ensures ok ==> world.host == OnlyForeign(old(world.host)) && removed == owned
      ensures kept == [] && removed <= owned
      ensures forall n :: (n in world.host.interfaces) <==> (n in old(world.host).interfaces && n !in removed)
      ensures world.journal == old(world.journal)
      ensures world.calm ==> old(world.calm) && ok
      ensures old(world.Valid()) ==> world.Valid()
    {
      removed, kept := [], [];
      for i := 0 to |owned|
        invariant Sane(world.host) && OnlyForeign(world.host) == OnlyForeign(old(world.host))
        invariant removed == owned[..i] && kept == [] && world.journal == old(world.journal)
        invariant world.calm ==> old(world.calm)
        invariant old(world.Valid()) ==> world.Valid()
        invariant forall n :: (n in world.host.interfaces) <==> (n in old(world.host).interfaces && n !in removed)
      {
        var name := owned[i];
        assert name in owned && name !in owned[..i];
        ghost var before := world.host;
        var r := RemoveOne(name);
        if r.RemovalFailed? {
          return false, removed, kept;
        }
        ForeignCleared(before, name);
        if r.Removed? {
          removed := removed + [name];
        } else {
          kept := kept + [name];
        }
      }
      ForeignAlone(world.host);
      return true, removed, kept;
    }

    /** The record as it stands once every operation that may have reached the host is marked. */
    method Reconcile(r: Record) returns (settled: Record)
      ensures settled == ReconciledRecord(r)
    {
      var t := new Transaction.Restored(r);
      for i := 0 to |r.operations|
        invariant t.Current() == r.(operations := ReconciledOps(r.operations, i))
      {
        if t.operations[i].status in {Applied, Applying} {
          var _ := t.UpdateStatus(t.operations[i].id, RolledBack);
        }
      }
      t.Close();
      return t.Current();
    }

    method ReconcileJournal() returns (ok: bool, interrupted: seq<string>)
      requires Filed(world.journal)
      modifies world
      ensures world.host == old(world.host)
      ensures ok ==> world.journal == ReconciledJournal(old(world.journal))
      ensures forall id :: (id in world.journal) <==> (id in old(world.journal))
      ensures forall id :: id in world.journal ==>
        world.journal[id] in {old(world.journal)[id], ReconciledJournal(old(world.journal))[id]}
      ensures ok ==> forall id :: (id in interrupted) <==> Pending(old(world.journal), id)
      ensures world.calm ==> old(world.calm)
      ensures world.calm && (forall id :: Pending(old(world.journal), id) ==> Storable(id)) ==> ok
      ensures old(world.Valid()) ==> world.Valid()
    {
      hide WellMarked, ReconciledOps;
      ghost var before, after := world.journal, ReconciledJournal(world.journal);
      var pending := world.PendingRecovery();
      if pending.None? {
        return false, [];
      }
      interrupted := pending.value;
      for i := 0 to |interrupted|
        invariant world.host == old(world.host) && (world.calm ==> old(world.calm))
        invariant old(world.Valid()) ==> world.Valid()
        invariant forall id :: (id in world.journal) <==> (id in before)
        invariant forall id :: id in before ==>
          world.journal[id] == if id in interrupted[..i] then after[id] else before[id]
      {
        var id := interrupted[i];
        assert id in interrupted && id !in interrupted[..i] && Pending(before, id);
        var settled := Reconcile(world.journal[id]);
        if old(world.Valid()) {
          ReconciledWell(before[id].operations, |before[id].operations|);
        }
        ok := world.Save(settled);
        assert after[id] == settled;
        if !ok {
          return false, interrupted;
        }
      }
      assert interrupted[..|interrupted|] == interrupted;
      assert world.journal == after;
      return true, interrupted;
    }

    /** Down settles the journal whether or not anything is pending. */
    method Down() returns (r: Reconciliation)
      requires Sane(world.host) && Filed(world.journal)
      modifies world
      ensures Sane(world.host) && OnlyForeign(world.host) == OnlyForeign(old(world.host))
      ensures r.ok ==> world.host == OnlyForeign(old(world.host))
      ensures r.ok ==> world.journal == ReconciledJournal(old(world.journal))
      ensures forall n :: (n in world.host.interfaces) <==> (n in old(world.host).interfaces && n !in r.removed)
      ensures r.kept == []
      ensures world.calm ==> old(world.calm)
      ensures world.calm && (forall id :: Pending(old(world.journal), id) ==> Storable(id)) ==> r.ok
      ensures old(world.Valid()) ==> world.Valid()
    {
      var owned := world.ListOwnedInterfaces();
      if owned.None? {
        return Reconciliation(false, [], [], []);
      }
      var ok, removed, kept := RemoveAll(owned.value);
      if !ok {
        return Reconciliation(false, [], removed, kept);
      }
      var settled, interrupted := ReconcileJournal();
      return Reconciliation(settled, interrupted, removed, kept);
    }

    /**
     Recover does nothing at all unless some transaction was interrupted. When it
     fails, either something is still pending, so that it can be tried again, or the
     host is already clear.
     */
    method Recover() returns (r: Reconciliation)
      requires Sane(world.host) && Filed(world.journal)
      modifies world
      ensures Sane(world.host) && OnlyForeign(world.host) == OnlyForeign(old(world.host))
      ensures Settled(old(world.journal)) ==> world.host == old(world.host) && world.journal == old(world.journal)
      ensures r.ok && !Settled(old(world.journal)) ==>
        world.host == OnlyForeign(old(world.host)) && world.journal == ReconciledJournal(old(world.journal))
      ensures r.ok ==> forall id :: (id in r.interrupted) <==> Pending(old(world.journal), id)
      ensures !Settled(old(world.journal)) ==> !Settled(world.journal) || world.host == OnlyForeign(old(world.host))
      ensures world.calm ==> old(world.calm)
      ensures world.calm && (forall id :: Pending(old(world.journal), id) ==> Storable(id)) ==> r.ok
      ensures old(world.Valid()) ==> world.Valid()
    {
      var pending := world.PendingRecovery();
      if pending.None? {
        return Reconciliation(false, [], [], []);
      }
      if pending.value == [] {
        assert Settled(world.journal);
        return Reconciliation(true, [], [], []);
      }
      assert pending.value[0] in pending.value;
      var owned := world.ListOwnedInterfaces();
      if owned.None? {
        return Reconciliation(false, pending.value, [], []);
      }
      var ok, removed, _ := RemoveAll(owned.value);
      if !ok {
        return Reconciliation(false, pending.value, removed, []);
      }
      var settled, interrupted := ReconcileJournal();
      return Reconciliation(settled, interrupted, removed, []);
    }
  }
}
