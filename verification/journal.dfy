/**
 The transaction journal of internal/netstate/journal.go: which operations a
 transaction holds, how far each got, and what a later run can conclude.
 */
module Journal {
  import opened Prefixes
  import opened Host

  datatype Kind = CreateInterface | ConfigureInterface | AddAddress | SetLinkUp | ApplyPeer | AddRoute

  /** The identifier kind:target. The kinds hold no colon, so the text and the pair determine each other. */
  datatype Id =
    | Create(name: Name)
    | Configure(name: Name)
    | Address(prefix: Prefix)
    | LinkUp(name: Name)
    | PeerOf(key: PeerKey)
    | RouteTo(prefix: Prefix)
  {
    function KindOf(): Kind {
      match this
      case Create(_) => CreateInterface
      case Configure(_) => ConfigureInterface
      case Address(_) => AddAddress
      case LinkUp(_) => SetLinkUp
      case PeerOf(_) => Kind.ApplyPeer
      case RouteTo(_) => Kind.AddRoute
    }
  }

  datatype Status = Planned | Applying | Applied | Failed | RolledBack

  datatype Operation = Operation(id: Id, existed: bool, status: Status)

  /** What the journal stores of a transaction. */
  datatype Record = Record(id: string, iface: Name, operations: seq<Operation>, ended: bool, committed: bool) {
    predicate NeedsRecovery() { !ended || exists i :: 0 <= i < |operations| && operations[i].status == Applying }
  }

  /** Only the first operation with an identifier is ever updated. */
  function SetStatus(ops: seq<Operation>, id: Id, status: Status): (r: seq<Operation>)
    ensures |r| == |ops|
  {
    if ops == [] then []
    else if ops[0].id == id then [ops[0].(status := status)] + ops[1..]
    else [ops[0]] + SetStatus(ops[1..], id, status)
  }

  predicate Names(ops: seq<Operation>, id: Id) { exists i :: 0 <= i < |ops| && ops[i].id == id }

  function AppliedOf(ops: seq<Operation>): seq<Operation> {
    if ops == [] then []
    else if ops[|ops| - 1].status == Applied then AppliedOf(ops[..|ops| - 1]) + [ops[|ops| - 1]]
    else AppliedOf(ops[..|ops| - 1])
  }

  function Reversed<T>(s: seq<T>): (r: seq<T>)
    ensures |r| == |s| && forall i :: 0 <= i < |s| ==> r[i] == s[|s| - 1 - i]
  {
    seq(|s|, i requires 0 <= i < |s| => s[|s| - 1 - i])
  }

  class Transaction {
    const id: string
    const iface: Name
    var operations: seq<Operation>
    var ended: bool
    var committed: bool

    function Current(): Record
      reads this
    {
      Record(id, iface, operations, ended, committed)
    }

    constructor (id: string, iface: Name)
      ensures Current() == Record(id, iface, [], false, false)
    {
      this.id, this.iface := id, iface;
      operations, ended, committed := [], false, false;
    }

    constructor Restored(r: Record)
      ensures Current() == r
    {
      id, iface := r.id, r.iface;
      operations, ended, committed := r.operations, r.ended, r.committed;
    }

    method Plan(op: Operation) returns (ok: bool)
      modifies this`operations
      ensures ok == !ended
      ensures operations == if ok then old(operations) + [op.(status := Planned)] else old(operations)
    {
      if ended {
        return false;
      }
      operations := operations + [op.(status := Planned)];
      return true;
    }

    method UpdateStatus(id: Id, status: Status) returns (found: bool)
      modifies this`operations
      ensures found == Names(old(operations), id)
      ensures operations == SetStatus(old(operations), id, status)
    {
      for i := 0 to |operations|
        invariant operations == old(operations) && forall j :: 0 <= j < i ==> operations[j].id != id
      {
        if operations[i].id == id {
          SetStatusAt(operations, id, status, i);
          operations := operations[i := operations[i].(status := status)];
          return true;
        }
      }
      SetStatusNowhere(operations, id, status);
      return false;
    }

    method Commit()
      modifies this`ended, this`committed
      ensures ended && committed
    {
      ended, committed := true, true;
    }

    method Close()
      modifies this`ended
      ensures ended
    {
      ended := true;
    }

    method AppliedOperations() returns (applied: seq<Operation>)
      ensures applied == AppliedOf(operations)
    {
      applied := [];
      for i := 0 to |operations|
        invariant applied == AppliedOf(operations[..i])
      {
        assert operations[..i + 1][..i] == operations[..i];
        if operations[i].status == Applied {
          applied := applied + [operations[i]];
        }
      }
      assert operations[..|operations|] == operations;
    }

    method CompensationOrder() returns (reversed: seq<Operation>)
      ensures reversed == Reversed(AppliedOf(operations))
    {
      var applied := AppliedOperations();
      reversed := Reversed(applied);
    }
  }

  lemma {:induction false} SetStatusAt(ops: seq<Operation>, id: Id, status: Status, i: nat)
    requires i < |ops| && ops[i].id == id && forall j :: 0 <= j < i ==> ops[j].id != id
    ensures SetStatus(ops, id, status) == ops[i := ops[i].(status := status)]
  {
    if i > 0 { SetStatusAt(ops[1..], id, status, i - 1); }
  }

  lemma {:induction false} SetStatusNowhere(ops: seq<Operation>, id: Id, status: Status)
    requires !Names(ops, id)
    ensures SetStatus(ops, id, status) == ops
  {
    if ops != [] {
      assert forall i :: 0 <= i < |ops| ==> ops[i].id != id;
      assert forall i :: 0 <= i < |ops[1..]| ==> ops[1..][i] == ops[i + 1];
      SetStatusNowhere(ops[1..], id, status);
    }
  }

  /** Whether an update by identifier would reach operation i. */
  predicate First(ops: seq<Operation>, i: int)
    requires 0 <= i < |ops|
  {
    forall j :: 0 <= j < i ==> ops[j].id != ops[i].id
  }

  lemma {:induction false} SetStatusExact(ops: seq<Operation>, id: Id, status: Status, i: nat)
    requires i < |ops|
    ensures SetStatus(ops, id, status)[i] ==
      if ops[i].id == id && First(ops, i) then ops[i].(status := status) else ops[i]
  {
    if i > 0 && ops[0].id != id {
      SetStatusExact(ops[1..], id, status, i - 1);
      assert First(ops[1..], i - 1) || exists j :: 1 <= j < i && ops[j].id == ops[i].id by {
        if !First(ops[1..], i - 1) {
          var j :| 0 <= j < i - 1 && ops[1..][j].id == ops[1..][i - 1].id;
          assert ops[j + 1].id == ops[i].id;
        }
      }
    }
  }

  /** No operation in flight hides behind an earlier one of the same identifier. */
  ghost predicate WellMarked(ops: seq<Operation>) {
    forall i :: 0 <= i < |ops| && ops[i].status == Applying ==> First(ops, i)
  }

  lemma WellMarkedKept(ops: seq<Operation>, id: Id, status: Status)
    requires WellMarked(ops)
    ensures WellMarked(SetStatus(ops, id, status))
  {
    var r := SetStatus(ops, id, status);
    forall i | 0 <= i < |ops| ensures r[i].id == ops[i].id { SetStatusExact(ops, id, status, i); }
    forall i | 0 <= i < |r| && r[i].status == Applying ensures First(r, i) {
      SetStatusExact(ops, id, status, i);
      assert First(ops, i);
    }
  }

  lemma {:induction false} AppliedOfMembers(ops: seq<Operation>, op: Operation)
    ensures op in AppliedOf(ops) <==> op in ops && op.status == Applied
  {
    if ops != [] {
      AppliedOfMembers(ops[..|ops| - 1], op);
      assert ops == ops[..|ops| - 1] + [ops[|ops| - 1]];
    }
  }

  lemma {:induction false} AppliedOfFirst(ops: seq<Operation>)
    requires ops != [] && ops[0].status == Applied
    ensures AppliedOf(ops) != [] && AppliedOf(ops)[0] == ops[0]
  {
    if |ops| > 1 { AppliedOfFirst(ops[..|ops| - 1]); }
  }

  lemma ReversedMembers<T>(s: seq<T>, x: T)
    ensures x in Reversed(s) <==> x in s
  {
    if x in s {
      var i :| 0 <= i < |s| && s[i] == x;
      assert Reversed(s)[|s| - 1 - i] == x;
    }
  }
}
