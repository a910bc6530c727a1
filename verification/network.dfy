/**
 The world a change acts in: the host behind internal/wireguard/port.go and the
 journal directory of internal/netstate/store.go. Every call may fail; the trace
 records what a crash at any moment would leave behind.
 */
module Network {
  import opened Prefixes
  import opened Host
  import opened Journal
  import opened Wrappers

  type Records = map<string, Record>

  datatype Snapshot = Snapshot(host: HostState, journal: Records)

  datatype Observed = Found(iface: Interface) | Missing | Unreadable

  /** The store refuses an identifier that is empty or could name another path. */
  predicate Storable(id: string) { id != "" && '/' !in id && '\\' !in id && '.' !in id }

  /** Each record is filed under its own identifier. */
  ghost predicate Filed(journal: Records) { forall id :: id in journal ==> journal[id].id == id }

  predicate Pending(journal: Records, id: string) { id in journal && journal[id].NeedsRecovery() }

  /** What the host and the journal always are: routes have their interfaces, and what is pending can be settled. */
  ghost predicate Tidy(s: Snapshot) {
    Sane(s.host) && Filed(s.journal) && forall id :: Pending(s.journal, id) ==> WellMarked(s.journal[id].operations)
  }

  class World {
    var host: HostState
    var journal: Records
    var trace: seq<Snapshot>

    /** Whether the environment has failed no call so far. */
    ghost var calm: bool

    /** Tidy now, and at every moment a crash could have come. */
    ghost predicate Valid()
      reads `host, `journal, `trace
    {
      Tidy(Now()) && forall i :: 0 <= i < |trace| ==> Tidy(trace[i])
    }

    /** The world as a process finds it when it starts. */
    constructor (host: HostState, journal: Records)
      ensures Now() == Snapshot(host, journal) && trace == [] && calm
    {
      this.host, this.journal, trace, calm := host, journal, [], true;
    }

    function Now(): Snapshot
      reads `host, `journal
    {
      Snapshot(host, journal)
    }

    /** A controller call: it does all of what it says, or nothing. */
    method Call(e: Effect) returns (ok: bool)
      modifies this
      ensures ok ==> Accepted(old(host), e) && host == Perform(old(host), e)
      ensures !ok ==> host == old(host)
      ensures journal == old(journal) && trace == old(trace) + [Now()]
      ensures calm == (old(calm) && (ok || !Accepted(old(host), e)))
      ensures old(Valid()) ==> Valid()
    {
      ok := false;
      calm := calm && !Accepted(host, e);
      if Accepted(host, e) {
        if * {
          if Sane(host) { PerformSane(host, e); }
          host, ok, calm := Perform(host, e), true, old(calm);
        }
      }
      trace := trace + [Now()];
    }

    /**
     The store writes aside and renames, so a record is replaced whole. A save
     can fail after the rename, when the directory does not sync.
     */
    method Save(r: Record) returns (ok: bool)
      modifies this
      ensures ok ==> Storable(r.id) && journal == old(journal)[r.id := r]
      ensures journal == old(journal) || (Storable(r.id) && journal == old(journal)[r.id := r])
      ensures host == old(host) && trace == old(trace) + [Now()]
      ensures calm == (old(calm) && (ok || !Storable(r.id)))
      ensures old(Valid()) && WellMarked(r.operations) ==> Valid()
    {
      ok := false;
      calm := calm && !Storable(r.id);
      if Storable(r.id) {
        if * {
          journal := journal[r.id := r];
          if * {
            ok, calm := true, old(calm);
          }
        }
      }
      trace := trace + [Now()];
    }

    method ObserveInterface(name: Name) returns (r: Observed)
      modifies this`calm
      ensures calm == (old(calm) && !r.Unreadable?)
      ensures r.Found? ==> name in host.interfaces && r.iface == host.interfaces[name]
      ensures r.Missing? ==> name !in host.interfaces
    {
      if * {
        calm := false;
        return Unreadable;
      }
      r := if name in host.interfaces then Found(host.interfaces[name]) else Missing;
    }

    method HasRoute(name: Name, prefix: Prefix) returns (r: Option<bool>)
      modifies this`calm
      ensures calm == (old(calm) && r.Some?)
      ensures r.Some? ==> r.value == Host.HasRoute(host, name, prefix)
    {
      if * {
        calm := false;
        return None;
      }
      return Some(Host.HasRoute(host, name, prefix));
    }

    /** Every owned interface once, in some order. */
    method ListOwnedInterfaces() returns (r: Option<seq<Name>>)
      modifies this`calm
      ensures calm == (old(calm) && r.Some?)
      ensures r.Some? ==> Distinct(r.value) && forall n :: (n in r.value) <==> (n in host.interfaces && Owns(n))
    {
      if * {
        calm := false;
        return None;
      }
      var owned, todo := [], host.interfaces.Keys;
      while todo != {}
        invariant todo <= host.interfaces.Keys && Distinct(owned)
        invariant forall n :: (n in owned) <==> (n in host.interfaces && Owns(n) && n !in todo)
      {
        var n :| n in todo;
        todo := todo - {n};
        if Owns(n) {
          owned := owned + [n];
        }
      }
      return Some(owned);
    }

    /** The identifiers of the interrupted transactions, each once. */
    method PendingRecovery() returns (r: Option<seq<string>>)
      modifies this`calm
      ensures calm == (old(calm) && r.Some?)
      ensures r.Some? ==> Distinct(r.value) && forall id :: (id in r.value) <==> Pending(journal, id)
    {
      if * {
        calm := false;
        return None;
      }
      var pending, todo := [], journal.Keys;
      while todo != {}
        invariant todo <= journal.Keys && Distinct(pending)
        invariant forall id :: (id in pending) <==> (Pending(journal, id) && id !in todo)
      {
        var id :| id in todo;
        todo := todo - {id};
        if journal[id].NeedsRecovery() {
          pending := pending + [id];
        }
      }
      return Some(pending);
    }
  }

  predicate Distinct<T(==)>(s: seq<T>) { forall i, j :: 0 <= i < j < |s| ==> s[i] != s[j] }
}
