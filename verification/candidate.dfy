/** A transport address someone claims to be reachable at (internal/connectivity/candidate.go). */
module Candidates {
  import opened Prefixes
  import opened Probes
  import opened Texts
  import opened Sorting
  import Policy
  import opened Wrappers

  datatype Kind = Host | ServerReflexive | PeerReflexive | Static | PortMapped | Unknown(text: string) {
    predicate RequiresThirdParty() { ServerReflexive? || PeerReflexive? }
  }

  datatype Status = Unverified | Probing | Verified | Failed | Expired

  datatype Candidate = Candidate(id: string, kind: Kind, address: Endpoint, related: Option<Endpoint>,
                                 foundation: string, priority: nat, status: Status, attempts: nat,
                                 reason: string, discoveredAt: int, verifiedAt: Option<int>, expiresAt: Option<int>)
  {
    predicate IsExpired(now: int) { expiresAt.Some? && now >= expiresAt.value }

    predicate CanProbe(now: int, maxAttempts: int) {
      status !in {Verified, Expired} && !IsExpired(now) && attempts < maxAttempts
    }
  }

  /** An address this node will send a probe to: it has a port, and it is not one only a mistake would name. */
  predicate SafeTarget(e: Endpoint) {
    e.Valid() && e.port != 0 && !Policy.InSome(e.addr, Policy.MARTIANS)
  }

  predicate Before(a: Candidate, b: Candidate) {
    a.priority < b.priority || (a.priority == b.priority && Less(a.id, b.id))
  }

  lemma BeforeOrder()
    ensures Transitive(Before) && Irreflexive(Before)
    ensures forall a: Candidate, b: Candidate :: a.id == b.id || Before(a, b) || Before(b, a)
  {
    LessOrder();
  }

  /** Private and link-local space. */
  const PRIVATE: seq<Prefix> := [
    Prefix(Addr(V4, 0x0a000000), 8),
    Prefix(Addr(V4, 0xac100000), 12),
    Prefix(Addr(V4, 0xc0a80000), 16),
    Prefix(Addr(V4, 0xa9fe0000), 16),
    Prefix(Addr(V6, 0xfc000000000000000000000000000000), 7),
    Prefix(Addr(V6, 0xfe800000000000000000000000000000), 10)
  ]

  predicate IsPrivate(a: Addr) { Policy.InSome(a, PRIVATE) }

  /** Lower is tried first: the less has to go right, the better. */
  function PriorityFor(kind: Kind, a: Addr): nat {
    (match kind
     case Host => 100
     case Static => 200
     case PortMapped => 300
     case PeerReflexive => 400
     case ServerReflexive => 500
     case Unknown(_) => 0)
    + (if a.family == V4 then 10 else 0) + if IsPrivate(a) then 20 else 0
  }
}
