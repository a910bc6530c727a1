/**
 The host that network changes act on, with the semantics of
 internal/wireguard/fake.go. Each call either does what it says or, when the
 environment fails it, changes nothing.
 */
module Host {
  import opened Prefixes
  import opened Wrappers

  type Name = string
  type PeerKey = nat

  datatype InterfaceSpec = InterfaceSpec(name: Name, listenPort: int, addresses: seq<Prefix>, mtu: int)

  datatype PeerSpec = PeerSpec(key: PeerKey, endpoint: Option<Addr>, allowedIPs: seq<Prefix>, keepalive: int)

  datatype Peer = Peer(endpoint: Option<Addr>, allowedIPs: seq<Prefix>, keepalive: int)

  datatype Interface = Interface(listenPort: int, addresses: seq<Prefix>, mtu: int, peers: map<PeerKey, Peer>)

  /** Routes are entries of their own, as the kernel holds them. */
  datatype HostState = HostState(interfaces: map<Name, Interface>, routes: set<(Name, Prefix)>)

  /** A route names an interface that exists. */
  ghost predicate Sane(h: HostState) { forall r :: r in h.routes ==> r.0 in h.interfaces }

  const INTERFACE_PREFIX: Name := "nm"

  predicate Owns(name: Name) { INTERFACE_PREFIX <= name }

  datatype Effect =
    | Nothing
    | Ensure(spec: InterfaceSpec)
    | ApplyPeer(iface: Name, peer: PeerSpec)
    | AddRoute(iface: Name, prefix: Prefix)
    | RemovePeer(iface: Name, key: PeerKey)
    | RemoveInterface(iface: Name)
    | RemoveRoute(iface: Name, prefix: Prefix)

  /** The form a route is held in. */
  function Canonical(p: Prefix): Prefix { if p.Valid() then p.Masked() else p }

  /** Whether the host accepts the call at all. */
  predicate Accepted(h: HostState, e: Effect) {
    match e
    case Nothing => true
    case Ensure(spec) => Owns(spec.name)
    case ApplyPeer(iface, _) => iface in h.interfaces
    case AddRoute(iface, prefix) => Owns(iface) && prefix.bits != 0 && iface in h.interfaces
    case RemovePeer(_, _) => true
    case RemoveInterface(iface) => Owns(iface)
    case RemoveRoute(iface, _) => Owns(iface)
  }

  function WithInterface(h: HostState, name: Name, i: Interface): HostState {
    h.(interfaces := h.interfaces[name := i])
  }

  /** A zero keepalive leaves an existing one alone. */
  function Converge(peers: map<PeerKey, Peer>, spec: PeerSpec): map<PeerKey, Peer> {
    var keepalive := if spec.key in peers && spec.keepalive <= 0 then peers[spec.key].keepalive else spec.keepalive;
    peers[spec.key := Peer(spec.endpoint, spec.allowedIPs, keepalive)]
  }

  function Perform(h: HostState, e: Effect): HostState
    requires Accepted(h, e)
  {
    match e
    case Nothing => h
    case Ensure(spec) =>
      var peers := if spec.name in h.interfaces then h.interfaces[spec.name].peers else map[];
      WithInterface(h, spec.name, Interface(spec.listenPort, spec.addresses, spec.mtu, peers))
    case ApplyPeer(iface, peer) =>
      var i := h.interfaces[iface];
      WithInterface(h, iface, i.(peers := Converge(i.peers, peer)))
    case AddRoute(iface, prefix) => h.(routes := h.routes + {(iface, Canonical(prefix))})
    case RemovePeer(iface, key) =>
      if iface !in h.interfaces then h
      else var i := h.interfaces[iface]; WithInterface(h, iface, i.(peers := i.peers - {key}))
    case RemoveInterface(iface) => Cleared(h, iface)
    case RemoveRoute(iface, prefix) => h.(routes := h.routes - {(iface, Canonical(prefix))})
  }

  /** An interface taken away takes its routes with it. */
  function Cleared(h: HostState, name: Name): HostState {
    HostState(h.interfaces - {name}, set r | r in h.routes && r.0 != name)
  }

  function PeersOf(h: HostState, name: Name): set<PeerKey> {
    if name in h.interfaces then h.interfaces[name].peers.Keys else {}
  }

  function HasRoute(h: HostState, name: Name, prefix: Prefix): bool { (name, Canonical(prefix)) in h.routes }

  /** Everything about interfaces other than the named one. */
  ghost predicate SameElsewhere(h: HostState, k: HostState, name: Name) { Cleared(h, name) == Cleared(k, name) }

  lemma PerformSane(h: HostState, e: Effect)
    requires Sane(h) && Accepted(h, e)
    ensures Sane(Perform(h, e))
  {
  }
}
