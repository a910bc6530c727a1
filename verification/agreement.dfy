/**
 The handshake as a protocol between many nodes over relays that drop, repeat,
 reorder and replay. Authors are genuine, since every event is signed, but only
 the honest nodes follow the protocol; the rest may write anything. What each
 side hears is filtered as internal/orchestrator/driver.go and
 cmd/nostmesh/control.go filter it.
 */
module Agreement {
  import opened Sessions
  import opened Wrappers

  datatype Body = RequestBody(request: Request) | OfferBody(offer: Offer) | AcceptBody(accept: Accept)

  datatype Envelope = Envelope(sender: Node, recipient: Node, session: SessionId, seq_: nat, body: Body)

  /** Every attempt any honest node ever opened, and every message ever published. */
  datatype Mesh = Mesh(honest: set<Node>, sides: seq<Side>, pool: set<Envelope>)

  datatype Event =
    | Open(role: Role, session: SessionId, local: Node, peer: Node, tunnel: Key, timeout: int, now: int)
    | SendRequest(i: nat, nonce: nat, lifetime: int, now: int)
    | HearRequest(i: nat, message: Envelope, authorized: bool, now: int)
    | SendOffer(i: nat, nonce: nat, lifetime: int, now: int)
    | HearOffer(i: nat, message: Envelope, now: int)
    | SendAccept(i: nat, now: int)
    | HearAccept(i: nat, message: Envelope, now: int)
    | Confirm(i: nat, now: int)
    | HearReady(i: nat, seq_: nat, now: int)
    | Fail(i: nat, reason: string)
    | Close(i: nat)
    | Write(message: Envelope)

  /** Signed by the peer, addressed to this node. */
  predicate FromPeer(s: Side, m: Envelope) { m.sender == s.peer && m.recipient == s.local }

  /** A message of this side's own session. */
  predicate InSession(s: Side, m: Envelope) { FromPeer(s, m) && m.session == s.session }

  predicate Possible(y: Mesh, e: Event) {
    match e
    case Open(role, session, local, peer, tunnel, _, now) =>
      Openable(session, local, peer, tunnel, now) && local in y.honest
      && (forall i :: 0 <= i < |y.sides| ==> y.sides[i].tunnel != tunnel)
      && (role == Initiator ==>
            forall i :: 0 <= i < |y.sides| && y.sides[i].role == Initiator ==> y.sides[i].session != session)
    case SendRequest(i, _, _, _) => i < |y.sides|
    case HearRequest(i, m, _, _) => i < |y.sides| && m in y.pool && m.body.RequestBody? && InSession(y.sides[i], m)
    case SendOffer(i, _, _, _) => i < |y.sides|
    case HearOffer(i, m, _) => i < |y.sides| && m in y.pool && m.body.OfferBody? && InSession(y.sides[i], m)
    case SendAccept(i, _) => i < |y.sides|
    case HearAccept(i, m, _) => i < |y.sides| && m in y.pool && m.body.AcceptBody? && FromPeer(y.sides[i], m)
    case Confirm(i, _) => i < |y.sides|
    case HearReady(i, _, _) => i < |y.sides|
    case Fail(i, _) => i < |y.sides|
    case Close(i) => i < |y.sides|
    case Write(m) => m.sender !in y.honest
  }

  function WithSide(y: Mesh, i: nat, s: Side): Mesh
    requires i < |y.sides|
  {
    y.(sides := y.sides[i := s])
  }

  /** A side that moved, and the message it published if the call succeeded. */
  function Published(y: Mesh, i: nat, o: Outcome, body: Body): Mesh
    requires i < |y.sides|
  {
    var s := o.side;
    var after := WithSide(y, i, s.(nextSeq := s.nextSeq + 1));
    if o.Ok() then after.(pool := y.pool + {Envelope(s.local, s.peer, s.session, s.nextSeq, body)})
    else WithSide(y, i, s)
  }

  function Next(y: Mesh, e: Event): Mesh
    requires Possible(y, e)
  {
    match e
    case Open(role, session, local, peer, tunnel, timeout, now) =>
      y.(sides := y.sides + [Opened(role, session, local, peer, tunnel, timeout, now)])
    case SendRequest(i, nonce, lifetime, now) =>
      Published(y, i, RequestBuilt(y.sides[i], now), RequestBody(RequestOf(y.sides[i], nonce, now + lifetime)))
    case HearRequest(i, m, authorized, now) =>
      WithSide(y, i, RequestTaken(y.sides[i], m.body.request, m.seq_, authorized, now).side)
    case SendOffer(i, nonce, lifetime, now) =>
      var offer := OfferOf(y.sides[i], nonce, now + lifetime);
      Published(y, i, OfferBuilt(y.sides[i], offer, now), OfferBody(offer))
    case HearOffer(i, m, now) => WithSide(y, i, OfferTaken(y.sides[i], m.body.offer, m.seq_, now).side)
    case SendAccept(i, now) =>
      Published(y, i, AcceptBuilt(y.sides[i], now), AcceptBody(Accept(y.sides[i].offerHash)))
    case HearAccept(i, m, now) => WithSide(y, i, AcceptTaken(y.sides[i], m.body.accept, m.seq_, now).side)
    case Confirm(i, now) => WithSide(y, i, Confirmed(y.sides[i], now).side)
    case HearReady(i, seq_, now) => WithSide(y, i, ReadyTaken(y.sides[i], seq_, now).side)
    case Fail(i, reason) => WithSide(y, i, y.sides[i].(state := Failed, failure := reason))
    case Close(i) => WithSide(y, i, y.sides[i].(state := Closed))
    case Write(m) => y.(pool := y.pool + {m})
  }

  predicate Run(honest: set<Node>, events: seq<Event>) {
    events == [] ||
    (Run(honest, events[..|events| - 1]) && Possible(After(honest, events[..|events| - 1]), events[|events| - 1]))
  }

  /** The system after a run. */
  function After(honest: set<Node>, events: seq<Event>): Mesh
    decreases |events|
  {
    if events == [] then Mesh(honest, [], {})
    else
      var before := After(honest, events[..|events| - 1]);
      if Possible(before, events[|events| - 1]) then Next(before, events[|events| - 1]) else before
  }

  // What every run keeps

  /** What an honest node's message says about the attempt that sent it. */
  predicate SentBy(s: Side, m: Envelope) {
    s.local == m.sender && s.peer == m.recipient && s.session == m.session &&
    match m.body
    case RequestBody(request) => s.role == Initiator && request.tunnelKey.public == Canonical(s.tunnel)
    case OfferBody(offer) =>
      s.role == Responder && s.offerHash == HashOffer(offer) && offer.tunnelKey.public == Canonical(s.tunnel)
    case AcceptBody(accept) =>
      s.role == Initiator && s.offerHash == accept.offerHash && s.offerHash != NO_HASH
      && s.state in {Connecting, Established, Closed, Failed}
  }

  /** What a side has committed to is what it was sent. */
  predicate Grounded(s: Side, pool: set<Envelope>) {
    (s.role == Initiator && s.offerHash != NO_HASH ==> GroundedOffer(s, pool))
    && (s.role == Responder && s.peerTunnel.Some? ==> GroundedRequest(s, pool))
    && (s.role == Responder && s.state in {Connecting, Established} ==> GroundedAccept(s, pool))
  }

  predicate GroundedOffer(s: Side, pool: set<Envelope>) {
    exists m :: m in pool && m.body.OfferBody? && InSession(s, m) && s.offerHash == HashOffer(m.body.offer)
      && s.peerTunnel == Some(m.body.offer.tunnelKey)
  }

  predicate GroundedRequest(s: Side, pool: set<Envelope>) {
    exists m :: m in pool && m.body.RequestBody? && InSession(s, m) && s.peerTunnel == Some(m.body.request.tunnelKey)
  }

  predicate GroundedAccept(s: Side, pool: set<Envelope>) {
    exists m :: m in pool && m.body.AcceptBody? && FromPeer(s, m) && s.offerHash == m.body.accept.offerHash
  }

  /** Where each role can be, and what it holds there. */
  predicate Staged(s: Side) {
    (s.state == Idle ==> s.offerHash == NO_HASH)
    && (s.role == Initiator ==> s.state !in {RequestReceived, OfferSent})
    && (s.role == Responder ==> s.state !in {RequestSent, OfferReceived})
    && (s.state in {RequestSent, RequestReceived} ==> s.offerHash == NO_HASH)
    && (s.state in {OfferReceived, OfferSent, Connecting, Established} ==> s.offerHash != NO_HASH && s.peerTunnel.Some?)
    && (s.role == Responder && s.state == RequestReceived ==> s.peerTunnel.Some?)
    && (s.role == Responder && s.offerHash != NO_HASH ==> OwnOffer(s) && s.peerTunnel.Some?)
  }

  /** The terms a responder committed to carry its own tunnel key. */
  predicate OwnOffer(s: Side) {
    s.offerHash.DigestOf? && s.offerHash.content.OfferContent?
    && s.offerHash.content.offer.tunnelKey.public == Canonical(s.tunnel)
  }

  predicate Unique(sides: seq<Side>) {
    (forall i, j :: 0 <= i < j < |sides| ==> sides[i].tunnel != sides[j].tunnel)
    && (forall i, j :: 0 <= i < j < |sides| && sides[i].role == sides[j].role == Initiator ==>
          sides[i].session != sides[j].session)
  }

  predicate Attributed(y: Mesh, m: Envelope) {
    m.sender in y.honest ==> exists i :: 0 <= i < |y.sides| && SentBy(y.sides[i], m)
  }

  ghost predicate Inv(y: Mesh) {
    Unique(y.sides)
    && (forall i :: 0 <= i < |y.sides| ==> y.sides[i].local in y.honest && Staged(y.sides[i]))
    && (forall i :: 0 <= i < |y.sides| ==> Grounded(y.sides[i], y.pool))
    && (forall m :: m in y.pool ==> Attributed(y, m))
  }

  // Each call of a side keeps what the side has committed to

  predicate Keeps(s: Side, t: Side) {
    t.role == s.role && t.session == s.session && t.local == s.local && t.peer == s.peer && t.tunnel == s.tunnel
  }

  /** A side that moved within the rules: still itself, staged and grounded, and the author of what it sent. */
  ghost predicate Moved(s: Side, t: Side, pool: set<Envelope>) {
    Keeps(s, t) && Staged(t) && Grounded(t, pool) && forall m :: SentBy(s, m) ==> SentBy(t, m)
  }

  lemma RequestBuiltMoves(s: Side, now: int, pool: set<Envelope>)
    requires Staged(s) && Grounded(s, pool)
    ensures Moved(s, RequestBuilt(s, now).side, pool)
  {
  }

  lemma RequestTakenMoves(s: Side, m: Envelope, authorized: bool, now: int, pool: set<Envelope>)
    requires Staged(s) && Grounded(s, pool) && m in pool && m.body.RequestBody? && InSession(s, m)
    ensures Moved(s, RequestTaken(s, m.body.request, m.seq_, authorized, now).side, pool)
  {
    var t := RequestTaken(s, m.body.request, m.seq_, authorized, now).side;
    if t.state == RequestReceived && s.state == Idle {
      assert GroundedRequest(t, pool);
    } else {
      assert t.state == s.state && t.peerTunnel == s.peerTunnel && t.offerHash == s.offerHash;
      GroundedSame(s, t, pool);
    }
  }

  lemma GroundedSame(s: Side, t: Side, pool: set<Envelope>)
    requires Grounded(s, pool) && Keeps(s, t) && t.peerTunnel == s.peerTunnel && t.offerHash == s.offerHash
    requires t.state == s.state || t.role == Initiator || t.state !in {Connecting, Established} || s.state == Connecting
    ensures Grounded(t, pool)
  {
    if GroundedOffer(s, pool) { assert GroundedOffer(t, pool); }
    if GroundedRequest(s, pool) { assert GroundedRequest(t, pool); }
    if GroundedAccept(s, pool) { assert GroundedAccept(t, pool); }
  }

  lemma OfferBuiltMoves(s: Side, nonce: nat, expiresAt: int, now: int, pool: set<Envelope>)
    requires Staged(s) && Grounded(s, pool)
    ensures Moved(s, OfferBuilt(s, OfferOf(s, nonce, expiresAt), now).side, pool)
  {
    var t := OfferBuilt(s, OfferOf(s, nonce, expiresAt), now).side;
    if GroundedRequest(s, pool) { assert GroundedRequest(t, pool); }
  }

  lemma OfferTakenMoves(s: Side, m: Envelope, now: int, pool: set<Envelope>)
    requires Staged(s) && Grounded(s, pool) && m in pool && m.body.OfferBody? && InSession(s, m)
    ensures Moved(s, OfferTaken(s, m.body.offer, m.seq_, now).side, pool)
  {
    var t := OfferTaken(s, m.body.offer, m.seq_, now).side;
    if t.state == OfferReceived && s.state == RequestSent {
      assert GroundedOffer(t, pool);
    } else {
      GroundedSame(s, t, pool);
    }
  }

  lemma AcceptBuiltMoves(s: Side, now: int, pool: set<Envelope>)
    requires Staged(s) && Grounded(s, pool)
    ensures Moved(s, AcceptBuilt(s, now).side, pool)
  {
    GroundedSame(s, AcceptBuilt(s, now).side, pool);
  }

  lemma AcceptTakenMoves(s: Side, m: Envelope, now: int, pool: set<Envelope>)
    requires Staged(s) && Grounded(s, pool) && m in pool && m.body.AcceptBody? && FromPeer(s, m)
    ensures Moved(s, AcceptTaken(s, m.body.accept, m.seq_, now).side, pool)
  {
    var t := AcceptTaken(s, m.body.accept, m.seq_, now).side;
    if t.state == Connecting && s.state == OfferSent {
      assert GroundedAccept(t, pool);
      if GroundedRequest(s, pool) { assert GroundedRequest(t, pool); }
    } else {
      GroundedSame(s, t, pool);
    }
  }

  lemma OtherMoves(s: Side, t: Side, pool: set<Envelope>)
    requires Staged(s) && Grounded(s, pool)
    requires Keeps(s, t) && t.peerTunnel == s.peerTunnel && t.offerHash == s.offerHash
    requires t.state == s.state || t.state.Terminal() || (s.state == Connecting && t.state == Established)
    ensures Moved(s, t, pool)
  {
    GroundedSame(s, t, pool);
  }

  // The invariant

  lemma GroundedMore(s: Side, pool: set<Envelope>, more: set<Envelope>)
    requires Grounded(s, pool) && pool <= more
    ensures Grounded(s, more)
  {
    if m :| m in pool && m.body.OfferBody? && InSession(s, m) && s.offerHash == HashOffer(m.body.offer)
            && s.peerTunnel == Some(m.body.offer.tunnelKey) {
      assert m in more;
    }
    if m :| m in pool && m.body.RequestBody? && InSession(s, m) && s.peerTunnel == Some(m.body.request.tunnelKey) {
      assert m in more;
    }
    if m :| m in pool && m.body.AcceptBody? && FromPeer(s, m) && s.offerHash == m.body.accept.offerHash {
      assert m in more;
    }
  }

  lemma SideInv(y: Mesh, i: nat, t: Side)
    requires Inv(y) && i < |y.sides| && Moved(y.sides[i], t, y.pool)
    ensures Inv(WithSide(y, i, t))
  {
    hide Staged, Grounded, SentBy, InSession, FromPeer;
    var z := WithSide(y, i, t);
    forall m | m in z.pool ensures Attributed(z, m) {
      assert Attributed(y, m);
      if m.sender in y.honest {
        var k :| 0 <= k < |y.sides| && SentBy(y.sides[k], m);
        assert SentBy(z.sides[k], m);
      }
    }
  }

  lemma PoolInv(y: Mesh, m: Envelope)
    requires Inv(y) && Attributed(y, m)
    ensures Inv(y.(pool := y.pool + {m}))
  {
    hide Staged, Grounded, SentBy, InSession, FromPeer;
    var z := y.(pool := y.pool + {m});
    forall i | 0 <= i < |z.sides| ensures Grounded(z.sides[i], z.pool) {
      GroundedMore(y.sides[i], y.pool, z.pool);
    }
    forall n | n in z.pool ensures Attributed(z, n) {
      assert Attributed(y, n);
    }
  }

  lemma PublishedInv(y: Mesh, i: nat, o: Outcome, body: Body)
    requires Inv(y) && i < |y.sides| && Moved(y.sides[i], o.side, y.pool)
    requires o.Ok() ==> SentBy(o.side, Envelope(o.side.local, o.side.peer, o.side.session, o.side.nextSeq, body))
    ensures Inv(Published(y, i, o, body))
  {
    hide Inv, Staged, Grounded, SentBy;
    if o.Ok() {
      var s := o.side;
      var t := s.(nextSeq := s.nextSeq + 1);
      OtherMoves(s, t, y.pool);
      assert Moved(y.sides[i], t, y.pool);
      SideInv(y, i, t);
      var z := WithSide(y, i, t);
      var m := Envelope(s.local, s.peer, s.session, s.nextSeq, body);
      assert SentBy(z.sides[i], m);
      PoolInv(z, m);
    } else {
      SideInv(y, i, o.side);
    }
  }

  lemma OpenInv(y: Mesh, e: Event)
    requires Inv(y) && e.Open? && Possible(y, e)
    ensures Inv(Next(y, e))
  {
    hide InSession, FromPeer;
    var z := Next(y, e);
    forall m | m in z.pool ensures Attributed(z, m) {
      assert Attributed(y, m);
      if m.sender in y.honest {
        var k :| 0 <= k < |y.sides| && SentBy(y.sides[k], m);
        assert SentBy(z.sides[k], m);
      }
    }
  }

  lemma NextInv(y: Mesh, e: Event)
    requires Inv(y) && Possible(y, e)
    ensures Inv(Next(y, e))
  {
    hide Inv, Grounded, Staged, SentBy, RequestTaken, OfferTaken, AcceptTaken;
    match e
    case Open(_, _, _, _, _, _, _) => OpenInv(y, e);
    case SendRequest(i, nonce, lifetime, now) => SendRequestInv(y, e);
    case HearRequest(i, m, authorized, now) =>
      SideOk(y, i);
      RequestTakenMoves(y.sides[i], m, authorized, now, y.pool);
      SideInv(y, i, RequestTaken(y.sides[i], m.body.request, m.seq_, authorized, now).side);
    case SendOffer(i, nonce, lifetime, now) => SendOfferInv(y, e);
    case HearOffer(i, m, now) =>
      SideOk(y, i);
      OfferTakenMoves(y.sides[i], m, now, y.pool);
      SideInv(y, i, OfferTaken(y.sides[i], m.body.offer, m.seq_, now).side);
    case SendAccept(i, now) => SendAcceptInv(y, e);
    case HearAccept(i, m, now) =>
      SideOk(y, i);
      AcceptTakenMoves(y.sides[i], m, now, y.pool);
      SideInv(y, i, AcceptTaken(y.sides[i], m.body.accept, m.seq_, now).side);
    case Confirm(i, now) =>
      SideOk(y, i);
      OtherMoves(y.sides[i], Confirmed(y.sides[i], now).side, y.pool);
      SideInv(y, i, Confirmed(y.sides[i], now).side);
    case HearReady(i, seq_, now) =>
      SideOk(y, i);
      OtherMoves(y.sides[i], ReadyTaken(y.sides[i], seq_, now).side, y.pool);
      SideInv(y, i, ReadyTaken(y.sides[i], seq_, now).side);
    case Fail(i, reason) =>
      SideOk(y, i);
      OtherMoves(y.sides[i], y.sides[i].(state := Failed, failure := reason), y.pool);
      SideInv(y, i, y.sides[i].(state := Failed, failure := reason));
    case Close(i) =>
      SideOk(y, i);
      OtherMoves(y.sides[i], y.sides[i].(state := Closed), y.pool);
      SideInv(y, i, y.sides[i].(state := Closed));
    case Write(m) => WriteInv(y, m);
  }

  lemma SideOk(y: Mesh, i: nat)
    requires Inv(y) && i < |y.sides|
    ensures Staged(y.sides[i]) && Grounded(y.sides[i], y.pool)
  {
  }

  lemma WriteInv(y: Mesh, m: Envelope)
    requires Inv(y) && m.sender !in y.honest
    ensures Inv(y.(pool := y.pool + {m}))
  {
    PoolInv(y, m);
  }

  lemma SendRequestInv(y: Mesh, e: Event)
    requires Inv(y) && e.SendRequest? && Possible(y, e)
    ensures Inv(Next(y, e))
  {
    hide Inv, Grounded;
    SideOk(y, e.i);
    RequestBuiltMoves(y.sides[e.i], e.now, y.pool);
    PublishedInv(y, e.i, RequestBuilt(y.sides[e.i], e.now),
      RequestBody(RequestOf(y.sides[e.i], e.nonce, e.now + e.lifetime)));
  }

  lemma SendOfferInv(y: Mesh, e: Event)
    requires Inv(y) && e.SendOffer? && Possible(y, e)
    ensures Inv(Next(y, e))
  {
    hide Inv, Grounded;
    SideOk(y, e.i);
    var offer := OfferOf(y.sides[e.i], e.nonce, e.now + e.lifetime);
    OfferBuiltMoves(y.sides[e.i], e.nonce, e.now + e.lifetime, e.now, y.pool);
    PublishedInv(y, e.i, OfferBuilt(y.sides[e.i], offer, e.now), OfferBody(offer));
  }

  lemma SendAcceptInv(y: Mesh, e: Event)
    requires Inv(y) && e.SendAccept? && Possible(y, e)
    ensures Inv(Next(y, e))
  {
    hide Inv, Grounded;
    SideOk(y, e.i);
    AcceptBuiltMoves(y.sides[e.i], e.now, y.pool);
    PublishedInv(y, e.i, AcceptBuilt(y.sides[e.i], e.now), AcceptBody(Accept(y.sides[e.i].offerHash)));
  }

  lemma {:induction false} RunInv(honest: set<Node>, events: seq<Event>)
    requires Run(honest, events)
    ensures Inv(After(honest, events)) && After(honest, events).honest == honest
    decreases |events|
  {
    hide Inv, Possible, Next;
    if events == [] {
      EmptyInv(honest);
    } else {
      RunInv(honest, events[..|events| - 1]);
      NextInv(After(honest, events[..|events| - 1]), events[|events| - 1]);
      NextHonest(After(honest, events[..|events| - 1]), events[|events| - 1]);
    }
  }

  lemma EmptyInv(honest: set<Node>)
    ensures Inv(Mesh(honest, [], {}))
  {
  }

  lemma NextHonest(y: Mesh, e: Event)
    requires Possible(y, e)
    ensures Next(y, e).honest == y.honest
  {
  }

  // Agreement

  /** The two ends of one session: each names the other, and each holds the other's key and the same terms. */
  predicate Agreed(r: Side, i: Side) {
    r.role == Responder && i.role == Initiator && r.session == i.session && r.local == i.peer && r.peer == i.local
    && r.offerHash == i.offerHash
    && r.peerTunnel.Some? && r.peerTunnel.value.public == Canonical(i.tunnel)
    && i.peerTunnel.Some? && i.peerTunnel.value.public == Canonical(r.tunnel)
  }

  predicate InTunnel(s: Side) { s.state in {Connecting, Established} }

  lemma AcceptOf(y: Mesh, r: nat) returns (m: Envelope, i: nat)
    requires Inv(y) && r < |y.sides| && y.sides[r].role == Responder && InTunnel(y.sides[r])
    requires y.sides[r].peer in y.honest
    ensures m in y.pool && m.body.AcceptBody? && FromPeer(y.sides[r], m) && m.body.accept.offerHash == y.sides[r].offerHash
    ensures i < |y.sides| && SentBy(y.sides[i], m)
  {
    assert GroundedAccept(y.sides[r], y.pool);
    m :| m in y.pool && m.body.AcceptBody? && FromPeer(y.sides[r], m) && y.sides[r].offerHash == m.body.accept.offerHash;
    assert Attributed(y, m);
    i :| 0 <= i < |y.sides| && SentBy(y.sides[i], m);
  }

  /** The offer an initiator holds was made by the responder whose key it carries. */
  lemma OfferOwner(y: Mesh, r: nat, i: nat)
    requires Inv(y) && r < |y.sides| && i < |y.sides|
    requires y.sides[i].role == Initiator && y.sides[i].offerHash != NO_HASH && y.sides[i].peer in y.honest
    requires y.sides[r].role == Responder && y.sides[r].offerHash == y.sides[i].offerHash
    ensures y.sides[r].session == y.sides[i].session
    ensures y.sides[i].peerTunnel.Some? && y.sides[i].peerTunnel.value.public == Canonical(y.sides[r].tunnel)
  {
    var s, t := y.sides[r], y.sides[i];
    assert GroundedOffer(t, y.pool);
    var m :| m in y.pool && m.body.OfferBody? && InSession(t, m) && t.offerHash == HashOffer(m.body.offer)
      && t.peerTunnel == Some(m.body.offer.tunnelKey);
    assert Attributed(y, m);
    var k :| 0 <= k < |y.sides| && SentBy(y.sides[k], m);
    assert OwnOffer(s);
    assert y.sides[k].tunnel == s.tunnel;
    assert k == r;
  }

  /** The request a responder answered was made by the one initiator of its session. */
  lemma RequestOwner(y: Mesh, r: nat, i: nat)
    requires Inv(y) && r < |y.sides| && i < |y.sides|
    requires y.sides[r].role == Responder && y.sides[r].peerTunnel.Some? && y.sides[r].peer in y.honest
    requires y.sides[i].role == Initiator && y.sides[i].session == y.sides[r].session
    ensures y.sides[r].peerTunnel.value.public == Canonical(y.sides[i].tunnel)
  {
    var s := y.sides[r];
    assert GroundedRequest(s, y.pool);
    var m :| m in y.pool && m.body.RequestBody? && InSession(s, m) && s.peerTunnel == Some(m.body.request.tunnelKey);
    assert Attributed(y, m);
    var k :| 0 <= k < |y.sides| && SentBy(y.sides[k], m);
    assert k == i;
  }

  /**
   A responder that reached the tunnel did so on the word of an initiator of its
   own session, that sent exactly this acceptance there and agrees on every term.
   */
  lemma ResponderAgrees(honest: set<Node>, events: seq<Event>, r: nat) returns (i: nat, m: Envelope)
    requires Run(honest, events) && r < |After(honest, events).sides|
    requires var s := After(honest, events).sides[r]; s.role == Responder && InTunnel(s) && s.peer in honest
    ensures i < |After(honest, events).sides| && Agreed(After(honest, events).sides[r], After(honest, events).sides[i])
    ensures m in After(honest, events).pool && m.session == After(honest, events).sides[r].session
    ensures SentBy(After(honest, events).sides[i], m)
    ensures m.body == AcceptBody(Accept(After(honest, events).sides[r].offerHash))
  {
    hide Run, After;
    var y := After(honest, events);
    RunInv(honest, events);
    m, i := AcceptOf(y, r);
    OfferOwner(y, r, i);
    RequestOwner(y, r, i);
  }

  /** Both ends of one session in the tunnel, both honest: they agree on the terms and on each other's keys. */
  lemma BothAgree(honest: set<Node>, events: seq<Event>, r: nat, i: nat)
    requires Run(honest, events) && r < |After(honest, events).sides| && i < |After(honest, events).sides|
    requires var s := After(honest, events).sides[r]; s.role == Responder && InTunnel(s) && s.peer in honest
    requires var t := After(honest, events).sides[i];
      t.role == Initiator && t.session == After(honest, events).sides[r].session
    ensures Agreed(After(honest, events).sides[r], After(honest, events).sides[i])
  {
    hide Run, After;
    var j, m := ResponderAgrees(honest, events, r);
    RunInv(honest, events);
    assert j == i;
  }

  /** An initiator in the tunnel holds the terms of a responder of its session, whatever that one did since. */
  lemma InitiatorAgrees(honest: set<Node>, events: seq<Event>, i: nat) returns (r: nat)
    requires Run(honest, events) && i < |After(honest, events).sides|
    requires var t := After(honest, events).sides[i]; t.role == Initiator && InTunnel(t) && t.peer in honest
    ensures r < |After(honest, events).sides|
    ensures var y := After(honest, events); Agreed(y.sides[r], y.sides[i])
    ensures var y := After(honest, events);
      y.sides[r].role == Responder && y.sides[r].session == y.sides[i].session
      && y.sides[r].offerHash == y.sides[i].offerHash && y.sides[r].local == y.sides[i].peer
  {
    hide Run, After;
    var y := After(honest, events);
    RunInv(honest, events);
    var t := y.sides[i];
    assert GroundedOffer(t, y.pool);
    var m :| m in y.pool && m.body.OfferBody? && InSession(t, m) && t.offerHash == HashOffer(m.body.offer)
      && t.peerTunnel == Some(m.body.offer.tunnelKey);
    assert Attributed(y, m);
    r :| 0 <= r < |y.sides| && SentBy(y.sides[r], m);
    RequestOwner(y, r, i);
  }

  // The probe key both ends compute

  datatype ProbeKey = ProbeKey(session: SessionId, first: KeyText, second: KeyText)

  /** The session and the two tunnel keys, in the order of their texts. */
  function DeriveSessionKey(above: (KeyText, KeyText) -> bool, session: SessionId, own: KeyText, peers: KeyText): ProbeKey {
    if above(own, peers) then ProbeKey(session, peers, own) else ProbeKey(session, own, peers)
  }

  function ProbeKeyOf(above: (KeyText, KeyText) -> bool, s: Side): ProbeKey
    requires s.peerTunnel.Some?
  {
    DeriveSessionKey(above, s.session, Canonical(s.tunnel), s.peerTunnel.value.public)
  }

  ghost predicate StrictTotal(above: (KeyText, KeyText) -> bool) {
    (forall a, b :: above(a, b) ==> !above(b, a)) && (forall a, b :: a != b ==> above(a, b) || above(b, a))
  }

  /** The ends of a session derive the same probe key; ends of different sessions do not. */
  lemma SameProbeKey(above: (KeyText, KeyText) -> bool, r: Side, i: Side)
    requires StrictTotal(above) && Agreed(r, i)
    ensures ProbeKeyOf(above, r) == ProbeKeyOf(above, i)
    ensures forall s: Side :: s.peerTunnel.Some? && s.session != r.session ==> ProbeKeyOf(above, s) != ProbeKeyOf(above, r)
  {
  }

  // The exchange goes through

  /** With every message delivered in time, authorized and unaltered, both ends reach the tunnel agreeing. */
  lemma ExchangeCompletes(session: SessionId, a: Node, b: Node, ka: Key, kb: Key, timeout: int, now: int, lifetime: int,
                          na: nat, nb: nat)
    requires Openable(session, a, b, ka, now) && Openable(session, b, a, kb, now) && ka != kb
    requires 0 < timeout && 0 < lifetime
    ensures var i0 := Opened(Initiator, session, a, b, ka, timeout, now);
      var r0 := Opened(Responder, session, b, a, kb, timeout, now);
      var i1 := RequestBuilt(i0, now);
      var r1 := RequestTaken(r0, RequestOf(i0, na, now + lifetime), 0, true, now);
      var offer := OfferOf(r1.side, nb, now + lifetime);
      var r2 := OfferBuilt(r1.side, offer, now);
      var i2 := OfferTaken(i1.side, offer, 0, now);
      var i3 := AcceptBuilt(i2.side, now);
      var r3 := AcceptTaken(r2.side, Accept(i2.side.offerHash), 1, now);
      i1.Ok() && r1.Ok() && r2.Ok() && i2.Ok() && i3.Ok() && r3.Ok()
      && InTunnel(i3.side) && InTunnel(r3.side) && Agreed(r3.side, i3.side)
  {
    var i0 := Opened(Initiator, session, a, b, ka, timeout, now);
    var r0 := Opened(Responder, session, b, a, kb, timeout, now);
    var r1 := RequestTaken(r0, RequestOf(i0, na, now + lifetime), 0, true, now);
    assert r1.side.seen == map[0 := DigestOf(RequestContent(RequestOf(i0, na, now + lifetime)))];
    assert 1 !in r1.side.seen;
  }

  /** A peer's key, once bound, is never replaced by another. */
  lemma KeyNeverReplaced(y: Mesh, e: Event, i: nat)
    requires Possible(y, e) && i < |y.sides| && y.sides[i].peerTunnel.Some?
    ensures i < |Next(y, e).sides| && Next(y, e).sides[i].peerTunnel.Some?
    ensures Next(y, e).sides[i].peerTunnel.value.public == y.sides[i].peerTunnel.value.public
  {
  }

  /** Only this node's own check establishes; nothing a peer sends does. */
  lemma OnlyConfirmEstablishes(y: Mesh, e: Event, i: nat)
    requires Possible(y, e) && i < |y.sides| && y.sides[i].state != Established
    ensures i < |Next(y, e).sides|
    ensures Next(y, e).sides[i].state == Established ==> e.Confirm? && e.i == i && y.sides[i].state == Connecting
  {
  }
}
