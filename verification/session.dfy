/**
 One side of a handshake (internal/session/handshake.go and transitions.go): the
 state machine as functions on values, and the object that carries it out.
 */
module Sessions {
  import opened Wrappers

  type Node = nat
  type SessionId = nat
  type Key = nat

  /** A tunnel key as sent. Base64 decoding is lenient, so one key has several spellings; spelling 0 is its own. */
  datatype KeyText = Spelled(key: Key, spelling: nat) | Malformed(text: string)

  function Canonical(key: Key): KeyText { Spelled(key, 0) }

  datatype TunnelKey = TunnelKey(public: KeyText, nonce: nat, expiresAt: int)

  datatype Capabilities = Capabilities(versions: seq<int>, transports: seq<string>, candidates: seq<string>)

  datatype Request = Request(capabilities: Capabilities, tunnelKey: TunnelKey, overlay: string)

  datatype Offer = Offer(capabilities: Capabilities, tunnelKey: TunnelKey, overlay: string, agreedVersion: int,
                         agreedTransports: seq<string>)

  datatype Accept = Accept(offerHash: Digest)

  datatype Content = RequestContent(request: Request) | OfferContent(offer: Offer) | AcceptContent(accept: Accept)
    | ReadyContent

  /** A hash that never collides; a peer can also send a text that is the hash of nothing. */
  datatype Digest = DigestOf(content: Content) | Arbitrary(text: string)

  const VERSION := 1
  const TRANSPORT := "wireguard/udp"

  function LocalCapabilities(): Capabilities { Capabilities([VERSION], [TRANSPORT], ["host", "static"]) }

  /** What a handshake holds before it has agreed to anything. */
  const NO_HASH := Arbitrary("")

  function HashOffer(offer: Offer): Digest { DigestOf(OfferContent(offer)) }

  datatype Role = Initiator | Responder

  datatype State = Idle | RequestSent | RequestReceived | OfferSent | OfferReceived | Connecting | Established | Closed
    | Failed
  {
    predicate Terminal() { Closed? || Failed? }
  }

  datatype Error = Terminal | Timeout | Unexpected | Unauthorized | SequenceConflict | BadKey | Expired
    | KeySubstituted | OfferMismatch

  /** Everything a handshake holds. */
  datatype Side = Side(role: Role, session: SessionId, local: Node, peer: Node, state: State, tunnel: Key,
                       peerTunnel: Option<TunnelKey>, offerHash: Digest, nextSeq: nat,
                       seen: map<nat, Digest>, deadline: int, failure: string)

  /** The side after a call, and why the call was refused, if it was. */
  datatype Outcome = Outcome(side: Side, error: Option<Error>) {
    predicate Ok() { error.None? }
  }

  function Refuse(s: Side, e: Error): Outcome { Outcome(s, Some(e)) }

  function Alive(s: Side, now: int): Option<Error> {
    if s.state.Terminal() then Some(Terminal) else if now >= s.deadline then Some(Timeout) else None
  }

  /** Alive, in the right role, in the right state, in that order. */
  function Ready(s: Side, role: Role, state: State, now: int): Option<Error> {
    if Alive(s, now).Some? then Alive(s, now)
    else if s.role != role || s.state != state then Some(Unexpected)
    else None
  }

  function Recorded(s: Side, seq_: nat, content: Content): Outcome {
    var digest := DigestOf(content);
    if seq_ !in s.seen then Outcome(s.(seen := s.seen[seq_ := digest]), None)
    else if s.seen[seq_] == digest then Outcome(s, None)
    else Refuse(s, SequenceConflict)
  }

  function Bound(s: Side, key: TunnelKey, now: int): Outcome {
    if key.public.Malformed? || key.public.key == 0 then Refuse(s, BadKey)
    else if now >= key.expiresAt then Refuse(s, Expired)
    else if s.peerTunnel.Some? && s.peerTunnel.value.public != key.public then Refuse(s, KeySubstituted)
    else if key.public.key == s.tunnel then Refuse(s, KeySubstituted)
    else Outcome(s.(peerTunnel := Some(key)), None)
  }

  /** Record the message, then bind the key it carries. A key that is refused leaves the message recorded. */
  function RecordedAndBound(s: Side, seq_: nat, content: Content, key: TunnelKey, now: int): Outcome {
    var recorded := Recorded(s, seq_, content);
    if !recorded.Ok() then recorded else Bound(recorded.side, key, now)
  }

  function RequestOf(s: Side, nonce: nat, expiresAt: int): Request {
    Request(LocalCapabilities(), TunnelKey(Canonical(s.tunnel), nonce, expiresAt), "")
  }

  function OfferOf(s: Side, nonce: nat, expiresAt: int): Offer {
    Offer(LocalCapabilities(), TunnelKey(Canonical(s.tunnel), nonce, expiresAt), "", VERSION, [TRANSPORT])
  }

  function RequestBuilt(s: Side, now: int): Outcome {
    var e := Ready(s, Initiator, Idle, now);
    if e.Some? then Refuse(s, e.value) else Outcome(s.(state := RequestSent), None)
  }

  function RequestTaken(s: Side, request: Request, seq_: nat, authorized: bool, now: int): Outcome {
    var e := Ready(s, Responder, Idle, now);
    if e.Some? then Refuse(s, e.value)
    else if !authorized then Refuse(s, Unauthorized)
    else
      var bound := RecordedAndBound(s, seq_, RequestContent(request), request.tunnelKey, now);
      if !bound.Ok() then bound else Outcome(bound.side.(state := RequestReceived), None)
  }

  function OfferBuilt(s: Side, offer: Offer, now: int): Outcome {
    var e := Ready(s, Responder, RequestReceived, now);
    if e.Some? then Refuse(s, e.value)
    else Outcome(s.(offerHash := HashOffer(offer), state := OfferSent), None)
  }

  function OfferTaken(s: Side, offer: Offer, seq_: nat, now: int): Outcome {
    var e := Ready(s, Initiator, RequestSent, now);
    if e.Some? then Refuse(s, e.value)
    else
      var bound := RecordedAndBound(s, seq_, OfferContent(offer), offer.tunnelKey, now);
      if !bound.Ok() then bound
      else Outcome(bound.side.(offerHash := HashOffer(offer), state := OfferReceived), None)
  }

  function AcceptBuilt(s: Side, now: int): Outcome {
    var e := Ready(s, Initiator, OfferReceived, now);
    if e.Some? then Refuse(s, e.value) else Outcome(s.(state := Connecting), None)
  }

  function AcceptTaken(s: Side, accept: Accept, seq_: nat, now: int): Outcome {
    var e := Ready(s, Responder, OfferSent, now);
    if e.Some? then Refuse(s, e.value)
    else
      var recorded := Recorded(s, seq_, AcceptContent(accept));
      if !recorded.Ok() then recorded
      else if accept.offerHash != s.offerHash then Refuse(recorded.side, OfferMismatch)
      else Outcome(recorded.side.(state := Connecting), None)
  }

  function Confirmed(s: Side, now: int): Outcome {
    if Alive(s, now).Some? then Refuse(s, Alive(s, now).value)
    else if s.state != Connecting then Refuse(s, Unexpected)
    else Outcome(s.(state := Established), None)
  }

  function ReadyTaken(s: Side, seq_: nat, now: int): Outcome {
    if Alive(s, now).Some? then Refuse(s, Alive(s, now).value)
    else if s.state !in {Connecting, Established} then Refuse(s, Unexpected)
    else Recorded(s, seq_, ReadyContent)
  }

  const DEFAULT_TIMEOUT := 60

  /** Whether a handshake can be opened at all. The zero value of an identifier is no identifier. */
  predicate Openable(session: SessionId, local: Node, peer: Node, tunnel: Key, now: int) {
    session != 0 && local != 0 && peer != 0 && local != peer && tunnel != 0 && now != 0
  }

  function Opened(role: Role, session: SessionId, local: Node, peer: Node, tunnel: Key, timeout: int, now: int): Side {
    Side(role, session, local, peer, Idle, tunnel, None, NO_HASH, 0, map[],
      now + if timeout <= 0 then DEFAULT_TIMEOUT else timeout, "")
  }

  /** The mutable handshake. Its methods commit fields one at a time, in the order the checks pass. */
  class Handshake {
    const role: Role
    const session: SessionId
    const local: Node
    const peer: Node
    const tunnel: Key
    const deadline: int
    var state: State
    var peerTunnel: Option<TunnelKey>
    var offerHash: Digest
    var nextSeq: nat
    var seen: map<nat, Digest>
    var failure: string

    function Value(): Side
      reads this
    {
      Side(role, session, local, peer, state, tunnel, peerTunnel, offerHash, nextSeq, seen, deadline, failure)
    }

    constructor (role: Role, session: SessionId, local: Node, peer: Node, tunnel: Key, timeout: int, now: int)
      requires Openable(session, local, peer, tunnel, now)
      ensures Value() == Opened(role, session, local, peer, tunnel, timeout, now)
    {
      this.role, this.session, this.local, this.peer, this.tunnel := role, session, local, peer, tunnel;
      deadline := now + if timeout <= 0 then DEFAULT_TIMEOUT else timeout;
      state, peerTunnel, offerHash, nextSeq, seen, failure := Idle, None, NO_HASH, 0, map[], "";
    }

    static method Open(role: Role, session: SessionId, local: Node, peer: Node, tunnel: Key, timeout: int, now: int)
      returns (h: Option<Handshake>)
      ensures h.Some? <==> Openable(session, local, peer, tunnel, now)
      ensures h.Some? ==> fresh(h.value) && h.value.Value() == Opened(role, session, local, peer, tunnel, timeout, now)
    {
      if session == 0 || local == 0 || peer == 0 || local == peer || tunnel == 0 || now == 0 {
        return None;
      }
      var h0 := new Handshake(role, session, local, peer, tunnel, timeout, now);
      return Some(h0);
    }

    method NextSeq() returns (seq_: nat)
      modifies this`nextSeq
      ensures seq_ == old(nextSeq) && nextSeq == seq_ + 1
    {
      seq_ := nextSeq;
      nextSeq := nextSeq + 1;
    }

    method CheckAlive(now: int) returns (e: Option<Error>)
      ensures e == Alive(Value(), now)
    {
      if state.Terminal() {
        return Some(Terminal);
      }
      return if now >= deadline then Some(Timeout) else None;
    }

    method RecordSeq(seq_: nat, content: Content) returns (e: Option<Error>)
      modifies this`seen
      ensures Outcome(Value(), e) == Recorded(old(Value()), seq_, content)
    {
      var digest := DigestOf(content);
      if seq_ in seen {
        return if seen[seq_] == digest then None else Some(SequenceConflict);
      }
      seen := seen[seq_ := digest];
      return None;
    }

    method BindPeerTunnelKey(key: TunnelKey, now: int) returns (e: Option<Error>)
      modifies this`peerTunnel
      ensures Outcome(Value(), e) == Bound(old(Value()), key, now)
    {
      if key.public.Malformed? || key.public.key == 0 {
        return Some(BadKey);
      }
      if now >= key.expiresAt {
        return Some(Expired);
      }
      if peerTunnel.Some? && peerTunnel.value.public != key.public {
        return Some(KeySubstituted);
      }
      if key.public.key == tunnel {
        return Some(KeySubstituted);
      }
      peerTunnel := Some(key);
      return None;
    }

    method BuildRequest(nonce: nat, lifetime: int, now: int) returns (r: Option<Request>, e: Option<Error>)
      modifies this`state
      ensures Outcome(Value(), e) == RequestBuilt(old(Value()), now)
      ensures r == if e.None? then Some(RequestOf(old(Value()), nonce, now + lifetime)) else None
    {
      e := CheckAlive(now);
      if e.Some? {
        return None, e;
      }
      if role != Initiator || state != Idle {
        return None, Some(Unexpected);
      }
      state := RequestSent;
      return Some(Request(LocalCapabilities(), TunnelKey(Canonical(tunnel), nonce, now + lifetime), "")), None;
    }

    method ReceiveRequest(request: Request, seq_: nat, authorized: bool, now: int) returns (e: Option<Error>)
      modifies this
      ensures Outcome(Value(), e) == RequestTaken(old(Value()), request, seq_, authorized, now)
    {
      e := CheckAlive(now);
      if e.Some? {
        return;
      }
      if role != Responder || state != Idle {
        return Some(Unexpected);
      }
      if !authorized {
        return Some(Unauthorized);
      }
      e := RecordSeq(seq_, RequestContent(request));
      if e.Some? {
        return;
      }
      e := BindPeerTunnelKey(request.tunnelKey, now);
      if e.Some? {
        return;
      }
      state := RequestReceived;
    }

    method BuildOffer(nonce: nat, lifetime: int, now: int) returns (offer: Option<Offer>, e: Option<Error>)
      modifies this
      ensures Outcome(Value(), e) == OfferBuilt(old(Value()), OfferOf(old(Value()), nonce, now + lifetime), now)
      ensures offer == if e.None? then Some(OfferOf(old(Value()), nonce, now + lifetime)) else None
    {
      e := CheckAlive(now);
      if e.Some? {
        return None, e;
      }
      if role != Responder || state != RequestReceived {
        return None, Some(Unexpected);
      }
      var terms := Offer(LocalCapabilities(), TunnelKey(Canonical(tunnel), nonce, now + lifetime), "", VERSION,
        [TRANSPORT]);
      offerHash := HashOffer(terms);
      state := OfferSent;
      return Some(terms), None;
    }

    method ReceiveOffer(offer: Offer, seq_: nat, now: int) returns (e: Option<Error>)
      modifies this
      ensures Outcome(Value(), e) == OfferTaken(old(Value()), offer, seq_, now)
    {
      e := CheckAlive(now);
      if e.Some? {
        return;
      }
      if role != Initiator || state != RequestSent {
        return Some(Unexpected);
      }
      e := RecordSeq(seq_, OfferContent(offer));
      if e.Some? {
        return;
      }
      e := BindPeerTunnelKey(offer.tunnelKey, now);
      if e.Some? {
        return;
      }
      offerHash := HashOffer(offer);
      state := OfferReceived;
    }

    method BuildAccept(now: int) returns (accept: Option<Accept>, e: Option<Error>)
      modifies this`state
      ensures Outcome(Value(), e) == AcceptBuilt(old(Value()), now)
      ensures accept == if e.None? then Some(Accept(old(offerHash))) else None
    {
      e := CheckAlive(now);
      if e.Some? {
        return None, e;
      }
      if role != Initiator || state != OfferReceived {
        return None, Some(Unexpected);
      }
      state := Connecting;
      return Some(Accept(offerHash)), None;
    }

    method ReceiveAccept(accept: Accept, seq_: nat, now: int) returns (e: Option<Error>)
      modifies this
      ensures Outcome(Value(), e) == AcceptTaken(old(Value()), accept, seq_, now)
    {
      e := CheckAlive(now);
      if e.Some? {
        return;
      }
      if role != Responder || state != OfferSent {
        return Some(Unexpected);
      }
      e := RecordSeq(seq_, AcceptContent(accept));
      if e.Some? {
        return;
      }
      if accept.offerHash != offerHash {
        return Some(OfferMismatch);
      }
      state := Connecting;
    }

    method ConfirmEstablished(now: int) returns (e: Option<Error>)
      modifies this`state
      ensures Outcome(Value(), e) == Confirmed(old(Value()), now)
    {
      e := CheckAlive(now);
      if e.Some? {
        return;
      }
      if state != Connecting {
        return Some(Unexpected);
      }
      state := Established;
    }

    method ReceiveReady(seq_: nat, now: int) returns (e: Option<Error>)
      modifies this`seen
      ensures Outcome(Value(), e) == ReadyTaken(old(Value()), seq_, now)
    {
      e := CheckAlive(now);
      if e.Some? {
        return;
      }
      if state != Connecting && state != Established {
        return Some(Unexpected);
      }
      e := RecordSeq(seq_, ReadyContent);
    }

    method Fail(reason: string)
      modifies this`state, this`failure
      ensures Value() == old(Value()).(state := Failed, failure := reason)
    {
      state, failure := Failed, reason;
    }

    method Close()
      modifies this`state
      ensures Value() == old(Value()).(state := Closed)
    {
      state := Closed;
    }
  }
}
