/**
 Connectivity probes on the wire (internal/connectivity/probe.go). The message
 authentication code is a parameter that gives 32 bytes; nothing else is assumed
 of it here.
 */
module Probes {
  import opened Prefixes
  import opened Bits
  import opened Bytes

  type Mac = (seq<byte>, seq<byte>) -> seq<byte>

  const NONCE_SIZE := 16
  const TAG_SIZE := 32
  const OBSERVED_SIZE := 18
  const PROBE_SIZE := 1 + NONCE_SIZE + 8 + OBSERVED_SIZE + TAG_SIZE

  const CHALLENGE: byte := 1
  const RESPONSE: byte := 2

  datatype Endpoint = Endpoint(addr: Addr, port: nat) {
    predicate Valid() { addr.Valid() && Fits(port, 2) }
  }

  datatype Probe = Probe(response: bool, nonce: seq<byte>, nanos: nat, observed: Endpoint)

  datatype Decoded = Authentic(probe: Probe) | Malformed | Mismatch | Unauthenticated

  ghost predicate Tags(mac: Mac) { forall key, text :: |mac(key, text)| == TAG_SIZE }

  // Addresses in sixteen bytes

  const V4_MARK: seq<byte> := [0, 0, 0, 0, 0, 0, 0, 0, 0, 0, 255, 255]

  /** An IPv4 address is written as its IPv6-mapped form. */
  function As16(a: Addr): (r: seq<byte>)
    ensures |r| == 16
  {
    if a.family == V4 then V4_MARK + BigEndian(a.value, 4) else BigEndian(a.value, 16)
  }

  /** The mapped form is read as IPv4 again. */
  function FromSlice(s: seq<byte>): Addr
    requires |s| == 16
  {
    if s[..12] == V4_MARK then Addr(V4, FromBigEndian(s[12..])) else Addr(V6, FromBigEndian(s))
  }

  /** An address as netip gives it after Unmap: never an IPv6 spelling of an IPv4 address. */
  predicate Unmapped(a: Addr) {
    if a.family == V4 then Fits(a.value, 4) else Fits(a.value, 16) && BigEndian(a.value, 16)[..12] != V4_MARK
  }

  lemma AddressBack(a: Addr)
    requires Unmapped(a)
    ensures FromSlice(As16(a)) == a
  {
    if a.family == V4 {
      assert As16(a)[..12] == V4_MARK && As16(a)[12..] == BigEndian(a.value, 4);
      DecodesBack(a.value, 4);
    } else {
      DecodesBack(a.value, 16);
    }
  }

  // Probes

  function Body(nanos: nat, observed: seq<byte>): (r: seq<byte>)
    requires |observed| == OBSERVED_SIZE
    ensures |r| == 8 + OBSERVED_SIZE
  {
    BigEndian(nanos, 8) + observed
  }

  function Sealed(mac: Mac, key: seq<byte>, kind: byte, nonce: seq<byte>, body: seq<byte>): seq<byte> {
    [kind] + nonce + body + mac(key, [kind] + nonce + body)
  }

  function Zeros(n: nat): (r: seq<byte>)
    ensures |r| == n
  {
    seq(n, _ => 0)
  }

  function EncodeChallenge(mac: Mac, key: seq<byte>, nonce: seq<byte>, nanos: nat): seq<byte> {
    Sealed(mac, key, CHALLENGE, nonce, Body(nanos, Zeros(OBSERVED_SIZE)))
  }

  function EncodeResponse(mac: Mac, key: seq<byte>, nonce: seq<byte>, nanos: nat, observed: Endpoint): seq<byte> {
    Sealed(mac, key, RESPONSE, nonce, Body(nanos, As16(observed.addr) + BigEndian(observed.port, 2)))
  }

  predicate Shaped(raw: seq<byte>) { |raw| == PROBE_SIZE && raw[0] in {CHALLENGE, RESPONSE} }

  function Read(raw: seq<byte>): Probe
    requires Shaped(raw)
  {
    var body := raw[17..43];
    Probe(raw[0] == RESPONSE, raw[1..17], FromBigEndian(body[..8]),
      Endpoint(FromSlice(body[8..24]), FromBigEndian(body[24..])))
  }

  predicate Authenticates(mac: Mac, key: seq<byte>, raw: seq<byte>)
    requires Shaped(raw)
  {
    raw[43..] == mac(key, raw[..43])
  }

  function Decode(mac: Mac, key: seq<byte>, kind: byte, raw: seq<byte>): Decoded {
    if !Shaped(raw) then Malformed
    else if raw[0] != kind then Mismatch
    else if !Authenticates(mac, key, raw) then Unauthenticated
    else Authentic(Read(raw))
  }

  function DecodeChallenge(mac: Mac, key: seq<byte>, raw: seq<byte>): Decoded { Decode(mac, key, CHALLENGE, raw) }

  function DecodeResponse(mac: Mac, key: seq<byte>, raw: seq<byte>): Decoded { Decode(mac, key, RESPONSE, raw) }

  lemma SealedParts(mac: Mac, key: seq<byte>, kind: byte, nonce: seq<byte>, body: seq<byte>)
    requires Tags(mac) && |nonce| == NONCE_SIZE && |body| == 8 + OBSERVED_SIZE
    ensures var raw := Sealed(mac, key, kind, nonce, body);
      |raw| == PROBE_SIZE && raw[0] == kind && raw[1..17] == nonce && raw[17..43] == body
      && raw[43..] == mac(key, raw[..43])
  {
    var raw := Sealed(mac, key, kind, nonce, body);
    assert raw[..43] == [kind] + nonce + body;
  }

  /** A response is read back as it was written, by its own decoder and no other. */
  lemma ResponseBack(mac: Mac, key: seq<byte>, nonce: seq<byte>, nanos: nat, observed: Endpoint)
    requires Tags(mac) && |nonce| == NONCE_SIZE && Fits(nanos, 8) && Unmapped(observed.addr) && Fits(observed.port, 2)
    ensures var raw := EncodeResponse(mac, key, nonce, nanos, observed);
      DecodeResponse(mac, key, raw) == Authentic(Probe(true, nonce, nanos, observed))
      && DecodeChallenge(mac, key, raw) == Mismatch
  {
    hide Fits, BigEndian, FromBigEndian;
    var seen := As16(observed.addr) + BigEndian(observed.port, 2);
    var body := Body(nanos, seen);
    SealedParts(mac, key, RESPONSE, nonce, body);
    BodyBack(nanos, observed);
  }

  lemma BodyBack(nanos: nat, observed: Endpoint)
    requires Fits(nanos, 8) && Unmapped(observed.addr) && Fits(observed.port, 2)
    ensures var body := Body(nanos, As16(observed.addr) + BigEndian(observed.port, 2));
      FromBigEndian(body[..8]) == nanos && FromSlice(body[8..24]) == observed.addr
      && FromBigEndian(body[24..]) == observed.port
  {
    hide Fits, BigEndian, FromBigEndian, FromSlice, As16;
    var body := Body(nanos, As16(observed.addr) + BigEndian(observed.port, 2));
    assert body[..8] == BigEndian(nanos, 8);
    assert body[8..24] == As16(observed.addr);
    assert body[24..] == BigEndian(observed.port, 2);
    DecodesBack(nanos, 8);
    AddressBack(observed.addr);
    DecodesBack(observed.port, 2);
  }

  lemma ChallengeBack(mac: Mac, key: seq<byte>, nonce: seq<byte>, nanos: nat)
    requires Tags(mac) && |nonce| == NONCE_SIZE && Fits(nanos, 8)
    ensures var raw := EncodeChallenge(mac, key, nonce, nanos);
      DecodeResponse(mac, key, raw) == Mismatch
      && DecodeChallenge(mac, key, raw).Authentic?
      && DecodeChallenge(mac, key, raw).probe.nonce == nonce && DecodeChallenge(mac, key, raw).probe.nanos == nanos
  {
    hide Fits, BigEndian, FromBigEndian;
    var body := Body(nanos, Zeros(OBSERVED_SIZE));
    SealedParts(mac, key, CHALLENGE, nonce, body);
    assert body[..8] == BigEndian(nanos, 8);
    DecodesBack(nanos, 8);
  }

  /** What authenticates carries the tag of exactly its own kind, nonce and body. */
  lemma AuthenticIff(mac: Mac, key: seq<byte>, raw: seq<byte>)
    requires Tags(mac)
    ensures DecodeResponse(mac, key, raw).Authentic? <==>
      exists nonce, body :: |nonce| == NONCE_SIZE && |body| == 8 + OBSERVED_SIZE
        && raw == Sealed(mac, key, RESPONSE, nonce, body)
  {
    if DecodeResponse(mac, key, raw).Authentic? {
      var nonce, body := raw[1..17], raw[17..43];
      assert raw[..43] == [RESPONSE] + nonce + body;
      assert raw == raw[..43] + raw[43..];
      assert raw == Sealed(mac, key, RESPONSE, nonce, body);
    }
    if nonce, body :| |nonce| == NONCE_SIZE && |body| == 8 + OBSERVED_SIZE
                      && raw == Sealed(mac, key, RESPONSE, nonce, body) {
      SealedParts(mac, key, RESPONSE, nonce, body);
    }
  }
}
