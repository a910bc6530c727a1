/**
 Overlay networks and the addresses members derive in them
 (internal/domain/overlay.go). The hashes are parameters; only their widths are
 known.
 */
module Overlay {
  import opened Bits
  import opened Prefixes

  /** SHA-256 cut to forty bits of a network id, and HKDF of salt, key and counter cut to sixty-four. */
  datatype Hashes = Hashes(globalId: nat -> nat, interfaceId: (nat, nat, nat) -> nat) {
    ghost predicate Sized() {
      (forall network :: InWidth(globalId(network), 40))
      && (forall salt, key, counter :: InWidth(interfaceId(salt, key, counter), 64))
    }
  }

  const MAX_COUNTER := 1024
  const ULA: Prefix := Prefix(Addr(V6, Shl(0xfd, 120)), 8)

  /** The marker and the global id, in the top 48 bits. */
  function NetworkPrefix(h: Hashes, network: nat): Prefix {
    Prefix(Addr(V6, Shl(Shl(0xfd, 40) + h.globalId(network), 80)), 48)
  }

  function Subnet(h: Hashes, network: nat, id: nat): Prefix {
    Prefix(Addr(V6, Shl(Shl(Shl(0xfd, 40) + h.globalId(network), 16) + id, 64)), 64)
  }

  datatype Derivation = At(address: Addr) | NotAnOverlay | Exhausted

  function Candidate(h: Hashes, salt: nat, subnet: Prefix, key: nat, counter: nat): Addr {
    Addr(V6, Shl(Shr(subnet.addr.value, 64), 64) + h.interfaceId(salt, key, counter))
  }

  /** The address at a counter, or at the next one when it falls on the subnet-router anycast address. */
  function Derive(h: Hashes, salt: nat, subnet: Prefix, key: nat, counter: nat): Derivation
    decreases MAX_COUNTER - counter
  {
    if subnet.bits != 64 || subnet.addr.family != V6 then NotAnOverlay
    else if Candidate(h, salt, subnet, key, counter) != subnet.addr then At(Candidate(h, salt, subnet, key, counter))
    else if counter >= MAX_COUNTER then Exhausted
    else Derive(h, salt, subnet, key, counter + 1)
  }

  lemma {:induction false} ShiftSum(a: nat, low: nat, k: nat)
    requires InWidth(low, k)
    ensures Shr(Shl(a, k) + low, k) == a
  {
    if k > 0 {
      ShrHalf(Shl(a, k) + low, k);
      assert (Shl(a, k) + low) / 2 == Shl(a, k - 1) + low / 2;
      ShiftSum(a, low / 2, k - 1);
    }
  }

  lemma {:induction false} SumInWidth(a: nat, low: nat, m: nat, k: nat)
    requires InWidth(a, m) && InWidth(low, k)
    ensures InWidth(Shl(a, k) + low, m + k)
  {
    if k > 0 {
      assert (Shl(a, k) + low) / 2 == Shl(a, k - 1) + low / 2;
      SumInWidth(a, low / 2, m, k - 1);
    }
  }

  /** Where a derived address is: in the subnet, not its anycast address, at the first counter that allows it. */
  lemma {:induction false} DerivedPlace(h: Hashes, salt: nat, subnet: Prefix, key: nat, counter: nat) returns (at: nat)
    requires h.Sized() && subnet.Valid() && Derive(h, salt, subnet, key, counter).At?
    ensures var a := Derive(h, salt, subnet, key, counter).address;
      subnet.Contains(a) && a.Valid() && a != subnet.addr && at >= counter && a == Candidate(h, salt, subnet, key, at)
    ensures forall c :: counter <= c < at ==> Candidate(h, salt, subnet, key, c) == subnet.addr
    decreases MAX_COUNTER - counter
  {
    if Candidate(h, salt, subnet, key, counter) != subnet.addr {
      at := counter;
      var top := Shr(subnet.addr.value, 64);
      ShiftSum(top, h.interfaceId(salt, key, counter), 64);
      ShrInWidth(subnet.addr.value, 64, 64);
      SumInWidth(top, h.interfaceId(salt, key, counter), 64, 64);
    } else {
      at := DerivedPlace(h, salt, subnet, key, counter + 1);
    }
  }

  lemma {:induction false} ShrInWidth(v: nat, m: nat, k: nat)
    requires InWidth(v, m + k)
    ensures InWidth(Shr(v, k), m)
  {
    if k > 0 {
      ShrHalf(v, k);
      ShrInWidth(v / 2, m, k - 1);
    }
  }

  lemma {:induction false} ZeroInWidth(k: nat)
    ensures InWidth(0, k)
  {
    if k > 0 { ZeroInWidth(k - 1); }
  }

  /** What a value holds above its low bits: written with zeros below, it is a prefix of itself. */
  lemma Rooted(top: nat, m: nat, k: nat)
    requires InWidth(top, m)
    ensures InWidth(Shl(top, k), m + k) && Shl(Shr(Shl(top, k), k), k) == Shl(top, k)
  {
    ZeroInWidth(k);
    SumInWidth(top, 0, m, k);
    ShrShl(top, k);
  }

  lemma MarkerWidth()
    ensures InWidth(0xfd, 8)
  {
    assert Mask(0xf, 4) == 0xf;
  }

  lemma Root(h: Hashes, network: nat)
    requires h.Sized()
    ensures InWidth(Shl(0xfd, 40) + h.globalId(network), 48) && Shr(Shl(0xfd, 40) + h.globalId(network), 40) == 0xfd
  {
    hide Shl, Shr, InWidth;
    MarkerWidth();
    SumInWidth(0xfd, h.globalId(network), 8, 40);
    ShiftSum(0xfd, h.globalId(network), 40);
  }

  /** A subnet is a proper /64 of its network, which is a unique local /48. */
  lemma SubnetPlace(h: Hashes, network: nat, id: nat)
    requires h.Sized() && InWidth(id, 16)
    ensures Subnet(h, network, id).Valid() && Subnet(h, network, id).Masked() == Subnet(h, network, id)
    ensures NetworkPrefix(h, network).Valid() && NetworkPrefix(h, network).Contains(Subnet(h, network, id).addr)
    ensures ULA.Valid() && ULA.Contains(Subnet(h, network, id).addr)
  {
    hide Shl, Shr, InWidth;
    var top := Shl(0xfd, 40) + h.globalId(network);
    var whole := Shl(top, 16) + id;
    Root(h, network);
    SumInWidth(top, id, 48, 16);
    Rooted(whole, 64, 64);
    Rooted(top, 48, 80);
    UlaRoot();
    ShrShl(whole, 64);
    ShrShl(top, 80);
    ShrShr(Shl(whole, 64), 64, 16);
    ShiftSum(top, id, 16);
    ShrShr(Shl(whole, 64), 80, 40);
  }

  lemma UlaRoot()
    ensures ULA.Valid() && Shr(ULA.addr.value, 120) == 0xfd
  {
    hide Shl, Shr, InWidth;
    MarkerWidth();
    Rooted(0xfd, 8, 120);
    ShrShl(0xfd, 120);
  }

  /** Different subnets of one network share no address. */
  lemma SubnetsApart(h: Hashes, network: nat, a: nat, b: nat)
    requires h.Sized() && InWidth(a, 16) && InWidth(b, 16)
    ensures Subnet(h, network, a).Valid() && Subnet(h, network, b).Valid()
    ensures Subnet(h, network, a).Meets(Subnet(h, network, b)) <==> a == b
  {
    hide Shl, Shr, InWidth;
    SubnetPlace(h, network, a);
    SubnetPlace(h, network, b);
    OverlapsIff(Subnet(h, network, a), Subnet(h, network, b));
    var top := Shl(0xfd, 40) + h.globalId(network);
    ShrShl(Shl(top, 16) + a, 64);
    ShrShl(Shl(top, 16) + b, 64);
  }
}
