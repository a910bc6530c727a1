/**
 IP prefixes as the sets of addresses they stand for. The operations are the
 ones netip.Prefix offers and internal/domain/routeadmission.go and
 internal/policy/decision.go call; the lemmas say what each means on address
 sets, for the nested-or-disjoint blocks of section 3.1 of RFC 4632.
 */
module Prefixes {
  import opened Bits

  datatype Family = V4 | V6 {
    function Width(): nat { if V4? then 32 else 128 }
  }

  datatype Addr = Addr(family: Family, value: nat) {
    predicate Valid() { InWidth(value, family.Width()) }
  }

  datatype Prefix = Prefix(addr: Addr, bits: int) {
    predicate Valid() { addr.Valid() && 0 <= bits <= addr.family.Width() }

    /** How many host bits the prefix leaves free. */
    function Host(): nat
      requires Valid()
    {
      addr.family.Width() - bits
    }

    function Masked(): Prefix
      requires Valid()
    {
      Prefix(Addr(addr.family, Shl(Shr(addr.value, Host()), Host())), bits)
    }

    /** netip.Prefix.Contains, and the address set of the prefix. */
    predicate Contains(a: Addr)
      requires Valid()
    {
      a.family == addr.family && Shr(a.value, Host()) == Shr(addr.value, Host())
    }

    /** netip.Prefix.Overlaps: equal down to the shorter length. */
    predicate Overlaps(other: Prefix)
      requires Valid() && other.Valid()
    {
      addr.family == other.addr.family &&
      var host := if bits < other.bits then Host() else other.Host();
      Shr(addr.value, host) == Shr(other.addr.value, host)
    }

    ghost predicate Within(other: Prefix)
      requires Valid() && other.Valid()
    {
      forall a: Addr :: a.Valid() && Contains(a) ==> other.Contains(a)
    }

    ghost predicate Meets(other: Prefix)
      requires Valid() && other.Valid()
    {
      exists a: Addr :: a.Valid() && Contains(a) && other.Contains(a)
    }
  }

  lemma {:induction false} ShrShr(a: nat, m: nat, k: nat)
    ensures Shr(Shr(a, m), k) == Shr(a, m + k)
  {
    if k != 0 { ShrShr(a, m, k - 1); }
  }

  lemma {:induction false} ShrShl(a: nat, k: nat)
    ensures Shr(Shl(a, k), k) == a
  {
    if k != 0 {
      ShrHalf(Shl(a, k), k);
      ShrShl(a, k - 1);
    }
  }

  /** Clearing the low bits of an address keeps it an address. */
  lemma {:induction false} ClearedInWidth(a: nat, k: nat, w: nat)
    requires k <= w && InWidth(a, w)
    ensures InWidth(Shl(Shr(a, k), k), w) && Shl(Shr(a, k), k) <= a
  {
    if k != 0 {
      ShrHalf(a, k);
      ClearedInWidth(a / 2, k - 1, w - 1);
    }
  }

  lemma MaskedValid(p: Prefix)
    requires p.Valid()
    ensures p.Masked().Valid() && p.Contains(p.Masked().addr)
    ensures forall a: Addr :: p.Masked().Contains(a) == p.Contains(a)
  {
    ClearedInWidth(p.addr.value, p.Host(), p.addr.family.Width());
    ShrShl(Shr(p.addr.value, p.Host()), p.Host());
  }

  /** Two addresses of one block that part at bit k. */
  lemma {:induction false} Neighbour(a: nat, k: nat, h: nat, w: nat) returns (b: nat)
    requires k < h <= w && InWidth(a, w)
    ensures InWidth(b, w) && Shr(b, h) == Shr(a, h) && Shr(b, k) != Shr(a, k)
  {
    if k == 0 {
      b := if a % 2 == 0 then a + 1 else a - 1;
      assert a / 2 == b / 2;
      ShrHalf(a, h);
      ShrHalf(b, h);
    } else {
      var c := Neighbour(a / 2, k - 1, h - 1, w - 1);
      b := 2 * c + a % 2;
      assert b / 2 == c;
      ShrHalf(a, h);
      ShrHalf(b, h);
      ShrHalf(a, k);
      ShrHalf(b, k);
    }
  }

  /** The test of containsPrefix is inclusion of address sets. */
  lemma WithinIff(p: Prefix, other: Prefix)
    requires p.Valid() && other.Valid()
    ensures p.Within(other) <==> other.bits <= p.bits && other.Contains(p.Masked().addr)
  {
    MaskedValid(p);
    var base := p.Masked().addr;
    assert p.Contains(base);
    if other.bits <= p.bits && other.Contains(base) {
      forall a: Addr | a.Valid() && p.Contains(a) ensures other.Contains(a) {
        ShrShr(a.value, p.Host(), other.Host() - p.Host());
        ShrShr(base.value, p.Host(), other.Host() - p.Host());
      }
    }
    if p.Within(other) && other.bits > p.bits {
      assert other.Contains(base);
      var b := Neighbour(base.value, other.Host(), p.Host(), p.addr.family.Width());
      var a := Addr(p.addr.family, b);
      assert a.Valid() && p.Contains(a);
    }
  }

  /** Overlapping is sharing an address: two blocks are nested or disjoint. */
  lemma OverlapsIff(p: Prefix, other: Prefix)
    requires p.Valid() && other.Valid()
    ensures p.Overlaps(other) <==> p.Meets(other)
    ensures p.Overlaps(other) <==> p.Within(other) || other.Within(p)
  {
    OverlapsOneWay(p, other);
    OverlapsOneWay(other, p);
    WithinIff(p, other);
    WithinIff(other, p);
    MaskedValid(p);
    MaskedValid(other);
    if a: Addr :| a.Valid() && p.Contains(a) && other.Contains(a) {
      if p.bits < other.bits {
        ShrShr(a.value, other.Host(), p.Host() - other.Host());
        ShrShr(other.addr.value, other.Host(), p.Host() - other.Host());
      } else {
        ShrShr(a.value, p.Host(), other.Host() - p.Host());
        ShrShr(p.addr.value, p.Host(), other.Host() - p.Host());
      }
    }
    if p.Within(other) { assert other.Contains(p.Masked().addr); }
    if other.Within(p) { assert p.Contains(other.Masked().addr); }
  }

  lemma OverlapsOneWay(p: Prefix, other: Prefix)
    requires p.Valid() && other.Valid()
    ensures other.bits <= p.bits && p.Overlaps(other) ==> p.Within(other)
  {
    if other.bits <= p.bits && p.Overlaps(other) {
      MaskedValid(p);
      ShrShr(p.Masked().addr.value, p.Host(), other.Host() - p.Host());
      ShrShr(p.addr.value, p.Host(), other.Host() - p.Host());
      WithinIff(p, other);
    }
  }
}
