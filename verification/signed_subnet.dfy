/**
 How far a manifest's signature fixes where its network lives: the subnet an index
 names, and with it every member's address (internal/domain/manifest.go and
 internal/domain/allocation.go).
 */
module SignedSubnets {
  import opened Bits
  import opened Bytes
  import opened Prefixes
  import opened Overlay
  import opened Manifests
  import opened Allocations
  import opened Sorting
  import opened Wrappers

  predicate AllAlike(subnets: seq<nat>) { forall i, j :: 0 <= i < j < |subnets| ==> subnets[i] == subnets[j] }

  /** The place in the list an index reads. */
  function PlaceRead(m: Manifest, index: int): (p: nat)
    requires m.subnets != []
    ensures p < |m.subnets| && SubnetId(m, index) == m.subnets[p]
  {
    if index < 0 || index >= |m.subnets| then 0 else index
  }

  lemma Exchanged(s: seq<nat>, p: nat, q: nat)
    requires p < |s| && q < |s|
    ensures multiset(s[p := s[q]][q := s[p]]) == multiset(s)
  {
  }

  /** A listing that differs from another entry somewhere can be rearranged to put that entry under the index. */
  lemma OtherOrder(m: Manifest, index: int) returns (o: Manifest)
    requires !AllAlike(m.subnets)
    ensures SameContent(m, o) && o == m.(subnets := o.subnets) && |o.subnets| == |m.subnets|
    ensures forall i :: 0 <= i < |o.subnets| ==> o.subnets[i] in m.subnets
    ensures SubnetId(o, index) != SubnetId(m, index)
  {
    var i, j :| 0 <= i < j < |m.subnets| && m.subnets[i] != m.subnets[j];
    var p := PlaceRead(m, index);
    var q := if m.subnets[i] != m.subnets[p] then i else j;
    Exchanged(m.subnets, p, q);
    o := m.(subnets := m.subnets[p := m.subnets[q]][q := m.subnets[p]]);
    var r := PlaceRead(o, index);
  }

  lemma SameList(a: seq<nat>, b: seq<nat>)
    requires multiset(a) == multiset(b) && AllAlike(a)
    ensures |a| == |b| && forall i :: 0 <= i < |b| ==> b[i] == a[0]
  {
    assert |a| == |multiset(a)| == |multiset(b)| == |b|;
    forall i | 0 <= i < |b| ensures b[i] == a[0] {
      assert b[i] in multiset(a);
    }
  }

  /** The content a signature covers fixes the subnet an index names exactly when the list holds one subnet only. */
  lemma SubnetFixedIff(m: Manifest, index: int)
    ensures (forall o :: SameContent(m, o) ==> SubnetId(o, index) == SubnetId(m, index)) <==> AllAlike(m.subnets)
  {
    if AllAlike(m.subnets) {
      forall o | SameContent(m, o) ensures SubnetId(o, index) == SubnetId(m, index) {
        SameList(m.subnets, o.subnets);
      }
    } else {
      var o := OtherOrder(m, index);
    }
  }

  /** A manifest that could be signed in the place of m: well formed, and the same bytes to the signature. */
  ghost predicate SignedAlike(m: Manifest, o: Manifest) {
    Valid(o) && Representable(o) && Preimage(o) == Preimage(m)
  }

  ghost predicate Signable(m: Manifest) { Valid(m) && Representable(m) }

  lemma TwoBytes(v: nat)
    requires Fits(v, 2)
    ensures InWidth(v, 16)
  {
    assert Fits(v / 256 / 256, 0) by { assert Fits(v / 256, 1); }
    assert Shl(1, 8) == 256;
    assert Shl(1, 12) == 4096;
    assert Shl(1, 16) == 65536;
    MaskBound(v, 16);
  }

  lemma SubnetInWidth(m: Manifest, index: int)
    requires Representable(m)
    ensures InWidth(SubnetId(m, index), 16)
  {
    TwoBytes(0);
    TwoBytes(SubnetId(m, index));
  }

  lemma OtherSigned(m: Manifest, index: int) returns (o: Manifest)
    requires Signable(m) && !AllAlike(m.subnets)
    ensures SignedAlike(m, o) && o.network == m.network && SubnetId(o, index) != SubnetId(m, index)
  {
    hide Preimage, SubnetId, SameContent, AllAlike;
    o := OtherOrder(m, index);
    assert SameContent(m, o);
    PreimageIff(m, o);
  }

  /** The signature fixes the overlay subnet exactly then, too; manifests signed alike can otherwise share no address. */
  lemma SignedSubnetIff(hashes: Hashes, m: Manifest, index: int)
    requires hashes.Sized() && Signable(m)
    ensures (forall o :: SignedAlike(m, o) ==>
        Subnet(hashes, o.network, SubnetId(o, index)) == Subnet(hashes, m.network, SubnetId(m, index))) <==>
      AllAlike(m.subnets)
  {
    hide Preimage, Subnet, AllAlike;
    SubnetFixedIff(m, index);
    if AllAlike(m.subnets) {
      forall o | SignedAlike(m, o)
        ensures Subnet(hashes, o.network, SubnetId(o, index)) == Subnet(hashes, m.network, SubnetId(m, index))
      {
        PreimageIff(m, o);
      }
    } else {
      var o := OtherSigned(m, index);
      SubnetInWidth(m, index);
      SubnetInWidth(o, index);
      SubnetsApart(hashes, m.network, SubnetId(m, index), SubnetId(o, index));
      MeetsItself(Subnet(hashes, m.network, SubnetId(m, index)));
    }
  }

  lemma MeetsItself(p: Prefix)
    requires p.Valid()
    ensures p.Meets(p)
  {
    assert p.addr.Valid() && p.Contains(p.addr);
  }

  ghost function TableOf(hashes: Hashes, salt: nat, parse: Parser, m: Manifest, index: int): Result<seq<Assignment>, Error> {
    Table(SchemeOf(hashes, salt, parse, m, index), Sorted(m.members))
  }

  /** Another subnet of the network gives every member an address that nobody has in this one. */
  lemma OtherSubnetOtherAddresses(hashes: Hashes, salt: nat, parse: Parser, a: Manifest, b: Manifest, index: int,
                                  i: nat, j: nat)
    requires hashes.Sized() && Representable(a) && Representable(b)
    requires a.network == b.network && SubnetId(a, index) != SubnetId(b, index)
    requires TableOf(hashes, salt, parse, a, index).Ok? && i < |TableOf(hashes, salt, parse, a, index).value|
    requires TableOf(hashes, salt, parse, b, index).Ok? && j < |TableOf(hashes, salt, parse, b, index).value|
    ensures TableOf(hashes, salt, parse, a, index).value[i].address !=
      TableOf(hashes, salt, parse, b, index).value[j].address
  {
    hide Subnet, SubnetId, Table, Sorted;
    SubnetInWidth(a, index);
    SubnetInWidth(b, index);
    SubnetsApart(hashes, a.network, SubnetId(a, index), SubnetId(b, index));
    TableEntries(SchemeOf(hashes, salt, parse, a, index), Sorted(a.members), i);
    TableEntries(SchemeOf(hashes, salt, parse, b, index), Sorted(b.members), j);
  }

  /** Where a network has a table at all, its signature fixes that table exactly when its list holds one subnet only. */
  lemma SignedTableIff(hashes: Hashes, salt: nat, parse: Parser, m: Manifest, index: int)
    requires hashes.Sized() && Signable(m) && TableOf(hashes, salt, parse, m, index).Ok?
    ensures (forall o :: SignedAlike(m, o) ==>
        TableOf(hashes, salt, parse, o, index) == TableOf(hashes, salt, parse, m, index)) <==>
      AllAlike(m.subnets)
  {
    hide Preimage, AllAlike, Subnet, Table;
    SubnetFixedIff(m, index);
    if AllAlike(m.subnets) {
      forall o | SignedAlike(m, o)
        ensures TableOf(hashes, salt, parse, o, index) == TableOf(hashes, salt, parse, m, index)
      {
        PreimageIff(m, o);
        OrderInsensitive(hashes, salt, parse, m, o, index);
      }
    } else {
      var o := OtherSigned(m, index);
      TableLength(SchemeOf(hashes, salt, parse, m, index), Sorted(m.members));
      SortedMembers(m.members);
      if TableOf(hashes, salt, parse, o, index).Ok? {
        TableLength(SchemeOf(hashes, salt, parse, o, index), Sorted(o.members));
        SortedMembers(o.members);
        OtherSubnetOtherAddresses(hashes, salt, parse, m, o, index, 0, 0);
      }
    }
  }
}
