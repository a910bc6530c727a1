/** A network's manifest and the bytes its signature covers (internal/domain/manifest.go). */
module Manifests {
  import opened Bytes
  import opened Sorting

  type Text = seq<byte>

  /** Identities are the numbers their 32 bytes spell, so their order is that of their hex text. */
  datatype Member = Member(key: nat, alias: Text, ipv4: Text)

  datatype Manifest = Manifest(network: nat, name: Text, version: nat, subnets: seq<nat>, members: seq<Member>)

  const MAX_NAME := 64
  const MAX_MEMBERS := 4096
  const MAX_SUBNETS := 256
  const KEY_SIZE := 32

  /** What the types hold: 32-byte identities, 16-bit subnets, a 64-bit version, and lengths that fit an int. */
  predicate Representable(m: Manifest) {
    Fits(m.network, KEY_SIZE) && Fits(m.version, 8)
    && (forall i :: 0 <= i < |m.subnets| ==> Fits(m.subnets[i], 2))
    && (forall i :: 0 <= i < |m.members| ==> RepresentableMember(m.members[i]))
    && Fits(|m.name|, 8) && Fits(|m.members|, 8) && Fits(2 * |m.subnets|, 8)
  }

  predicate RepresentableMember(m: Member) { Fits(m.key, KEY_SIZE) && Fits(|m.alias|, 8) && Fits(|m.ipv4|, 8) }

  predicate DistinctKeys(members: seq<Member>) {
    forall i, j :: 0 <= i < j < |members| ==> members[i].key != members[j].key
  }

  datatype Malformed = NoVersion | LongName | NoMembers | ManyMembers | ManySubnets | NoKey(i: nat) | Twice(i: nat)

  ghost predicate Valid(m: Manifest) {
    m.version > 0 && |m.name| <= MAX_NAME && 0 < |m.members| <= MAX_MEMBERS && |m.subnets| <= MAX_SUBNETS
    && (forall i :: 0 <= i < |m.members| ==> m.members[i].key != 0) && DistinctKeys(m.members)
  }

  /** The first complaint about the members, if any, is about member n. */
  ghost predicate FirstFault(members: seq<Member>, n: nat) {
    n < |members| && (members[n].key == 0 || exists j :: 0 <= j < n && members[j].key == members[n].key)
    && (forall i :: 0 <= i < n ==> members[i].key != 0) && DistinctKeys(members[..n])
  }

  method Validate(m: Manifest) returns (e: seq<Malformed>)
    ensures |e| <= 1 && (e == [] <==> Valid(m))
    ensures e != [] && e[0].NoKey? ==> FirstFault(m.members, e[0].i) && m.members[e[0].i].key == 0
    ensures e != [] && e[0].Twice? ==> FirstFault(m.members, e[0].i) && m.members[e[0].i].key != 0
  {
    if m.version == 0 {
      return [NoVersion];
    }
    if |m.name| > MAX_NAME {
      return [LongName];
    }
    if |m.members| == 0 {
      return [NoMembers];
    }
    if |m.members| > MAX_MEMBERS {
      return [ManyMembers];
    }
    if |m.subnets| > MAX_SUBNETS {
      return [ManySubnets];
    }
    var seen: set<nat> := {};
    for i := 0 to |m.members|
      invariant seen == set j | 0 <= j < i :: m.members[j].key
      invariant forall j :: 0 <= j < i ==> m.members[j].key != 0
      invariant DistinctKeys(m.members[..i])
    {
      if m.members[i].key == 0 {
        return [NoKey(i)];
      }
      if m.members[i].key in seen {
        return [Twice(i)];
      }
      seen := seen + {m.members[i].key};
    }
    assert m.members[..|m.members|] == m.members;
    return [];
  }

  predicate ByKey(a: Member, b: Member) { a.key < b.key }

  function Sorted(members: seq<Member>): seq<Member> { Sort(members, ByKey) }

  lemma SortedMembers(members: seq<Member>)
    requires DistinctKeys(members)
    ensures Ascending(Sorted(members), ByKey) && Elements(Sorted(members)) == Elements(members)
    ensures |Sorted(members)| == |members|
  {
    SortAscending(members, ByKey);
    SameElements(members, Sorted(members));
  }

  /** The order members are listed in does not show once they are sorted. */
  lemma SortedIff(a: seq<Member>, b: seq<Member>)
    requires DistinctKeys(a) && DistinctKeys(b)
    ensures Sorted(a) == Sorted(b) <==> Elements(a) == Elements(b)
  {
    SortedMembers(a);
    SortedMembers(b);
    if Elements(a) == Elements(b) {
      AscendingUnique(Sorted(a), Sorted(b), ByKey);
    }
  }

  // Subnet lists may repeat, so they are sorted with their repetitions

  function PutIn(x: nat, s: seq<nat>): (r: seq<nat>)
    ensures multiset(r) == multiset(s) + multiset{x} && |r| == |s| + 1
  {
    if s == [] then [x]
    else
      assert s == [s[0]] + s[1..];
      if x <= s[0] then [x] + s else [s[0]] + PutIn(x, s[1..])
  }

  function Ordered(s: seq<nat>): (r: seq<nat>)
    ensures multiset(r) == multiset(s) && |r| == |s|
  {
    if s == [] then []
    else
      assert s == [s[0]] + s[1..];
      PutIn(s[0], Ordered(s[1..]))
  }

  predicate Rising(s: seq<nat>) { forall i, j :: 0 <= i < j < |s| ==> s[i] <= s[j] }

  lemma {:induction false} PutInRising(x: nat, s: seq<nat>)
    requires Rising(s)
    ensures Rising(PutIn(x, s))
  {
    if s != [] && x > s[0] {
      PutInRising(x, s[1..]);
      PutInAbove(s[0], x, s[1..]);
    }
  }

  lemma {:induction false} PutInAbove(low: nat, x: nat, s: seq<nat>)
    requires low <= x && forall i :: 0 <= i < |s| ==> low <= s[i]
    ensures forall i :: 0 <= i < |PutIn(x, s)| ==> low <= PutIn(x, s)[i]
  {
    if s != [] && x > s[0] { PutInAbove(low, x, s[1..]); }
  }

  lemma {:induction false} OrderedRising(s: seq<nat>)
    ensures Rising(Ordered(s))
  {
    if s != [] {
      OrderedRising(s[1..]);
      PutInRising(s[0], Ordered(s[1..]));
    }
  }

  lemma {:induction false} RisingUnique(a: seq<nat>, b: seq<nat>)
    requires Rising(a) && Rising(b) && multiset(a) == multiset(b)
    ensures a == b
  {
    assert |a| == |multiset(a)| == |multiset(b)| == |b|;
    if a != [] {
      SameLeast(a, b);
      SameLeast(b, a);
      DropFirst(a);
      DropFirst(b);
      RisingUnique(a[1..], b[1..]);
      assert a == [a[0]] + a[1..] && b == [b[0]] + b[1..];
    }
  }

  lemma SameLeast(a: seq<nat>, b: seq<nat>)
    requires Rising(b) && a != [] && b != [] && multiset(a) == multiset(b)
    ensures b[0] <= a[0]
  {
    assert a[0] in multiset(b);
  }

  lemma DropFirst(s: seq<nat>)
    requires s != []
    ensures multiset(s[1..]) == multiset(s) - multiset{s[0]}
  {
    assert s == [s[0]] + s[1..];
  }

  lemma OrderedIff(a: seq<nat>, b: seq<nat>)
    ensures Ordered(a) == Ordered(b) <==> multiset(a) == multiset(b)
  {
    if multiset(a) == multiset(b) {
      OrderedRising(a);
      OrderedRising(b);
      RisingUnique(Ordered(a), Ordered(b));
    }
  }

  // The bytes signed

  function SubnetBytes(s: seq<nat>): seq<byte> {
    if s == [] then [] else SubnetBytes(s[..|s| - 1]) + BigEndian(s[|s| - 1], 2)
  }

  function MemberPart(m: Member): (r: seq<Text>)
    ensures |r| == 6
  {
    [Ascii("member_key"), BigEndian(m.key, KEY_SIZE), Ascii("member_alias"), m.alias, Ascii("member_ipv4"), m.ipv4]
  }

  function MemberFields(members: seq<Member>): seq<Text> {
    if members == [] then [] else MemberFields(members[..|members| - 1]) + MemberPart(members[|members| - 1])
  }

  /** Each label followed by its value, in the order they are written. */
  function Fields(m: Manifest): seq<Text> {
    [Ascii("domain"), Ascii("nostmesh/manifest/v1"), Ascii("network_id"), BigEndian(m.network, KEY_SIZE),
     Ascii("name"), m.name, Ascii("version"), BigEndian(m.version, 8), Ascii("subnets"), SubnetBytes(Ordered(m.subnets)),
     Ascii("member_count"), BigEndian(|m.members|, 8)]
    + MemberFields(Sorted(m.members))
  }

  /** What is hashed: every field behind its length in eight bytes. */
  function Preimage(m: Manifest): seq<byte> { Chunks(8, Fields(m)) }

  method Digest<T>(m: Manifest, hash: seq<byte> -> T) returns (digest: T)
    ensures digest == hash(Preimage(m))
  {
    var subnets := EncodeSubnets(Ordered(m.subnets));
    var members := Sorted(m.members);
    SameElements(m.members, members);
    var buf, head := WriteHead(m, subnets);
    ghost var fields;
    buf, fields := WriteMembers(buf, head, members);
    assert fields == Fields(m);
    return hash(buf);
  }

  method EncodeSubnets(order: seq<nat>) returns (subnets: seq<byte>)
    ensures subnets == SubnetBytes(order)
  {
    subnets := [];
    for i := 0 to |order|
      invariant subnets == SubnetBytes(order[..i])
    {
      assert order[..i + 1][..i] == order[..i];
      subnets := subnets + BigEndian(order[i], 2);
    }
    assert order[..|order|] == order;
  }

  method WriteHead(m: Manifest, subnets: seq<byte>) returns (buf: seq<byte>, ghost written: seq<Text>)
    ensures buf == Chunks(8, written)
    ensures written == [Ascii("domain"), Ascii("nostmesh/manifest/v1"), Ascii("network_id"), BigEndian(m.network, KEY_SIZE),
      Ascii("name"), m.name, Ascii("version"), BigEndian(m.version, 8), Ascii("subnets"), subnets,
      Ascii("member_count"), BigEndian(|m.members|, 8)]
  {
    hide BigEndian, Ascii, Chunks;
    written := [];
    buf := [];
    ChunksNone(8);
    buf, written := WriteField(buf, written, "domain", Ascii("nostmesh/manifest/v1"));
    buf, written := WriteField(buf, written, "network_id", BigEndian(m.network, KEY_SIZE));
    buf, written := WriteField(buf, written, "name", m.name);
    buf, written := WriteField(buf, written, "version", BigEndian(m.version, 8));
    buf, written := WriteField(buf, written, "subnets", subnets);
    buf, written := WriteField(buf, written, "member_count", BigEndian(|m.members|, 8));
  }

  method WriteMembers(buf: seq<byte>, ghost written: seq<Text>, members: seq<Member>)
    returns (more: seq<byte>, ghost fields: seq<Text>)
    requires buf == Chunks(8, written)
    ensures fields == written + MemberFields(members) && more == Chunks(8, fields)
  {
    hide BigEndian, Ascii, Chunks;
    more, fields := buf, written;
    for i := 0 to |members|
      invariant fields == written + MemberFields(members[..i]) && more == Chunks(8, fields)
    {
      assert members[..i + 1][..i] == members[..i];
      ghost var before := fields;
      more, fields := WriteField(more, fields, "member_key", BigEndian(members[i].key, KEY_SIZE));
      more, fields := WriteField(more, fields, "member_alias", members[i].alias);
      more, fields := WriteField(more, fields, "member_ipv4", members[i].ipv4);
      assert fields == before + MemberPart(members[i]);
    }
    assert members[..|members|] == members;
  }

  method WriteField(buf: seq<byte>, ghost written: seq<Text>, tag: string, value: Text)
    returns (more: seq<byte>, ghost fields: seq<Text>)
    requires buf == Chunks(8, written)
    ensures fields == written + [Ascii(tag), value] && more == Chunks(8, fields)
  {
    hide BigEndian, Ascii, Chunks;
    more := buf + BigEndian(|Ascii(tag)|, 8) + Ascii(tag) + BigEndian(|value|, 8) + value;
    fields := written + [Ascii(tag), value];
    ChunksSnoc(8, written, Ascii(tag));
    ChunksSnoc(8, written + [Ascii(tag)], value);
    assert written + [Ascii(tag)] + [value] == fields;
  }

  // Its meaning

  lemma {:induction false} SubnetBytesInjective(a: seq<nat>, b: seq<nat>)
    requires forall i :: 0 <= i < |a| ==> Fits(a[i], 2)
    requires forall i :: 0 <= i < |b| ==> Fits(b[i], 2)
    requires SubnetBytes(a) == SubnetBytes(b)
    ensures a == b
    decreases |a|
  {
    SubnetBytesLength(a);
    SubnetBytesLength(b);
    if a != [] {
      var n := |a| - 1;
      var x, y := SubnetBytes(a[..n]), SubnetBytes(b[..n]);
      SubnetBytesLength(a[..n]);
      SubnetBytesLength(b[..n]);
      assert SubnetBytes(a)[..|x|] == x && SubnetBytes(b)[..|x|] == y;
      assert SubnetBytes(a)[|x|..] == BigEndian(a[n], 2) && SubnetBytes(b)[|x|..] == BigEndian(b[n], 2);
      DecodesBack(a[n], 2);
      DecodesBack(b[n], 2);
      SubnetBytesInjective(a[..n], b[..n]);
      assert a == a[..n] + [a[n]] && b == b[..n] + [b[n]];
    }
  }

  lemma {:induction false} SubnetBytesLength(s: seq<nat>)
    ensures |SubnetBytes(s)| == 2 * |s|
  {
    if s != [] { SubnetBytesLength(s[..|s| - 1]); }
  }

  lemma {:induction false} MemberFieldsLength(members: seq<Member>)
    ensures |MemberFields(members)| == 6 * |members|
  {
    if members != [] { MemberFieldsLength(members[..|members| - 1]); }
  }

  lemma SixAtEnd<T>(a: seq<T>, x: seq<T>, b: seq<T>, y: seq<T>)
    requires |x| == |y| == 6 && a + x == b + y
    ensures a == b && x == y
  {
    assert (a + x)[..|a|] == a && (b + y)[..|a|] == b;
    assert (a + x)[|a|..] == x && (b + y)[|a|..] == y;
  }

  lemma MemberPartInjective(a: Member, b: Member)
    requires RepresentableMember(a) && RepresentableMember(b) && MemberPart(a) == MemberPart(b)
    ensures a == b
  {
    hide BigEndian, Fits, Ascii;
    assert MemberPart(a)[1] == MemberPart(b)[1] && MemberPart(a)[3] == MemberPart(b)[3] && MemberPart(a)[5] == MemberPart(b)[5];
    DecodesBack(a.key, KEY_SIZE);
    DecodesBack(b.key, KEY_SIZE);
  }

  lemma {:induction false} MemberFieldsInjective(a: seq<Member>, b: seq<Member>)
    requires forall i :: 0 <= i < |a| ==> RepresentableMember(a[i])
    requires forall i :: 0 <= i < |b| ==> RepresentableMember(b[i])
    requires MemberFields(a) == MemberFields(b)
    ensures a == b
    decreases |a|
  {
    hide MemberPart, RepresentableMember;
    MemberFieldsLength(a);
    MemberFieldsLength(b);
    if a != [] {
      var n := |a| - 1;
      SixAtEnd(MemberFields(a[..n]), MemberPart(a[n]), MemberFields(b[..n]), MemberPart(b[n]));
      MemberPartInjective(a[n], b[n]);
      MemberFieldsInjective(a[..n], b[..n]);
      assert a == a[..n] + [a[n]] && b == b[..n] + [b[n]];
    }
  }

  ghost predicate AllFit(fields: seq<Text>) { forall i :: 0 <= i < |fields| ==> Fits(|fields[i]|, 8) }

  lemma {:induction false} SmallFits(v: nat, n: nat)
    requires v < 256 && n > 0
    ensures Fits(v, n)
  {
    if n > 1 { SmallFits(v / 256, n - 1); }
  }

  lemma {:induction false} MemberFieldsFit(members: seq<Member>)
    requires forall i :: 0 <= i < |members| ==> RepresentableMember(members[i])
    ensures AllFit(MemberFields(members))
  {
    hide Fits;
    if members != [] {
      var m := members[|members| - 1];
      assert RepresentableMember(m);
      MemberFieldsFit(members[..|members| - 1]);
      SmallFits(10, 8);
      SmallFits(KEY_SIZE, 8);
      SmallFits(12, 8);
      SmallFits(11, 8);
    }
  }

  lemma FieldsFit(m: Manifest)
    requires Representable(m) && DistinctKeys(m.members)
    ensures AllFit(Fields(m))
  {
    hide Fits, SubnetBytes, Ordered, MemberFields, Sorted, BigEndian;
    SortedRepresentable(m.members);
    MemberFieldsFit(Sorted(m.members));
    SubnetBytesLength(Ordered(m.subnets));
    forall v: nat | v < 256 ensures Fits(v, 8) { SmallFits(v, 8); }
    assert |Ascii("nostmesh/manifest/v1")| == 20 && |Ascii("network_id")| == 10 && |Ascii("member_count")| == 12;
  }

  lemma SortedRepresentable(members: seq<Member>)
    requires DistinctKeys(members) && forall i :: 0 <= i < |members| ==> RepresentableMember(members[i])
    ensures forall i :: 0 <= i < |Sorted(members)| ==> RepresentableMember(Sorted(members)[i])
  {
    SortedMembers(members);
    forall i | 0 <= i < |Sorted(members)| ensures RepresentableMember(Sorted(members)[i]) {
      assert Sorted(members)[i] in Elements(members);
    }
  }

  /** What a manifest says, whatever order it says it in. */
  ghost predicate SameContent(a: Manifest, b: Manifest) {
    a.network == b.network && a.name == b.name && a.version == b.version
    && multiset(a.subnets) == multiset(b.subnets) && Elements(a.members) == Elements(b.members)
  }

  /** A signature covers exactly the content: the bytes hashed are the same if and only if the content is. */
  lemma PreimageIff(a: Manifest, b: Manifest)
    requires Representable(a) && Representable(b) && DistinctKeys(a.members) && DistinctKeys(b.members)
    ensures Preimage(a) == Preimage(b) <==> SameContent(a, b)
  {
    SortedIff(a.members, b.members);
    OrderedIff(a.subnets, b.subnets);
    SortedMembers(a.members);
    SortedMembers(b.members);
    if SameContent(a, b) {
      assert Fields(a) == Fields(b);
    }
    if Preimage(a) == Preimage(b) {
      FieldsFit(a);
      FieldsFit(b);
      ChunksInjective(8, Fields(a), Fields(b));
      FieldsInjective(a, b);
    }
  }

  lemma FieldsInjective(a: Manifest, b: Manifest)
    requires Representable(a) && Representable(b) && DistinctKeys(a.members) && DistinctKeys(b.members)
    requires Fields(a) == Fields(b)
    ensures a.network == b.network && a.name == b.name && a.version == b.version
    ensures Ordered(a.subnets) == Ordered(b.subnets) && Sorted(a.members) == Sorted(b.members)
  {
    hide BigEndian, Fits, SubnetBytes, MemberFields, Sorted, Ordered, DistinctKeys;
    var f, g := Fields(a), Fields(b);
    assert f[3] == BigEndian(a.network, KEY_SIZE) && g[3] == BigEndian(b.network, KEY_SIZE);
    DecodesBack(a.network, KEY_SIZE);
    DecodesBack(b.network, KEY_SIZE);
    assert f[5] == a.name && g[5] == b.name;
    assert f[7] == BigEndian(a.version, 8) && g[7] == BigEndian(b.version, 8);
    DecodesBack(a.version, 8);
    DecodesBack(b.version, 8);
    assert f[9] == SubnetBytes(Ordered(a.subnets)) && g[9] == SubnetBytes(Ordered(b.subnets));
    OrderedFits(a.subnets);
    OrderedFits(b.subnets);
    SubnetBytesInjective(Ordered(a.subnets), Ordered(b.subnets));
    assert f[12..] == MemberFields(Sorted(a.members)) && g[12..] == MemberFields(Sorted(b.members));
    SortedRepresentable(a.members);
    SortedRepresentable(b.members);
    MemberFieldsInjective(Sorted(a.members), Sorted(b.members));
  }

  lemma OrderedFits(s: seq<nat>)
    requires forall i :: 0 <= i < |s| ==> Fits(s[i], 2)
    ensures forall i :: 0 <= i < |Ordered(s)| ==> Fits(Ordered(s)[i], 2)
  {
    forall i | 0 <= i < |Ordered(s)| ensures Fits(Ordered(s)[i], 2) {
      assert Ordered(s)[i] in multiset(Ordered(s));
      assert Ordered(s)[i] in multiset(s);
    }
  }
}
