/**
 Every member's overlay address, worked out alone by every node
 (internal/domain/allocation.go).
 */
module Allocations {
  import opened Bits
  import opened Prefixes
  import opened Overlay
  import opened Manifests
  import opened Sorting
  import opened Wrappers

  /** netip.ParsePrefix on text that is not empty. */
  type Parser = Text -> Option<Prefix>

  datatype Assignment = Assignment(member: nat, address: Addr, counter: nat, ipv4: Option<Prefix>)

  datatype Error = InvalidManifest | BadIPv4 | Underivable | Conflict

  /** The subnet a network uses at an index; outside the list it is the first, and none listed means zero. */
  function SubnetId(m: Manifest, index: int): nat {
    if |m.subnets| == 0 then 0
    else if index < 0 || index >= |m.subnets| then m.subnets[0]
    else m.subnets[index]
  }

  function AssignedIPv4(parse: Parser, m: Member): Result<Option<Prefix>, Error> {
    if m.ipv4 == [] then Ok(None)
    else if parse(m.ipv4).None? || parse(m.ipv4).value.addr.family != V4 then Err(BadIPv4)
    else Ok(parse(m.ipv4))
  }

  /** Everything the derivation of an address depends on besides the member. */
  datatype Scheme = Scheme(hashes: Hashes, salt: nat, subnet: Prefix, parse: Parser) {
    function At(key: nat, counter: nat): Derivation { Derive(hashes, salt, subnet, key, counter) }
  }

  /** The first counter from here on whose address is free. */
  function Search(s: Scheme, taken: set<Addr>, key: nat, counter: nat): Result<(Addr, nat), Error>
    decreases MAX_COUNTER + 1 - counter
  {
    if counter > MAX_COUNTER then Err(Conflict)
    else if !s.At(key, counter).At? then Err(Underivable)
    else if s.At(key, counter).address in taken then Search(s, taken, key, counter + 1)
    else Ok((s.At(key, counter).address, counter))
  }

  function Placed(s: Scheme, taken: set<Addr>, m: Member): Result<Assignment, Error> {
    var ipv4 := AssignedIPv4(s.parse, m);
    if ipv4.Err? then Err(ipv4.error)
    else
      var found := Search(s, taken, m.key, 0);
      if found.Err? then Err(found.error) else Ok(Assignment(m.key, found.value.0, found.value.1, ipv4.value))
  }

  ghost function Taken(list: seq<Assignment>): set<Addr> { set a | a in list :: a.address }

  /** The members in turn, each around the ones before it. */
  ghost function Table(s: Scheme, members: seq<Member>): Result<seq<Assignment>, Error> {
    if members == [] then Ok([])
    else
      var before := Table(s, members[..|members| - 1]);
      if before.Err? then before
      else
        var placed := Placed(s, Taken(before.value), members[|members| - 1]);
        if placed.Err? then Err(placed.error) else Ok(before.value + [placed.value])
  }

  function SchemeOf(hashes: Hashes, salt: nat, parse: Parser, m: Manifest, index: int): Scheme {
    Scheme(hashes, salt, Subnet(hashes, m.network, SubnetId(m, index)), parse)
  }

  method AllocateOne(s: Scheme, m: Member, taken: set<Addr>) returns (r: Result<Assignment, Error>)
    ensures r == Placed(s, taken, m)
  {
    var ipv4 := AssignedIPv4(s.parse, m);
    if ipv4.Err? {
      return Err(ipv4.error);
    }
    var counter := 0;
    while counter <= MAX_COUNTER
      invariant counter <= MAX_COUNTER + 1 && Search(s, taken, m.key, 0) == Search(s, taken, m.key, counter)
    {
      var derived := Derive(s.hashes, s.salt, s.subnet, m.key, counter);
      if !derived.At? {
        return Err(Underivable);
      }
      if derived.address !in taken {
        return Ok(Assignment(m.key, derived.address, counter, ipv4.value));
      }
      counter := counter + 1;
    }
    return Err(Conflict);
  }

  method Allocate(hashes: Hashes, salt: nat, parse: Parser, m: Manifest, index: int)
    returns (r: Result<seq<Assignment>, Error>)
    ensures !Valid(m) <==> r == Err(InvalidManifest)
    ensures Valid(m) ==> r == Table(SchemeOf(hashes, salt, parse, m, index), Sorted(m.members))
  {
    var faults := Validate(m);
    if faults != [] {
      return Err(InvalidManifest);
    }
    var scheme := SchemeOf(hashes, salt, parse, m, index);
    var members := Sorted(m.members);
    var list: seq<Assignment> := [];
    var taken: set<Addr> := {};
    for i := 0 to |members|
      invariant Table(scheme, members[..i]) == Ok(list) && taken == Taken(list)
    {
      assert members[..i + 1][..i] == members[..i];
      var placed := AllocateOne(scheme, members[i], taken);
      if placed.Err? {
        TableFails(scheme, members, i + 1);
        PlacedErrors(scheme, taken, members[i]);
        return Err(placed.error);
      }
      TakenMore(list, placed.value);
      taken := taken + {placed.value.address};
      list := list + [placed.value];
    }
    assert members[..|members|] == members;
    return Ok(list);
  }

  lemma PlacedErrors(s: Scheme, taken: set<Addr>, m: Member)
    ensures Placed(s, taken, m) != Err(InvalidManifest)
  {
    SearchErrors(s, taken, m.key, 0);
  }

  lemma {:induction false} SearchErrors(s: Scheme, taken: set<Addr>, key: nat, counter: nat)
    ensures Search(s, taken, key, counter) != Err(InvalidManifest)
    decreases MAX_COUNTER + 1 - counter
  {
    if counter <= MAX_COUNTER { SearchErrors(s, taken, key, counter + 1); }
  }

  lemma {:induction false} TableFails(s: Scheme, members: seq<Member>, n: nat)
    requires n <= |members| && Table(s, members[..n]).Err?
    ensures Table(s, members) == Table(s, members[..n])
    decreases |members|
  {
    if n < |members| {
      var most := members[..|members| - 1];
      assert most[..n] == members[..n];
      TableFails(s, most, n);
    } else {
      assert members[..n] == members;
    }
  }

  lemma TakenMore(list: seq<Assignment>, a: Assignment)
    ensures Taken(list + [a]) == Taken(list) + {a.address}
  {
    assert forall b :: b in list + [a] <==> b in list || b == a;
  }

  // What a table is

  /** A member sits at the least counter whose address was free when its turn came. */
  lemma {:induction false} SearchLeast(s: Scheme, taken: set<Addr>, key: nat, counter: nat)
    requires Search(s, taken, key, counter).Ok?
    ensures var (a, c) := Search(s, taken, key, counter).value;
      counter <= c <= MAX_COUNTER && s.At(key, c) == Derivation.At(a) && a !in taken
    ensures forall d :: counter <= d < Search(s, taken, key, counter).value.1 ==>
      s.At(key, d).At? && s.At(key, d).address in taken
    decreases MAX_COUNTER + 1 - counter
  {
    if s.At(key, counter).address in taken { SearchLeast(s, taken, key, counter + 1); }
  }

  ghost predicate LeastFree(s: Scheme, taken: set<Addr>, a: Assignment) {
    a.counter <= MAX_COUNTER && s.At(a.member, a.counter) == Derivation.At(a.address) && a.address !in taken
    && forall d :: 0 <= d < a.counter ==> s.At(a.member, d).At? && s.At(a.member, d).address in taken
  }

  /** Every entry is its member's, at the least free counter, inside the subnet and not its anycast address. */
  lemma {:induction false} TableEntries(s: Scheme, members: seq<Member>, i: nat)
    requires s.hashes.Sized() && s.subnet.Valid() && Table(s, members).Ok? && i < |Table(s, members).value|
    ensures |Table(s, members).value| == |members|
    ensures var list := Table(s, members).value;
      list[i].member == members[i].key && LeastFree(s, Taken(list[..i]), list[i])
      && s.subnet.Contains(list[i].address) && list[i].address != s.subnet.addr && list[i].address.Valid()
    decreases |members|
  {
    var n := |members| - 1;
    TableLength(s, members);
    var before := Table(s, members[..n]).value;
    var list := Table(s, members).value;
    TableLength(s, members[..n]);
    assert list[..n] == before;
    if i < n {
      TableEntries(s, members[..n], i);
      assert list[..i] == before[..i];
    } else {
      SearchLeast(s, Taken(before), members[n].key, 0);
      var _ := DerivedPlace(s.hashes, s.salt, s.subnet, members[n].key, list[n].counter);
    }
  }

  lemma {:induction false} TableLength(s: Scheme, members: seq<Member>)
    requires Table(s, members).Ok?
    ensures |Table(s, members).value| == |members|
    decreases |members|
  {
    if members != [] { TableLength(s, members[..|members| - 1]); }
  }

  /** No two members share an address. */
  lemma TableDistinct(s: Scheme, members: seq<Member>, i: nat, j: nat)
    requires s.hashes.Sized() && s.subnet.Valid() && Table(s, members).Ok? && i < j < |Table(s, members).value|
    ensures Table(s, members).value[i].address != Table(s, members).value[j].address
  {
    TableEntries(s, members, j);
    var list := Table(s, members).value;
    assert list[..j][i] == list[i];
  }

  /** An entry depends on the members up to it and no others. */
  lemma {:induction false} TablePrefix(s: Scheme, members: seq<Member>, k: nat)
    requires k <= |members| && Table(s, members).Ok?
    ensures Table(s, members[..k]).Ok? && |Table(s, members).value| == |members|
    ensures Table(s, members[..k]).value == Table(s, members).value[..k]
    decreases |members|
  {
    TableLength(s, members);
    if k < |members| {
      var most := members[..|members| - 1];
      TablePrefix(s, most, k);
      assert most[..k] == members[..k];
      assert Table(s, members).value[..|members| - 1] == Table(s, most).value;
    } else {
      assert members[..k] == members;
    }
  }

  // What every node computes alike

  /** Listing the members in another order changes nothing, not even which error there is. */
  lemma OrderInsensitive(hashes: Hashes, salt: nat, parse: Parser, a: Manifest, b: Manifest, index: int)
    requires Valid(a) && Valid(b) && Elements(a.members) == Elements(b.members)
    requires a.network == b.network && SubnetId(a, index) == SubnetId(b, index)
    ensures Table(SchemeOf(hashes, salt, parse, a, index), Sorted(a.members)) ==
      Table(SchemeOf(hashes, salt, parse, b, index), Sorted(b.members))
  {
    SortedIff(a.members, b.members);
  }

  ghost function UpTo(members: seq<Member>, key: nat): set<Member> { set m | m in members && m.key <= key }

  /** Two networks that agree on the members up to a key give its member the same entry, whoever joins beyond it. */
  lemma LaterMembersDoNotMatter(s: Scheme, a: seq<Member>, b: seq<Member>, key: nat, i: nat)
    requires DistinctKeys(a) && DistinctKeys(b) && UpTo(a, key) == UpTo(b, key)
    requires Table(s, Sorted(a)).Ok? && Table(s, Sorted(b)).Ok?
    requires i < |Sorted(a)| && Sorted(a)[i].key == key
    ensures i < |Sorted(b)| && Sorted(b)[i] == Sorted(a)[i]
    ensures |Table(s, Sorted(a)).value| > i && |Table(s, Sorted(b)).value| > i
    ensures Table(s, Sorted(a)).value[i] == Table(s, Sorted(b)).value[i]
  {
    hide Table, Sorted, UpTo, ByKey;
    var x, y := Sorted(a), Sorted(b);
    SameStart(a, b, key, i);
    TablePrefix(s, x, i + 1);
    TablePrefix(s, y, i + 1);
    assert x[..i + 1][i] == x[i] && y[..i + 1][i] == y[i];
    assert Table(s, x).value[..i + 1][i] == Table(s, y).value[..i + 1][i];
  }

  lemma SameStart(a: seq<Member>, b: seq<Member>, key: nat, i: nat)
    requires DistinctKeys(a) && DistinctKeys(b) && UpTo(a, key) == UpTo(b, key)
    requires i < |Sorted(a)| && Sorted(a)[i].key == key
    ensures i < |Sorted(b)| && Sorted(a)[..i + 1] == Sorted(b)[..i + 1]
  {
    SortedMembers(a);
    SortedMembers(b);
    hide Sorted;
    var x, y := Sorted(a), Sorted(b);
    assert x[i] in Elements(a) && x[i] in UpTo(b, key);
    assert x[i] in Elements(y);
    var j :| 0 <= j < |y| && y[j] == x[i];
    Segment(x, a, i);
    Segment(y, b, j);
    AscendingUnique(x[..i + 1], y[..j + 1], ByKey);
    assert |x[..i + 1]| == |y[..j + 1]|;
  }

  lemma Segment(sorted: seq<Member>, members: seq<Member>, i: nat)
    requires Ascending(sorted, ByKey) && Elements(sorted) == Elements(members) && i < |sorted|
    ensures Elements(sorted[..i + 1]) == UpTo(members, sorted[i].key) && Ascending(sorted[..i + 1], ByKey)
  {
    var part := sorted[..i + 1];
    forall m ensures m in Elements(part) <==> m in UpTo(members, sorted[i].key) {
      if m in Elements(part) {
        var k :| 0 <= k < |part| && part[k] == m;
        assert m == sorted[k] && m in Elements(sorted);
        assert k == i || ByKey(sorted[k], sorted[i]);
      }
      if m in UpTo(members, sorted[i].key) {
        assert m in Elements(members) && m in Elements(sorted);
        var k :| 0 <= k < |sorted| && sorted[k] == m;
        assert k > i ==> ByKey(sorted[i], sorted[k]);
        assert part[k] == m;
      }
    }
  }

  /** What is signed does not fix the subnet an index names: the signature covers the list in sorted order. */
  lemma SignedAlikeOtherSubnet(m: Manifest, x: nat, y: nat)
    requires x != y
    ensures var a := m.(subnets := [x, y]); var b := m.(subnets := [y, x]);
      SameContent(a, b) && SubnetId(a, 0) != SubnetId(b, 0)
  {
    assert multiset([x, y]) == multiset{x, y} == multiset([y, x]);
  }
}
