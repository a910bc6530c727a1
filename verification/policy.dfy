/**
 Which announced prefixes a node will install, before any selection:
 internal/domain/routeadmission.go and internal/policy/decision.go. Admission keeps
 routes off this node's own addresses and off unroutable space; the policy decides
 which peer may announce which prefix.
 */
module Policy {
  import opened Bits
  import opened Prefixes

  /** A peer identity, as the number its 32 bytes spell. */
  type Key = nat

  // --------------------------------------------------------------- admission

  datatype LocalNetwork = LocalNetwork(transports: seq<Addr>, infrastructure: seq<Addr>, prefixes: seq<Prefix>)

  datatype Admission =
    | Admitted
    | NotValid
    | NotCanonical
    | DefaultRoute
    | Martian
    | CoversTransport
    | CoversInfrastructure
    | OverlapsLocal

  /** Unspecified, loopback, multicast and link-local space, as the blocks netip tests for. */
  const MARTIANS: seq<Prefix> := [
    Prefix(Addr(V4, 0), 32),
    Prefix(Addr(V4, 0x7f000000), 8),
    Prefix(Addr(V4, 0xe0000000), 4),
    Prefix(Addr(V4, 0xa9fe0000), 16),
    Prefix(Addr(V6, 0), 128),
    Prefix(Addr(V6, 1), 128),
    Prefix(Addr(V6, 0xff000000000000000000000000000000), 8),
    Prefix(Addr(V6, 0xfe800000000000000000000000000000), 10)
  ]

  predicate InSome(a: Addr, blocks: seq<Prefix>) {
    exists i :: 0 <= i < |blocks| && blocks[i].Valid() && blocks[i].Contains(a)
  }

  predicate CoversSome(prefix: Prefix, addresses: seq<Addr>)
    requires prefix.Valid()
  {
    exists i :: 0 <= i < |addresses| && prefix.Contains(addresses[i])
  }

  predicate OverlapsSome(prefix: Prefix, prefixes: seq<Prefix>)
    requires prefix.Valid()
  {
    exists i :: 0 <= i < |prefixes| && prefixes[i].Valid() && prefix.Overlaps(prefixes[i])
  }

  function AdmitRoute(prefix: Prefix, local: LocalNetwork): Admission {
    if !prefix.Valid() then NotValid
    else if prefix != prefix.Masked() then NotCanonical
    else if prefix.bits == 0 then DefaultRoute
    else if InSome(prefix.addr, MARTIANS) then Martian
    else if CoversSome(prefix, local.transports) then CoversTransport
    else if CoversSome(prefix, local.infrastructure) then CoversInfrastructure
    else if OverlapsSome(prefix, local.prefixes) then OverlapsLocal
    else Admitted
  }

  /** What an admitted prefix is, on address sets. */
  ghost predicate Harmless(prefix: Prefix, local: LocalNetwork) {
    && prefix.Valid() && prefix.bits != 0
    && (forall a :: a in local.transports || a in local.infrastructure ==> !prefix.Contains(a))
    && (forall mine :: mine in local.prefixes && mine.Valid() ==> !prefix.Meets(mine))
  }

  lemma AdmittedIff(prefix: Prefix, local: LocalNetwork)
    ensures AdmitRoute(prefix, local) == Admitted
       <==> Harmless(prefix, local) && prefix == prefix.Masked() && !InSome(prefix.addr, MARTIANS)
  {
    if prefix.Valid() {
      forall i | 0 <= i < |local.prefixes| && local.prefixes[i].Valid()
        ensures prefix.Overlaps(local.prefixes[i]) <==> prefix.Meets(local.prefixes[i])
      {
        OverlapsIff(prefix, local.prefixes[i]);
      }
    }
  }

  /**
   Only the base address is checked against unroutable space, so an admitted
   prefix can still contain such a block: it does exactly when it is shorter
   and swallows the block whole.
   */
  lemma AdmittedMeetsMartian(prefix: Prefix, local: LocalNetwork, i: nat)
    requires AdmitRoute(prefix, local) == Admitted && i < |MARTIANS| && MARTIANS[i].Valid()
    ensures prefix.Meets(MARTIANS[i]) <==> prefix.bits < MARTIANS[i].bits && prefix.Contains(MARTIANS[i].addr)
  {
    var block := MARTIANS[i];
    OverlapsIff(prefix, block);
    WithinIff(prefix, block);
    WithinIff(block, prefix);
    MaskedValid(block);
    assert prefix.Masked().addr == prefix.addr && !block.Contains(prefix.addr);
    if prefix.bits < block.bits && prefix.Contains(block.addr) {
      assert block.Contains(block.addr);
    }
    if block.Within(prefix) {
      assert block.addr.Valid() && block.Contains(block.addr);
    }
  }

  /** The case happens: 126.0.0.0/7 is admitted and holds all of 127.0.0.0/8. */
  lemma LoopbackCanBeAdmitted()
    ensures var p := Prefix(Addr(V4, 0x7e000000), 7);
      AdmitRoute(p, LocalNetwork([], [], [])) == Admitted && MARTIANS[1].Valid() && p.Meets(MARTIANS[1])
  {
    var p := Prefix(Addr(V4, 0x7e000000), 7);
    Concrete();
    AdmittedMeetsMartian(p, LocalNetwork([], [], []), 1);
  }

  lemma Concrete()
    ensures var p := Prefix(Addr(V4, 0x7e000000), 7);
      AdmitRoute(p, LocalNetwork([], [], [])) == Admitted && MARTIANS[1].Valid() && p.Contains(MARTIANS[1].addr)
  {
    var p := Prefix(Addr(V4, 0x7e000000), 7);
    MaskBound(0x7e000000, 32);
    MaskBound(0x7f000000, 32);
    LiteralPower();
    LiteralShifts();
    hide Shr, Shl, Mask;
    NotMartian();
    hide InSome;
  }

  lemma NotMartian()
    ensures !InSome(Addr(V4, 0x7e000000), MARTIANS)
  {
    LiteralShifts();
    hide Shr, Shl, Mask;
    forall i | 0 <= i < |MARTIANS| && MARTIANS[i].Valid() ensures !MARTIANS[i].Contains(Addr(V4, 0x7e000000)) {
      assert i < 4 || MARTIANS[i].addr.family == V6;
    }
  }

  lemma LiteralPower()
    ensures Shl(1, 32) == 0x1_0000_0000
  {
    assert Shl(1, 8) == 0x100 && Shl(1, 12) == 0x1000;
    assert Shl(1, 16) == 0x1_0000 && Shl(1, 20) == 0x10_0000;
    assert Shl(1, 24) == 0x100_0000 && Shl(1, 28) == 0x1000_0000;
  }

  lemma LiteralShifts()
    ensures Shr(0x7e000000, 0) == 0x7e000000 && Shr(0x7e000000, 16) == 0x7e00
    ensures Shr(0x7e000000, 24) == 0x7e && Shr(0x7e000000, 28) == 7 && Shr(0x7e000000, 25) == 0x3f
    ensures Shr(0x7f000000, 24) == 0x7f && Shr(0x7f000000, 25) == 0x3f
    ensures Shr(0xe0000000, 28) == 0xe && Shr(0xa9fe0000, 16) == 0xa9fe && Shr(0, 0) == 0
    ensures Shl(0x3f, 25) == 0x7e000000
  {
    assert Shr(0x7e000000, 8) == 0x7e0000;
    assert Shr(0x7f000000, 8) == 0x7f0000;
    assert Shr(0x7f000000, 16) == 0x7f00;
    assert Shr(0xe0000000, 8) == 0xe00000 && Shr(0xe0000000, 16) == 0xe000 && Shr(0xe0000000, 24) == 0xe0;
    assert Shr(0xa9fe0000, 8) == 0xa9fe00;
    assert Shl(0x3f, 8) == 0x3f00;
    assert Shl(0x3f, 16) == 0x3f0000;
    assert Shl(0x3f, 20) == 0x3f00000;
  }

  // ---------------------------------------------------------------- decision

  datatype Action = Session | Route | Transit

  datatype Grant = Grant(actions: seq<Action>, allowedIPs: seq<Prefix>, revoked: bool) {
    predicate Allows(action: Action) { !revoked && action in actions }
  }

  datatype Group = Group(name: string, members: seq<Key>, actions: seq<Action>, allowedIPs: seq<Prefix>)

  datatype Allowlist = Allowlist(grants: map<Key, Grant>, groups: seq<Group>, acceptDefaultRoute: bool)

  datatype Outcome = Deny | Allow | Confirm

  datatype Reason =
    | NoRuleMatches
    | Revoked
    | ActionNotPermitted
    | AllowedByRule
    | AllowedByGroup
    | DefaultRouteNotAccepted
    | DefaultRouteNeedsConfirmation
    | PrefixNotAllowed
    | NothingRouted

  datatype Rule = NoRule | PeerRule(peer: Key) | GroupRule(name: string)

  datatype Decision = Decision(outcome: Outcome, reason: Reason, allowedIPs: seq<Prefix>, rule: Rule)

  function DecideFromGrant(peer: Key, grant: Grant, action: Action): Decision {
    if grant.revoked then Decision(Deny, Revoked, [], PeerRule(peer))
    else if !grant.Allows(action) then Decision(Deny, ActionNotPermitted, [], PeerRule(peer))
    else if |grant.allowedIPs| == 0 && action == Session then Decision(Deny, NothingRouted, [], PeerRule(peer))
    else Decision(Allow, AllowedByRule, grant.allowedIPs, PeerRule(peer))
  }

  function DecideFromGroup(group: Group, action: Action): Decision {
    if action !in group.actions then Decision(Deny, ActionNotPermitted, [], GroupRule(group.name))
    else if |group.allowedIPs| == 0 && action == Session then Decision(Deny, NothingRouted, [], GroupRule(group.name))
    else Decision(Allow, AllowedByGroup, group.allowedIPs, GroupRule(group.name))
  }

  function DecideFromGroups(groups: seq<Group>, peer: Key, action: Action): Decision {
    if groups == [] then Decision(Deny, NoRuleMatches, [], NoRule)
    else if peer in groups[0].members then DecideFromGroup(groups[0], action)
    else DecideFromGroups(groups[1..], peer, action)
  }

  function Decide(list: Allowlist, peer: Key, action: Action): Decision {
    if peer in list.grants then DecideFromGrant(peer, list.grants[peer], action)
    else DecideFromGroups(list.groups, peer, action)
  }

  predicate ContainsPrefix(permitted: seq<Prefix>, announced: Prefix)
    requires announced.Valid()
  {
    exists i :: 0 <= i < |permitted| && permitted[i].Valid()
      && permitted[i].bits <= announced.bits && permitted[i].Contains(announced.Masked().addr)
  }

  function DecideRoute(list: Allowlist, peer: Key, prefix: Prefix): Decision
    requires prefix.Valid()
  {
    var decision := Decide(list, peer, Route);
    if decision.outcome != Allow then decision
    else if prefix.bits == 0 then
      if list.acceptDefaultRoute then Decision(Confirm, DefaultRouteNeedsConfirmation, [], decision.rule)
      else Decision(Deny, DefaultRouteNotAccepted, [], decision.rule)
    else if !ContainsPrefix(decision.allowedIPs, prefix) then Decision(Deny, PrefixNotAllowed, [], decision.rule)
    else Decision(Allow, decision.reason, [prefix], decision.rule)
  }

  /** The rule that answers for a peer about routes, if it permits them: its own grant, else the first group naming it. */
  ghost predicate RuleGrants(list: Allowlist, peer: Key, ips: seq<Prefix>) {
    if peer in list.grants then list.grants[peer].Allows(Route) && ips == list.grants[peer].allowedIPs
    else exists i :: 0 <= i < |list.groups| && FirstGroup(list.groups, peer, i)
           && Route in list.groups[i].actions && ips == list.groups[i].allowedIPs
  }

  ghost predicate FirstGroup(groups: seq<Group>, peer: Key, i: nat)
    requires i < |groups|
  {
    peer in groups[i].members && forall j :: 0 <= j < i ==> peer !in groups[j].members
  }

  /** Some entry of the deciding rule holds every address of the prefix. */
  ghost predicate Authorized(list: Allowlist, peer: Key, prefix: Prefix)
    requires prefix.Valid()
  {
    exists ips: seq<Prefix>, i: int :: RuleGrants(list, peer, ips) && 0 <= i < |ips| && ips[i].Valid() && prefix.Within(ips[i])
  }

  /** The first group naming the peer is the one that decides; k is its position, or past the end. */
  lemma {:induction false} FindGroup(groups: seq<Group>, peer: Key) returns (k: nat)
    ensures k <= |groups| && forall j :: 0 <= j < k ==> peer !in groups[j].members
    ensures if k == |groups| then DecideFromGroups(groups, peer, Route).outcome == Deny
            else peer in groups[k].members && DecideFromGroups(groups, peer, Route) == DecideFromGroup(groups[k], Route)
  {
    if groups == [] || peer in groups[0].members {
      k := 0;
    } else {
      k := FindGroup(groups[1..], peer);
      k := k + 1;
      forall j | 0 <= j < k ensures peer !in groups[j].members {
        if j > 0 { assert groups[j] == groups[1..][j - 1]; }
      }
    }
  }

  lemma RuleGrantsIff(list: Allowlist, peer: Key, ips: seq<Prefix>)
    ensures RuleGrants(list, peer, ips)
       <==> Decide(list, peer, Route).outcome == Allow && ips == Decide(list, peer, Route).allowedIPs
  {
    var k := FindGroup(list.groups, peer);
    forall i | 0 <= i < |list.groups| && FirstGroup(list.groups, peer, i) ensures i == k {}
    if k < |list.groups| { assert FirstGroup(list.groups, peer, k); }
  }

  /** A route is allowed exactly when it is no default route and one entry of the deciding rule covers it. */
  lemma RouteAllowedIff(list: Allowlist, peer: Key, prefix: Prefix)
    requires prefix.Valid()
    ensures DecideRoute(list, peer, prefix).outcome == Allow
       <==> prefix.bits != 0 && Authorized(list, peer, prefix)
  {
    var decision := Decide(list, peer, Route);
    RuleGrantsIff(list, peer, decision.allowedIPs);
    forall ips ensures RuleGrants(list, peer, ips) ==> ips == decision.allowedIPs {
      RuleGrantsIff(list, peer, ips);
    }
    forall i | 0 <= i < |decision.allowedIPs| && decision.allowedIPs[i].Valid()
      ensures prefix.Within(decision.allowedIPs[i])
         <==> decision.allowedIPs[i].bits <= prefix.bits && decision.allowedIPs[i].Contains(prefix.Masked().addr)
    {
      WithinIff(prefix, decision.allowedIPs[i]);
    }
  }
}
