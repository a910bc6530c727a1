/**
 The pipeline of internal/policy/routing.go, from announcement to difference,
 and what holds over every run of it.
 */
module Routing {
  import opened Prefixes
  import opened Sorting
  import opened Routes
  import Policy

  // ---------------------------------------------------------------- winners

  ghost predicate AllAnnounced(offers: Offers) {
    forall p, k :: p in offers && k in offers[p] ==> offers[p][k].source.Announced?
  }

  lemma {:induction false} BestExists(p: Prefix, providers: Providers, now: int)
    requires Filed(p, providers) && AnyLive(providers, now)
    ensures exists best :: IsBest(providers, now, best)
    decreases |providers|
  {
    var k :| k in providers && providers[k].Live(now);
    var rest := providers - {k};
    if AnyLive(rest, now) {
      BestExists(p, rest, now);
      var b :| IsBest(rest, now, b);
      assert b.provider != k;
      var best := if providers[k].source.Local? then providers[k]
                  else if b.source.Local? then b
                  else if Better(providers[k], b) then providers[k] else b;
      assert forall j :: j in providers && j != k ==> j in rest;
      assert IsBest(providers, now, best);
    } else {
      assert forall j :: j in providers && j != k ==> j in rest;
      assert IsBest(providers, now, providers[k]);
    }
  }

  ghost function BestOf(p: Prefix, providers: Providers, now: int): (best: Route)
    requires Filed(p, providers) && AnyLive(providers, now)
    ensures IsBest(providers, now, best)
  {
    BestExists(p, providers, now);
    var best :| IsBest(providers, now, best);
    best
  }

  ghost function WinnersOf(offers: Offers, now: int): (best: map<Prefix, Route>)
    requires WellFormed(offers)
    ensures Winners(offers, now, best) && Fits(offers, best)
  {
    map p | p in offers && AnyLive(offers[p], now) :: BestOf(p, offers[p], now)
  }

  ghost predicate LiveLocal(providers: Providers, now: int, k: Key) {
    k in providers && providers[k].Live(now) && providers[k].source.Local?
  }

  /** Which of two offers wins is settled unless two different live local ones compete. */
  lemma BestUnique(p: Prefix, providers: Providers, now: int)
    requires Filed(p, providers)
    ensures (forall a, b :: IsBest(providers, now, a) && IsBest(providers, now, b) ==> a == b)
       <==> (forall j, k :: LiveLocal(providers, now, j) && LiveLocal(providers, now, k) ==> j == k)
  {
    forall j, k | LiveLocal(providers, now, j) && LiveLocal(providers, now, k) && j != k
      ensures IsBest(providers, now, providers[j]) && IsBest(providers, now, providers[k])
      ensures providers[j] != providers[k]
    {
    }
    if forall j, k :: LiveLocal(providers, now, j) && LiveLocal(providers, now, k) ==> j == k {
      forall a, b | IsBest(providers, now, a) && IsBest(providers, now, b) ensures a == b {
        var j :| j in providers && providers[j] == a;
        var k :| k in providers && providers[k] == b;
        if a.source.Local? && b.source.Local? {
          assert LiveLocal(providers, now, j) && LiveLocal(providers, now, k);
        }
      }
    }
  }

  /** So with announced offers only, selection does not depend on the order a map is ranged over. */
  lemma WinnersUnique(offers: Offers, now: int, best: map<Prefix, Route>)
    requires WellFormed(offers) && AllAnnounced(offers) && Winners(offers, now, best)
    ensures best == WinnersOf(offers, now)
  {
    forall p | p in best ensures best[p] == WinnersOf(offers, now)[p] {
      BestUnique(p, offers[p], now);
    }
  }

  // ------------------------------------------------- the forwarding map and its difference

  /** The provider the kernel should be given for each destination. */
  ghost function Forwarding(selected: Selected): map<Prefix, Key> {
    map p | p in selected :: selected[p].route.provider
  }

  function RemoveAll(fib: map<Prefix, Key>, remove: seq<Prefix>): map<Prefix, Key> {
    if remove == [] then fib else RemoveAll(fib - {remove[0]}, remove[1..])
  }

  function InstallAll(fib: map<Prefix, Key>, install: seq<Route>): map<Prefix, Key>
    decreases |install|
  {
    if install == [] then fib
    else InstallAll(fib[install[0].prefix := install[0].provider], install[1..])
  }

  lemma {:induction false} RemovedAll(fib: map<Prefix, Key>, remove: seq<Prefix>)
    ensures RemoveAll(fib, remove) == fib - Elements(remove)
  {
    if remove != [] {
      RemovedAll(fib - {remove[0]}, remove[1..]);
      assert remove == [remove[0]] + remove[1..];
      assert Elements(remove) == {remove[0]} + Elements(remove[1..]);
    }
  }

  /** Installing distinct destinations: each listed one gets its provider, the rest keep theirs. */
  lemma {:induction false} InstalledAll(fib: map<Prefix, Key>, install: seq<Route>)
    requires forall i, j :: 0 <= i < j < |install| ==> install[i].prefix != install[j].prefix
    ensures InstallAll(fib, install).Keys == fib.Keys + set r | r in install :: r.prefix
    ensures forall r :: r in install ==> InstallAll(fib, install)[r.prefix] == r.provider
    ensures forall p :: p in fib && (forall r :: r in install ==> r.prefix != p) ==> InstallAll(fib, install)[p] == fib[p]
    decreases |install|
  {
    if install != [] {
      var first, rest := install[0], install[1..];
      var next := fib[first.prefix := first.provider];
      InstalledAll(next, rest);
      assert install == [first] + rest;
      forall r | r in rest ensures r.prefix != first.prefix {
        var j :| 0 <= j < |rest| && rest[j] == r;
        assert install[j + 1] == r;
      }
      assert InstallAll(next, rest)[first.prefix] == first.provider;
    }
  }

  /** One Reconcile: lapsed offers go, then every destination is resolved against its winner. */
  ghost predicate Reconciles(offers: Offers, was: Selected, now: int, hysteresis: int, before: (Prefix, Prefix) -> bool,
                             best: map<Prefix, Route>, after: Offers, selected: Selected,
                             install: seq<Route>, remove: seq<Prefix>)
  {
    && after == Without(offers, Lapsed(offers, now))
    && Winners(after, now, best) && Fits(after, best)
    && selected == NextSelected(after, was, best, now, hysteresis)
    && Ascending(install, RouteOrder(before)) && Ascending(remove, before)
    && Elements(install) == Installs(after, was, best, now, hysteresis)
    && Elements(remove) == Removes(was, best)
  }

  lemma AfterExpiry(offers: Offers, now: int)
    requires WellFormed(offers)
    ensures var after := Without(offers, Lapsed(offers, now));
      && (forall p :: p in after <==> p in offers && AnyLive(offers[p], now))
      && (forall p :: p in after ==> AnyLive(after[p], now))
      && (forall p, k :: p in after && k in after[p] ==> k in offers[p] && after[p][k] == offers[p][k] && after[p][k].Live(now))
      && (forall p, k :: p in offers && k in offers[p] && offers[p][k].Live(now) ==> p in after && k in after[p])
  {
    var gone := Lapsed(offers, now);
    var after := Without(offers, gone);
    forall p, k | p in offers && k in offers[p] ensures offers[p][k].Live(now) <==> (p, k) !in gone {}
    forall p, k | p in offers && k in offers[p] && offers[p][k].Live(now) ensures p in after && k in after[p] {
      assert k in Kept(p, offers[p], gone);
    }
    forall p | p in after ensures AnyLive(after[p], now) && AnyLive(offers[p], now) {
      var k :| k in after[p];
      assert k in offers[p] && offers[p][k].Live(now);
    }
  }

  ghost predicate SelectionsFiled(selected: Selected) { forall p :: p in selected ==> selected[p].route.prefix == p }

  /** Facts about the winners and the lists that the theorem below puts together. */
  lemma WhatReconcileLists(offers: Offers, was: Selected, now: int, hysteresis: int, before: (Prefix, Prefix) -> bool,
                           best: map<Prefix, Route>, after: Offers, selected: Selected,
                           install: seq<Route>, remove: seq<Prefix>)
    requires WellFormed(offers) && TotalOrder(before)
    requires Reconciles(offers, was, now, hysteresis, before, best, after, selected, install, remove)
    requires SelectionsFiled(was)
    ensures SelectionsFiled(selected)
    ensures forall p :: p in selected <==> p in offers && AnyLive(offers[p], now)
    ensures forall p :: p in selected ==> var k := selected[p].route.provider; k in offers[p] && offers[p][k].Live(now)
    ensures forall p :: p in remove <==> p in was && p !in selected
    ensures forall r :: r in install ==> r.prefix in selected && selected[r.prefix].route == r
    ensures forall r :: r in install ==> r.prefix !in was || was[r.prefix].route.provider != r.provider
    ensures forall p :: p in selected && selected[p].route !in install ==>
      p in was && was[p].route.provider == selected[p].route.provider
  {
    hide IsBest, Resolve, Transitive, Irreflexive;
    AfterExpiry(offers, now);
    BestFiled(after, now, best);
    assert forall p :: p in remove <==> p in Elements(remove);
    assert forall r :: r in install <==> r in Elements(install);
    hide AnyLive, NextSelected, Installs;
    SelectedFiled(after, was, best, now, hysteresis);
    InstallsAre(after, was, best, now, hysteresis, selected);
  }

  /**
   The difference is exact and minimal. Removing and then installing turns the
   old forwarding map into the new one; the new one covers exactly the
   destinations with an unexpired offer, each through a provider holding one;
   and nothing is listed that did not have to move.
   */
  lemma ReconcileIsTheDifference(offers: Offers, was: Selected, now: int, hysteresis: int, before: (Prefix, Prefix) -> bool,
                                 best: map<Prefix, Route>, after: Offers, selected: Selected,
                                 install: seq<Route>, remove: seq<Prefix>)
    requires WellFormed(offers) && TotalOrder(before)
    requires Reconciles(offers, was, now, hysteresis, before, best, after, selected, install, remove)
    requires SelectionsFiled(was)
    ensures InstallAll(RemoveAll(Forwarding(was), remove), install) == Forwarding(selected)
    ensures forall p :: p in selected <==> p in offers && AnyLive(offers[p], now)
    ensures forall p :: p in selected ==> var k := selected[p].route.provider; k in offers[p] && offers[p][k].Live(now)
    ensures forall r :: r in install ==> r.prefix !in remove
    ensures forall r :: r in install ==> r.prefix !in was || was[r.prefix].route.provider != r.provider
    ensures forall r :: r in install ==> r.prefix in selected && selected[r.prefix].route == r
    ensures forall p :: p in remove <==> p in was && p !in selected
    ensures forall i, j :: 0 <= i < j < |install| ==> install[i].prefix != install[j].prefix
    ensures forall i, j :: 0 <= i < j < |remove| ==> remove[i] != remove[j]
  {
    WhatReconcileLists(offers, was, now, hysteresis, before, best, after, selected, install, remove);
    InstallsDistinct(install, before);
    RemovalsDistinct(remove, before);
    hide AnyLive, NextSelected, Installs, Winners, TotalOrder, Ascending, WellFormed, Reconciles, Forwarding;
    DifferenceApplies(was, selected, install, remove);
  }

  lemma DifferenceApplies(was: Selected, selected: Selected, install: seq<Route>, remove: seq<Prefix>)
    requires SelectionsFiled(selected)
    requires forall i, j :: 0 <= i < j < |install| ==> install[i].prefix != install[j].prefix
    requires forall p :: p in remove <==> p in was && p !in selected
    requires forall r :: r in install ==> r.prefix in selected && selected[r.prefix].route == r
    requires forall p :: p in selected && selected[p].route !in install ==>
      p in was && was[p].route.provider == selected[p].route.provider
    ensures InstallAll(RemoveAll(Forwarding(was), remove), install) == Forwarding(selected)
  {
    RemovedAll(Forwarding(was), remove);
    var removed := RemoveAll(Forwarding(was), remove);
    InstalledAll(removed, install);
    assert removed.Keys == was.Keys * selected.Keys by {
      assert forall p :: p in remove <==> p in Elements(remove);
    }
    MoveByMove(was, selected, removed, InstallAll(removed, install), install);
  }

  /** Winner by winner: what moved is installed and differs, what did not keeps its provider. */
  lemma InstallsAre(after: Offers, was: Selected, best: map<Prefix, Route>, now: int, hysteresis: int, selected: Selected)
    requires Fits(after, best) && selected == NextSelected(after, was, best, now, hysteresis)
    requires forall p :: p in best ==> best[p].prefix == p && best[p].provider in after[p]
    ensures selected.Keys == best.Keys
    ensures forall r :: r in Installs(after, was, best, now, hysteresis) ==>
      r.prefix in selected && selected[r.prefix].route == r
      && (r.prefix !in was || was[r.prefix].route.provider != r.provider)
    ensures forall p :: p in selected && selected[p].route !in Installs(after, was, best, now, hysteresis) ==>
      p in was && was[p].route.provider == selected[p].route.provider
    ensures forall p :: p in selected ==> selected[p].route.provider in after[p]
  {
    forall r | r in Installs(after, was, best, now, hysteresis)
      ensures r.prefix in selected && selected[r.prefix].route == r
      ensures r.prefix !in was || was[r.prefix].route.provider != r.provider
    {
      var p :| p in best && Resolve(after[p], best[p], Current(was, p), now, hysteresis).1 && r == best[p];
    }
    forall p | p in best && Resolve(after[p], best[p], Current(was, p), now, hysteresis).1
      ensures best[p] in Installs(after, was, best, now, hysteresis)
    {
    }
  }

  lemma MoveByMove(was: Selected, selected: Selected, removed: map<Prefix, Key>, fib: map<Prefix, Key>, install: seq<Route>)
    requires removed.Keys == was.Keys * selected.Keys && forall p :: p in removed ==> removed[p] == was[p].route.provider
    requires fib.Keys == removed.Keys + set r | r in install :: r.prefix
    requires forall r :: r in install ==> fib[r.prefix] == r.provider
    requires forall p :: p in removed && (forall r :: r in install ==> r.prefix != p) ==> fib[p] == removed[p]
    requires forall r :: r in install ==> r.prefix in selected && selected[r.prefix].route == r
    requires forall p :: p in selected && selected[p].route !in install ==>
      p in was && was[p].route.provider == selected[p].route.provider
    requires SelectionsFiled(selected)
    ensures fib == Forwarding(selected)
  {
    forall p | p in selected ensures p in fib && fib[p] == selected[p].route.provider {
      if r :| r in install && r.prefix == p {
        assert fib[r.prefix] == r.provider;
      } else {
        assert selected[p].route !in install;
        assert p in removed;
      }
    }
    forall p | p in fib ensures p in selected {}
  }

  lemma BestFiled(offers: Offers, now: int, best: map<Prefix, Route>)
    requires WellFormed(offers) && Winners(offers, now, best)
    ensures forall p :: p in best ==> best[p].prefix == p && best[p].Live(now) && best[p].provider in offers[p]
    ensures forall p :: p in best ==> offers[p][best[p].provider] == best[p]
  {
  }

  lemma InstallsDistinct(install: seq<Route>, before: (Prefix, Prefix) -> bool)
    requires TotalOrder(before) && Ascending(install, RouteOrder(before))
    ensures forall i, j :: 0 <= i < j < |install| ==> install[i].prefix != install[j].prefix
  {
    forall i, j | 0 <= i < j < |install| ensures install[i].prefix != install[j].prefix {
      assert RouteOrder(before)(install[i], install[j]);
    }
  }

  lemma RemovalsDistinct(remove: seq<Prefix>, before: (Prefix, Prefix) -> bool)
    requires TotalOrder(before) && Ascending(remove, before)
    ensures forall i, j :: 0 <= i < j < |remove| ==> remove[i] != remove[j]
  {
    forall i, j | 0 <= i < j < |remove| ensures remove[i] != remove[j] { assert before(remove[i], remove[j]); }
  }

  /** What Expire reports is always among what Select then removes. */
  lemma ExpiredAreRemoved(offers: Offers, was: Selected, now: int, best: map<Prefix, Route>)
    requires Winners(Without(offers, Lapsed(offers, now)), now, best)
    ensures was.Keys - Without(offers, Lapsed(offers, now)).Keys <= Removes(was, best)
  {
  }

  /** The two lists are the same on every run: they depend on the offers, not on map order. */
  lemma ReconcileDeterministic(offers: Offers, was: Selected, now: int, hysteresis: int, before: (Prefix, Prefix) -> bool,
                               best: map<Prefix, Route>, best': map<Prefix, Route>, after: Offers, after': Offers,
                               selected: Selected, selected': Selected, install: seq<Route>, install': seq<Route>,
                               remove: seq<Prefix>, remove': seq<Prefix>)
    requires WellFormed(offers) && AllAnnounced(offers) && TotalOrder(before)
    requires Reconciles(offers, was, now, hysteresis, before, best, after, selected, install, remove)
    requires Reconciles(offers, was, now, hysteresis, before, best', after', selected', install', remove')
    ensures after == after' && selected == selected' && install == install' && remove == remove'
  {
    WinnersUnique(after, now, best);
    WinnersUnique(after, now, best');
    AscendingUnique(remove, remove', before);
    RouteOrderStrict(before);
    AscendingUnique(install, install', RouteOrder(before));
  }

  // ------------------------------------------------------------------ the router

  datatype Verdict = NotRoutable(why: Policy.Admission) | Refused(reason: Policy.Reason) | Recorded(accepted: bool)
  datatype RouteOutcome = RouteOutcome(prefix: Prefix, verdict: Verdict)

  predicate Permitted(list: Policy.Allowlist, local: Policy.LocalNetwork, provider: Key, prefix: Prefix) {
    Policy.AdmitRoute(prefix, local) == Policy.Admitted
    && Policy.DecideRoute(list, provider, prefix).outcome == Policy.Allow
  }

  function AsOffered(provider: Key, r: Route): Route { r.(provider := provider, source := Announced) }

  function AnnounceOne(list: Policy.Allowlist, local: Policy.LocalNetwork, offers: Offers, provider: Key, r: Route): Offers {
    if Permitted(list, local, provider, r.prefix) then WithOffer(offers, AsOffered(provider, r)) else offers
  }

  function AnnounceAll(list: Policy.Allowlist, local: Policy.LocalNetwork, offers: Offers, provider: Key, routes: seq<Route>): Offers {
    if routes == [] then offers
    else AnnounceOne(list, local, AnnounceAll(list, local, offers, provider, routes[..|routes| - 1]), provider, routes[|routes| - 1])
  }

  function VerdictOn(list: Policy.Allowlist, local: Policy.LocalNetwork, offers: Offers, provider: Key, r: Route): Verdict {
    var admission := Policy.AdmitRoute(r.prefix, local);
    if admission != Policy.Admitted then NotRoutable(admission)
    else
      var decision := Policy.DecideRoute(list, provider, r.prefix);
      if decision.outcome != Policy.Allow then Refused(decision.reason)
      else Recorded(Accepts(offers, AsOffered(provider, r)))
  }

  function Outcomes(list: Policy.Allowlist, local: Policy.LocalNetwork, offers: Offers, provider: Key, routes: seq<Route>)
    : seq<RouteOutcome>
  {
    if routes == [] then []
    else
      var front, last := routes[..|routes| - 1], routes[|routes| - 1];
      Outcomes(list, local, offers, provider, front)
      + [RouteOutcome(last.prefix, VerdictOn(list, local, AnnounceAll(list, local, offers, provider, front), provider, last))]
  }

  lemma AdmittedValid(prefix: Prefix, local: Policy.LocalNetwork)
    ensures Policy.AdmitRoute(prefix, local) == Policy.Admitted ==> prefix.Valid() && prefix.bits != 0
  {
  }

  ghost function Pairs(provider: Key, prefixes: seq<Prefix>): set<(Prefix, Key)> {
    set p | p in prefixes :: (p, provider)
  }

  class Router {
    const allowlist: Policy.Allowlist
    const table: RouteTable
    var local: Policy.LocalNetwork

    ghost predicate Valid()
      reads this, table
    {
      table.Valid()
    }

    constructor (allowlist: Policy.Allowlist, table: RouteTable, local: Policy.LocalNetwork)
      requires table.Valid()
      ensures Valid() && this.allowlist == allowlist && this.table == table && this.local == local
    {
      this.allowlist, this.table, this.local := allowlist, table, local;
    }

    /** Admission, then policy, then the table. */
    method AnnounceRoute(provider: Key, route: Route) returns (verdict: Verdict)
      requires Valid()
      modifies table`offers
      ensures Valid() && table.offers == AnnounceOne(allowlist, local, old(table.offers), provider, route)
      ensures verdict == VerdictOn(allowlist, local, old(table.offers), provider, route)
    {
      hide Policy.AdmitRoute, Policy.DecideRoute, WithOffer, Accepts;
      var admission := Policy.AdmitRoute(route.prefix, local);
      if admission != Policy.Admitted {
        return NotRoutable(admission);
      }
      AdmittedValid(route.prefix, local);
      var decision := Policy.DecideRoute(allowlist, provider, route.prefix);
      if decision.outcome != Policy.Allow {
        return Refused(decision.reason);
      }
      var accepted := table.Offer(AsOffered(provider, route));
      return Recorded(accepted);
    }

    /** One outcome for each prefix, in order, each against the offers as they stood when it was reached. */
    method Announce(provider: Key, routes: seq<Route>) returns (outcomes: seq<RouteOutcome>)
      requires Valid()
      modifies table`offers
      ensures Valid() && table.offers == AnnounceAll(allowlist, local, old(table.offers), provider, routes)
      ensures outcomes == Outcomes(allowlist, local, old(table.offers), provider, routes)
    {
      hide AnnounceOne, VerdictOn;
      outcomes := [];
      for i := 0 to |routes|
        invariant Valid()
        invariant table.offers == AnnounceAll(allowlist, local, old(table.offers), provider, routes[..i])
        invariant outcomes == Outcomes(allowlist, local, old(table.offers), provider, routes[..i])
      {
        assert routes[..i + 1][..i] == routes[..i];
        var verdict := AnnounceRoute(provider, routes[i]);
        outcomes := outcomes + [RouteOutcome(routes[i].prefix, verdict)];
      }
      assert routes[..|routes|] == routes;
    }

    method Withdraw(provider: Key, prefixes: seq<Prefix>)
      requires Valid()
      modifies table`offers
      ensures Valid() && table.offers == Without(old(table.offers), Pairs(provider, prefixes))
    {
      ghost var was := table.offers;
      WithoutNothing(table.offers);
      assert Pairs(provider, prefixes[..0]) == {};
      for i := 0 to |prefixes|
        invariant Valid() && table.offers == Without(was, Pairs(provider, prefixes[..i]))
      {
        table.Withdraw(prefixes[i], provider);
        WithoutMore(was, Pairs(provider, prefixes[..i]), {(prefixes[i], provider)});
        assert Pairs(provider, prefixes[..i + 1]) == Pairs(provider, prefixes[..i]) + {(prefixes[i], provider)};
      }
      assert prefixes[..|prefixes|] == prefixes;
    }

    method Disconnect(provider: Key)
      requires Valid()
      modifies table`offers
      ensures Valid() && table.offers == Without(old(table.offers), OfferedBy(old(table.offers), provider))
    {
      table.WithdrawProvider(provider);
    }

    /** Expiry, then selection; the expired destinations are already among the removals. */
    method Reconcile(now: int) returns (install: seq<Route>, remove: seq<Prefix>, ghost best: map<Prefix, Route>)
      requires Valid()
      modifies table`offers, table`selected
      ensures Valid()
      ensures Reconciles(old(table.offers), old(table.selected), now, table.hysteresis, table.before,
                         best, table.offers, table.selected, install, remove)
    {
      hide Transitive, Irreflexive;
      var expired := table.Expire(now);
      install, remove, best := table.Select(now);
      ghost var selectedRemoves := remove;
      ExpiredAreRemoved(old(table.offers), old(table.selected), now, best);
      for i := 0 to |expired|
        invariant remove == selectedRemoves
      {
        assert expired[i] in Elements(expired);
        assert expired[i] in Elements(remove);
        var prefix := expired[i];
        if prefix !in remove {
          remove := remove + [prefix];
        }
      }
    }
  }
}
