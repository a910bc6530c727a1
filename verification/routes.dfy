/**
 The routing information base of internal/domain/routes.go: what was offered,
 and what was chosen.

 RouteTable is the Go type, changed in place. The functions before it say what
 each operation makes of the two maps; the order in which Go ranges over a map
 is left open in the methods, so what they ensure holds for every order.
 */
module Routes {
  import opened Prefixes
  import opened Sorting
  import Policy
  import opened Wrappers

  type Key = Policy.Key

  datatype Source = Announced | Local

  /** expiresAt is None for Go's zero time: the offer does not lapse. */
  datatype Route = Route(prefix: Prefix, provider: Key, metric: nat, source: Source, expiresAt: Option<int>, version: nat)
  {
    predicate Live(now: int) { expiresAt.None? || now < expiresAt.value }
  }

  type Providers = map<Key, Route>
  type Offers = map<Prefix, Providers>

  datatype Selection = Selection(route: Route, selectedAt: int)
  type Selected = map<Prefix, Selection>

  /** Offers are filed under their own prefix and provider, and no entry is empty. */
  ghost predicate WellFormed(offers: Offers) { forall p :: p in offers ==> Filed(p, offers[p]) }

  ghost predicate Filed(p: Prefix, providers: Providers) {
    providers != map[] && forall k :: k in providers ==> providers[k].prefix == p && providers[k].provider == k
  }

  // ------------------------------------------------------------------ offers

  function Held(offers: Offers, p: Prefix): Providers { if p in offers then offers[p] else map[] }

  predicate Accepts(offers: Offers, r: Route) {
    r.provider in Held(offers, r.prefix) ==> r.version > offers[r.prefix][r.provider].version
  }

  function WithOffer(offers: Offers, r: Route): Offers {
    if Accepts(offers, r) then offers[r.prefix := Held(offers, r.prefix)[r.provider := r]] else offers
  }

  ghost function Kept(p: Prefix, providers: Providers, gone: set<(Prefix, Key)>): Providers {
    map k | k in providers && (p, k) !in gone :: providers[k]
  }

  /** The offers left when some (prefix, provider) pairs are dropped. */
  ghost function Without(offers: Offers, gone: set<(Prefix, Key)>): (left: Offers)
    ensures WellFormed(offers) ==> WellFormed(left)
  {
    map p | p in offers && Kept(p, offers[p], gone) != map[] :: Kept(p, offers[p], gone)
  }

  ghost function Lapsed(offers: Offers, now: int): set<(Prefix, Key)> {
    set p, k | p in offers && k in offers[p] && !offers[p][k].Live(now) :: (p, k)
  }

  ghost function OfferedBy(offers: Offers, provider: Key): set<(Prefix, Key)> {
    set p | p in offers :: (p, provider)
  }

  // --------------------------------------------------------------- selection

  predicate Better(candidate: Route, incumbent: Route) {
    if candidate.metric != incumbent.metric then candidate.metric < incumbent.metric
    else candidate.provider < incumbent.provider
  }

  /** A live local offer wins outright; else the least (metric, provider) among the live ones. */
  ghost predicate IsBest(providers: Providers, now: int, best: Route) {
    && (exists k :: k in providers && providers[k] == best)
    && best.Live(now)
    && (best.source.Local? ||
        forall k :: k in providers && providers[k].Live(now) ==>
          providers[k].source.Announced? && (providers[k] == best || Better(best, providers[k])))
  }

  ghost predicate AnyLive(providers: Providers, now: int) {
    exists k :: k in providers && providers[k].Live(now)
  }

  /** A winner for every destination with a live offer. */
  ghost predicate Winners(offers: Offers, now: int, best: map<Prefix, Route>) {
    && (forall p :: p in best <==> p in offers && AnyLive(offers[p], now))
    && (forall p :: p in best ==> IsBest(offers[p], now, best[p]))
  }

  /** What one destination's selection becomes, and whether its winner is to be installed. */
  function Resolve(providers: Providers, best: Route, current: Option<Selection>, now: int, hysteresis: int)
    : (Selection, bool)
  {
    match current
    case None => (Selection(best, now), true)
    case Some(chosen) =>
      if chosen.route.provider == best.provider then (Selection(best, chosen.selectedAt), false)
      else if chosen.route.provider !in providers then (Selection(best, now), true)
      else if now - chosen.selectedAt < hysteresis then (chosen, false)
      else (Selection(best, now), true)
  }

  function Current(selected: Selected, p: Prefix): Option<Selection> {
    if p in selected then Some(selected[p]) else None
  }

  ghost predicate Fits(offers: Offers, best: map<Prefix, Route>) { best.Keys <= offers.Keys }

  ghost function NextSelected(offers: Offers, selected: Selected, best: map<Prefix, Route>, now: int, hysteresis: int): Selected
    requires Fits(offers, best)
  {
    map p | p in best :: Resolve(offers[p], best[p], Current(selected, p), now, hysteresis).0
  }

  ghost function Installs(offers: Offers, selected: Selected, best: map<Prefix, Route>, now: int, hysteresis: int): set<Route>
    requires Fits(offers, best)
  {
    set p | p in best && Resolve(offers[p], best[p], Current(selected, p), now, hysteresis).1 :: best[p]
  }

  ghost function Removes(selected: Selected, best: map<Prefix, Route>): set<Prefix> {
    selected.Keys - best.Keys
  }

  function RouteOrder(before: (Prefix, Prefix) -> bool): (Route, Route) -> bool {
    (a: Route, b: Route) => before(a.prefix, b.prefix)
  }

  /** comparePrefixes: the order of the printed forms, which differ for different prefixes. */
  ghost predicate TotalOrder(before: (Prefix, Prefix) -> bool) {
    && Transitive(before) && Irreflexive(before)
    && forall a, b :: a != b ==> before(a, b) || before(b, a)
  }

  class RouteTable {
    var offers: Offers
    var selected: Selected
    const hysteresis: int
    const before: (Prefix, Prefix) -> bool

    ghost predicate Valid()
      reads this
    {
      && WellFormed(offers) && TotalOrder(before)
      && forall p :: p in selected ==> selected[p].route.prefix == p
    }

    constructor (hysteresis: int, before: (Prefix, Prefix) -> bool)
      requires TotalOrder(before)
      ensures Valid() && this.hysteresis == hysteresis && this.before == before
      ensures offers == map[] && selected == map[]
    {
      this.hysteresis, this.before := hysteresis, before;
      offers, selected := map[], map[];
    }

    method Offer(route: Route) returns (accepted: bool)
      requires Valid()
      modifies this`offers
      ensures Valid() && offers == WithOffer(old(offers), route) && accepted == Accepts(old(offers), route)
    {
      if route.prefix in offers && route.provider in offers[route.prefix] {
        if route.version <= offers[route.prefix][route.provider].version {
          return false;
        }
      }
      var entry := Held(offers, route.prefix)[route.provider := route];
      assert route.provider in entry;
      offers := offers[route.prefix := entry];
      return true;
    }

    method Withdraw(prefix: Prefix, provider: Key)
      requires Valid()
      modifies this`offers
      ensures Valid() && offers == Without(old(offers), {(prefix, provider)})
    {
      ghost var was := offers;
      if prefix in offers {
        var left := offers[prefix] - {provider};
        offers := if left == map[] then offers - {prefix} else offers[prefix := left];
      }
      WithdrawOne(was, offers, prefix, provider);
    }

    method WithdrawProvider(provider: Key)
      requires Valid()
      modifies this`offers
      ensures Valid() && offers == Without(old(offers), OfferedBy(old(offers), provider))
    {
      var prefixes := offers.Keys;
      ghost var was, gone: set<(Prefix, Key)> := offers, {};
      WithoutNothing(offers);
      while prefixes != {}
        invariant Valid() && offers == Without(was, gone)
        invariant gone + Each(prefixes, provider) == OfferedBy(was, provider)
        decreases |prefixes|
      {
        var prefix :| prefix in prefixes;
        Withdraw(prefix, provider);
        WithoutMore(was, gone, {(prefix, provider)});
        gone, prefixes := gone + {(prefix, provider)}, prefixes - {prefix};
      }
      assert gone == OfferedBy(was, provider);
    }

    /** Drops lapsed offers and reports the selected destinations left without any. */
    method Expire(now: int) returns (dropped: seq<Prefix>)
      requires Valid()
      modifies this`offers
      ensures Valid() && offers == Without(old(offers), Lapsed(old(offers), now))
      ensures Ascending(dropped, before) && Elements(dropped) == selected.Keys - offers.Keys
    {
      ghost var was := offers;
      var gone := CollectLapsed(now);
      ghost var withdrawn: set<(Prefix, Key)> := {};
      WithoutNothing(offers);
      while gone != {}
        invariant Valid() && offers == Without(was, withdrawn) && withdrawn + gone == Lapsed(was, now)
        decreases |gone|
      {
        var entry :| entry in gone;
        Withdraw(entry.0, entry.1);
        WithoutMore(was, withdrawn, {entry});
        withdrawn, gone := withdrawn + {entry}, gone - {entry};
      }
      assert withdrawn == Lapsed(was, now);
      dropped := Listed(selected.Keys - offers.Keys);
    }

    method CollectLapsed(now: int) returns (gone: set<(Prefix, Key)>)
      ensures gone == Lapsed(offers, now)
    {
      gone := {};
      var prefixes := offers.Keys;
      while prefixes != {}
        invariant prefixes <= offers.Keys
        invariant forall p, k :: (p, k) in gone <==>
          p in offers && p !in prefixes && k in offers[p] && !offers[p][k].Live(now)
        decreases |prefixes|
      {
        var prefix :| prefix in prefixes;
        var providers := offers[prefix].Keys;
        ghost var before := gone;
        while providers != {}
          invariant providers <= offers[prefix].Keys
          invariant forall p, k :: (p, k) in gone <==>
            (p, k) in before || (p == prefix && k in offers[prefix] && k !in providers && !offers[prefix][k].Live(now))
          decreases |providers|
        {
          var provider :| provider in providers;
          if !offers[prefix][provider].Live(now) {
            gone := gone + {(prefix, provider)};
          }
          providers := providers - {provider};
        }
        prefixes := prefixes - {prefix};
      }
      assert forall x: (Prefix, Key) :: x in gone ==> x in Lapsed(offers, now) by {
        forall x: (Prefix, Key) | x in gone ensures x in Lapsed(offers, now) { assert (x.0, x.1) in gone; }
      }
    }

    /** A set of destinations in the order of comparePrefixes. */
    method Listed(prefixes: set<Prefix>) returns (list: seq<Prefix>)
      requires Valid()
      ensures Ascending(list, before) && Elements(list) == prefixes
    {
      list := [];
      var rest := prefixes;
      while rest != {}
        invariant Elements(list) + rest == prefixes && Elements(list) !! rest
        invariant forall i, j :: 0 <= i < j < |list| ==> list[i] != list[j]
        decreases |rest|
      {
        var prefix :| prefix in rest;
        assert prefix !in Elements(list);
        list, rest := list + [prefix], rest - {prefix};
      }
      SortAscending(list, before);
      list := Sort(list, before);
    }

    method BestFor(providers: Providers, now: int) returns (best: Option<Route>)
      requires exists p :: Filed(p, providers)
      ensures best.Some? <==> AnyLive(providers, now)
      ensures best.Some? ==> IsBest(providers, now, best.value)
    {
      best := None;
      var rest := providers.Keys;
      while rest != {}
        invariant rest <= providers.Keys
        invariant best.Some? ==> best.value.Live(now)
        invariant best.Some? ==> best.value.provider in providers && best.value.provider !in rest
        invariant best.Some? ==> providers[best.value.provider] == best.value
        invariant forall k :: k in providers && k !in rest && providers[k].Live(now) ==>
          best.Some? && providers[k].source.Announced? && (providers[k] == best.value || Better(best.value, providers[k]))
        decreases |rest|
      {
        var provider :| provider in rest;
        var route := providers[provider];
        rest := rest - {provider};
        if route.Live(now) {
          if route.source.Local? {
            return Some(route);
          }
          if best.None? || Better(route, best.value) {
            best := Some(route);
          }
        }
      }
    }

    /** One destination of Select: its winner, and whether the winner is to be installed. */
    method SelectOne(prefix: Prefix, now: int) returns (winner: Option<Route>, installs: bool)
      requires Valid() && prefix in offers
      modifies this`selected
      ensures winner.Some? <==> AnyLive(offers[prefix], now)
      ensures winner.Some? ==> IsBest(offers[prefix], now, winner.value) && winner.value.prefix == prefix
      ensures winner.None? ==> selected == old(selected) - {prefix} && !installs
      ensures winner.Some? ==>
        var (next, moved) := Resolve(offers[prefix], winner.value, Current(old(selected), prefix), now, hysteresis);
        selected == old(selected)[prefix := next] && installs == moved
      ensures Valid()
    {
      assert Filed(prefix, offers[prefix]);
      winner := BestFor(offers[prefix], now);
      if winner.None? {
        selected, installs := selected - {prefix}, false;
      } else {
        var best, current := winner.value, Current(selected, prefix);
        if current.None? {
          selected, installs := selected[prefix := Selection(best, now)], true;
        } else if current.value.route.provider == best.provider {
          selected, installs := selected[prefix := Selection(best, current.value.selectedAt)], false;
        } else if current.value.route.provider !in offers[prefix] {
          selected, installs := selected[prefix := Selection(best, now)], true;
        } else if now - current.value.selectedAt < hysteresis {
          installs := false;
          assert selected == selected[prefix := current.value];
        } else {
          selected, installs := selected[prefix := Selection(best, now)], true;
        }
      }
    }

    /** One turn of the loop of Select, with the destinations done so far as ghost state. */
    method SelectNext(prefix: Prefix, now: int, ghost done: set<Prefix>, ghost was: Selected, ghost sofar: map<Prefix, Route>)
      returns (winner: Option<Route>, installs: bool, ghost best: map<Prefix, Route>)
      requires Valid() && prefix in offers && prefix !in done && prefix !in sofar && Fits(offers, sofar)
      requires Resolved(offers, done, was, selected, sofar, now, hysteresis)
      modifies this`selected
      ensures Valid() && Resolved(offers, done + {prefix}, was, selected, best, now, hysteresis)
      ensures best == if winner.Some? then sofar[prefix := winner.value] else sofar
      ensures winner.Some? ==> winner.value.prefix == prefix
      ensures installs ==> winner.Some?
      ensures Fits(offers, best)
      ensures installs ==>
        Installs(offers, was, best, now, hysteresis) == Installs(offers, was, sofar, now, hysteresis) + {winner.value}
      ensures !installs ==> Installs(offers, was, best, now, hysteresis) == Installs(offers, was, sofar, now, hysteresis)
      ensures prefix in old(selected) <==> prefix in was
    {
      hide IsBest, AnyLive, Resolve, Resolved, Installs;
      CurrentUntouched(offers, done, was, selected, sofar, now, hysteresis, prefix);
      winner, installs := SelectOne(prefix, now);
      best := if winner.Some? then sofar[prefix := winner.value] else sofar;
      OneMore(offers, prefix, sofar, best, was, now, hysteresis);
      ResolvedMore(offers, done, was, old(selected), selected, sofar, best, prefix, now, hysteresis);
    }

    /** The loop of Select over the offered destinations. */
    method SelectOffered(now: int) returns (install: seq<Route>, removed: set<Prefix>, ghost best: map<Prefix, Route>)
      requires Valid()
      modifies this`selected
      ensures Resolved(offers, offers.Keys, old(selected), selected, best, now, hysteresis)
      ensures Fits(offers, best) && Elements(install) == Installs(offers, old(selected), best, now, hysteresis)
      ensures OnePerPrefix(install, best)
      ensures removed == Lost(offers.Keys, old(selected).Keys, best.Keys)
      ensures Valid()
    {
      hide Resolved, Installs, WellFormed, TotalOrder, OnePerPrefix, Lost, Elements, Valid;
      EmptyElements<Route>([]);
      NoneLost(selected.Keys);
      NoneListed();
      ghost var was := selected;
      var rest := offers.Keys;
      install, removed, best := [], {}, map[];
      NothingResolved(offers, was, now, hysteresis);
      assert offers.Keys - rest == {} && best.Keys == {};
      while rest != {}
        invariant rest <= offers.Keys && Valid()
        invariant Resolved(offers, offers.Keys - rest, was, selected, best, now, hysteresis)
        invariant Fits(offers, best) && Elements(install) == Installs(offers, was, best, now, hysteresis)
        invariant OnePerPrefix(install, best) && best.Keys <= offers.Keys - rest
        invariant removed == Lost(offers.Keys - rest, was.Keys, best.Keys)
        decreases |rest|
      {
        var prefix :| prefix in rest;
        var chosen := prefix in selected;
        ghost var done, sofar := offers.Keys - rest, best;
        var winner, installs;
        winner, installs, best := SelectNext(prefix, now, done, was, best);
        if winner.None? && chosen { removed := removed + {prefix}; }
        rest := rest - {prefix};
        assert offers.Keys - rest == done + {prefix};
        LostMore(done, was.Keys, sofar.Keys, prefix);
        assert best.Keys == if winner.Some? then sofar.Keys + {prefix} else sofar.Keys;
        OnePerPrefixGrows(install, sofar, best);
        if installs {
          OnePerPrefixMore(install, sofar, best, winner.value);
          ElementsMore(install, winner.value);
          install := install + [winner.value];
        }
      }
      assert offers.Keys - rest == offers.Keys;
    }

    /** Resolves every destination to at most one route and reports what moved. */
    method Select(now: int) returns (install: seq<Route>, remove: seq<Prefix>, ghost best: map<Prefix, Route>)
      requires Valid()
      modifies this`selected
      ensures Winners(offers, now, best) && Fits(offers, best)
      ensures selected == NextSelected(offers, old(selected), best, now, hysteresis)
      ensures Ascending(install, RouteOrder(before)) && Ascending(remove, before)
      ensures Elements(install) == Installs(offers, old(selected), best, now, hysteresis)
      ensures Elements(remove) == Removes(old(selected), best)
      ensures Valid()
    {
      hide IsBest, AnyLive, Resolve, Resolved, Winners, NextSelected, Installs, Transitive, Irreflexive, WellFormed;
      ghost var was := selected;
      var removed: set<Prefix>;
      install, removed, best := SelectOffered(now);
      ResolvedAll(offers, was, selected, best, now, hysteresis);
      SelectedFiled(offers, was, best, now, hysteresis);
      removed := removed + (selected.Keys - offers.Keys);
      selected := map p | p in selected && p in offers :: selected[p];
      remove := Listed(removed);
      OnePerPrefixSorts(install, best, before);
      install := Sort(install, RouteOrder(before));
    }

    /** What the table says the kernel should hold. */
    method Installed() returns (routes: seq<Route>)
      requires Valid()
      ensures Ascending(routes, RouteOrder(before))
      ensures Elements(routes) == set p | p in selected && p in offers :: selected[p].route
    {
      routes := [];
      var rest := selected.Keys * offers.Keys;
      while rest != {}
        invariant rest <= selected.Keys * offers.Keys
        invariant Elements(routes) == set p | p in selected && p in offers && p !in rest :: selected[p].route
        invariant forall i :: 0 <= i < |routes| ==> routes[i].prefix !in rest
        invariant forall i, j :: 0 <= i < j < |routes| ==> routes[i].prefix != routes[j].prefix
        decreases |rest|
      {
        var prefix :| prefix in rest;
        ghost var sofar := routes;
        routes, rest := routes + [selected[prefix].route], rest - {prefix};
        assert Elements(routes) == Elements(sofar) + {selected[prefix].route};
      }
      PrefixesSort(routes, before);
      routes := Sort(routes, RouteOrder(before));
    }
  }

  /** The routes listed are winners of distinct destinations. */
  ghost predicate OnePerPrefix(install: seq<Route>, best: map<Prefix, Route>) {
    && (forall i :: 0 <= i < |install| ==> install[i].prefix in best)
    && (forall i, j :: 0 <= i < j < |install| ==> install[i].prefix != install[j].prefix)
  }

  /** Selected destinations among those done that no winner keeps. */
  ghost function Lost(done: set<Prefix>, was: set<Prefix>, won: set<Prefix>): set<Prefix> { done * was - won }

  lemma LostMore(done: set<Prefix>, was: set<Prefix>, won: set<Prefix>, prefix: Prefix)
    requires prefix !in done && won <= done
    ensures Lost(done + {prefix}, was, won + {prefix}) == Lost(done, was, won)
    ensures prefix in was ==> Lost(done + {prefix}, was, won) == Lost(done, was, won) + {prefix}
    ensures prefix !in was ==> Lost(done + {prefix}, was, won) == Lost(done, was, won)
  {
  }

  lemma NoneLost(was: set<Prefix>)
    ensures Lost({}, was, {}) == {}
  {
  }

  lemma NoneListed()
    ensures OnePerPrefix([], map[])
  {
  }

  lemma OnePerPrefixMore(install: seq<Route>, sofar: map<Prefix, Route>, best: map<Prefix, Route>, route: Route)
    requires OnePerPrefix(install, sofar) && route.prefix !in sofar && best == sofar[route.prefix := route]
    ensures OnePerPrefix(install + [route], best)
  {
  }

  lemma OnePerPrefixGrows(install: seq<Route>, sofar: map<Prefix, Route>, best: map<Prefix, Route>)
    requires OnePerPrefix(install, sofar) && sofar.Keys <= best.Keys
    ensures OnePerPrefix(install, best)
  {
  }

  lemma OnePerPrefixSorts(install: seq<Route>, best: map<Prefix, Route>, before: (Prefix, Prefix) -> bool)
    requires TotalOrder(before) && OnePerPrefix(install, best)
    ensures var sorted := Sort(install, RouteOrder(before));
      Ascending(sorted, RouteOrder(before)) && Elements(sorted) == Elements(install)
  {
    PrefixesSort(install, before);
  }

  lemma PrefixesSort(routes: seq<Route>, before: (Prefix, Prefix) -> bool)
    requires TotalOrder(before) && forall i, j :: 0 <= i < j < |routes| ==> routes[i].prefix != routes[j].prefix
    ensures var sorted := Sort(routes, RouteOrder(before));
      Ascending(sorted, RouteOrder(before)) && Elements(sorted) == Elements(routes)
  {
    RouteOrderStrict(before);
    SortAscending(routes, RouteOrder(before));
  }

  lemma RouteOrderStrict(before: (Prefix, Prefix) -> bool)
    requires TotalOrder(before)
    ensures Transitive(RouteOrder(before)) && Irreflexive(RouteOrder(before))
  {
    forall a, b, c | RouteOrder(before)(a, b) && RouteOrder(before)(b, c) ensures RouteOrder(before)(a, c) {
      assert before(a.prefix, b.prefix) && before(b.prefix, c.prefix);
    }
    forall a ensures !RouteOrder(before)(a, a) { assert !before(a.prefix, a.prefix); }
  }

  /** One destination, part-way through Select: done, or as it was. */
  ghost predicate ResolvedAt(p: Prefix, offers: Offers, done: set<Prefix>, was: Selected, selected: Selected,
                             best: map<Prefix, Route>, now: int, hysteresis: int)
  {
    && (p in best <==> p in done && p in offers && AnyLive(offers[p], now))
    && (p in best ==> IsBest(offers[p], now, best[p]) && best[p].prefix == p)
    && Current(selected, p) == if p in best then Some(Resolve(offers[p], best[p], Current(was, p), now, hysteresis).0)
                               else if p in done then None
                               else Current(was, p)
  }

  ghost predicate Resolved(offers: Offers, done: set<Prefix>, was: Selected, selected: Selected,
                           best: map<Prefix, Route>, now: int, hysteresis: int)
  {
    forall p :: ResolvedAt(p, offers, done, was, selected, best, now, hysteresis)
  }

  lemma ResolvedMore(offers: Offers, done: set<Prefix>, was: Selected, before: Selected, after: Selected,
                     sofar: map<Prefix, Route>, best: map<Prefix, Route>, prefix: Prefix, now: int, hysteresis: int)
    requires Resolved(offers, done, was, before, sofar, now, hysteresis) && prefix in offers && prefix !in done
    requires best == if prefix in best then sofar[prefix := best[prefix]] else sofar
    requires prefix in best <==> AnyLive(offers[prefix], now)
    requires prefix in best ==> IsBest(offers[prefix], now, best[prefix]) && best[prefix].prefix == prefix
    requires after == if prefix in best
      then before[prefix := Resolve(offers[prefix], best[prefix], Current(before, prefix), now, hysteresis).0]
      else before - {prefix}
    ensures Resolved(offers, done + {prefix}, was, after, best, now, hysteresis)
  {
    hide IsBest, AnyLive, Resolve;
    assert ResolvedAt(prefix, offers, done, was, before, sofar, now, hysteresis);
    forall p ensures ResolvedAt(p, offers, done + {prefix}, was, after, best, now, hysteresis) {
      assert ResolvedAt(p, offers, done, was, before, sofar, now, hysteresis);
    }
  }

  lemma CurrentUntouched(offers: Offers, done: set<Prefix>, was: Selected, selected: Selected,
                         best: map<Prefix, Route>, now: int, hysteresis: int, prefix: Prefix)
    requires Resolved(offers, done, was, selected, best, now, hysteresis) && prefix !in done
    ensures Current(selected, prefix) == Current(was, prefix) && (prefix in selected <==> prefix in was)
  {
    hide IsBest, AnyLive, Resolve;
    assert ResolvedAt(prefix, offers, done, was, selected, best, now, hysteresis);
  }

  lemma NothingResolved(offers: Offers, was: Selected, now: int, hysteresis: int)
    ensures Resolved(offers, {}, was, was, map[], now, hysteresis)
    ensures Installs(offers, was, map[], now, hysteresis) == {}
  {
  }

  /** Once every offered destination is done, what is left of the rest goes too. */
  lemma ResolvedAll(offers: Offers, was: Selected, selected: Selected, best: map<Prefix, Route>, now: int, hysteresis: int)
    requires Resolved(offers, offers.Keys, was, selected, best, now, hysteresis)
    ensures Winners(offers, now, best) && Fits(offers, best) && forall p :: p in best ==> best[p].prefix == p
    ensures (map p | p in selected && p in offers :: selected[p]) == NextSelected(offers, was, best, now, hysteresis)
    ensures selected.Keys - offers.Keys == was.Keys - offers.Keys
  {
    hide IsBest, AnyLive, Resolve, ResolvedAt;
    forall p
      ensures p in best <==> p in offers && AnyLive(offers[p], now)
      ensures p in best ==> IsBest(offers[p], now, best[p]) && best[p].prefix == p
    {
      ResolvedThere(p, offers, was, selected, best, now, hysteresis);
    }
    var next := NextSelected(offers, was, best, now, hysteresis);
    var kept := map p | p in selected && p in offers :: selected[p];
    forall p
      ensures p in kept <==> p in next
      ensures p in kept ==> kept[p] == next[p]
      ensures p in selected.Keys - offers.Keys <==> p in was.Keys - offers.Keys
    {
      ResolvedThere(p, offers, was, selected, best, now, hysteresis);
    }
  }

  lemma ResolvedThere(p: Prefix, offers: Offers, was: Selected, selected: Selected, best: map<Prefix, Route>,
                      now: int, hysteresis: int)
    requires Resolved(offers, offers.Keys, was, selected, best, now, hysteresis)
    ensures p in best <==> p in offers && AnyLive(offers[p], now)
    ensures p in best ==> IsBest(offers[p], now, best[p]) && best[p].prefix == p
    ensures p in best ==>
      p in selected && selected[p] == Resolve(offers[p], best[p], Current(was, p), now, hysteresis).0
    ensures p !in best && p in offers ==> p !in selected
    ensures p !in offers ==> Current(selected, p) == Current(was, p) && (p in selected <==> p in was)
  {
    hide IsBest, AnyLive, Resolve;
    assert ResolvedAt(p, offers, offers.Keys, was, selected, best, now, hysteresis);
  }

  lemma OneMore(offers: Offers, prefix: Prefix, sofar: map<Prefix, Route>, best: map<Prefix, Route>,
                was: Selected, now: int, hysteresis: int)
    requires prefix in offers && prefix !in sofar && Fits(offers, sofar)
    requires best == if prefix in best then sofar[prefix := best[prefix]] else sofar
    ensures Fits(offers, best)
    ensures Installs(offers, was, best, now, hysteresis)
         == Installs(offers, was, sofar, now, hysteresis)
            + if prefix in best && Resolve(offers[prefix], best[prefix], Current(was, prefix), now, hysteresis).1
              then {best[prefix]} else {}
  {
    hide Resolve;
  }

  lemma SelectedFiled(offers: Offers, was: Selected, best: map<Prefix, Route>, now: int, hysteresis: int)
    requires Fits(offers, best) && forall p :: p in best ==> best[p].prefix == p
    requires forall p :: p in was ==> was[p].route.prefix == p
    ensures var next := NextSelected(offers, was, best, now, hysteresis);
      forall p :: p in next ==> next[p].route.prefix == p
  {
  }

  ghost function Each(prefixes: set<Prefix>, provider: Key): set<(Prefix, Key)> {
    set p | p in prefixes :: (p, provider)
  }

  lemma WithdrawOne(was: Offers, offers: Offers, prefix: Prefix, provider: Key)
    requires WellFormed(was)
    requires offers == if prefix !in was then was
                       else if was[prefix] - {provider} == map[] then was - {prefix}
                       else was[prefix := was[prefix] - {provider}]
    ensures offers == Without(was, {(prefix, provider)})
  {
    var gone := {(prefix, provider)};
    forall p | p in was ensures Kept(p, was[p], gone) == if p == prefix then was[p] - {provider} else was[p] {}
  }

  lemma WithoutNothing(offers: Offers)
    requires WellFormed(offers)
    ensures Without(offers, {}) == offers
  {
    forall p | p in offers ensures Kept(p, offers[p], {}) == offers[p] {}
  }

  lemma WithoutMore(offers: Offers, gone: set<(Prefix, Key)>, more: set<(Prefix, Key)>)
    ensures Without(Without(offers, gone), more) == Without(offers, gone + more)
  {
    forall p | p in offers
      ensures Kept(p, Kept(p, offers[p], gone), more) == Kept(p, offers[p], gone + more)
    {
      var kept := Kept(p, offers[p], gone);
      assert Kept(p, kept, more).Keys == Kept(p, offers[p], gone + more).Keys;
    }
    forall p | p in offers && Kept(p, offers[p], gone + more) != map[]
      ensures Kept(p, offers[p], gone) != map[]
    {
      var k :| k in Kept(p, offers[p], gone + more);
      assert k in Kept(p, offers[p], gone);
    }
  }
}
