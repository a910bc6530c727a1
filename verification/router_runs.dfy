/**
 What holds over every run of the router: only authorized space is routed, a
 selection moves at most once per hysteresis window, selection settles, and
 the order in which announcements arrive does not matter.
 */
module RoutingRuns {
  import opened Prefixes
  import opened Sorting
  import opened Routes
  import opened Routing
  import Policy
  import opened Wrappers

  datatype Event =
    | Announce(provider: Key, routes: seq<Route>)
    | Withdraw(provider: Key, prefixes: seq<Prefix>)
    | Disconnect(provider: Key)
    | Reconcile(now: int)

  datatype Rib = Rib(offers: Offers, selected: Selected)

  /** What stays fixed during a run. */
  datatype Setting = Setting(allowlist: Policy.Allowlist, local: Policy.LocalNetwork, hysteresis: int)

  /** Router.Reconcile on the two maps, with the winners it found. */
  ghost predicate Settles(s: Rib, now: int, hysteresis: int, best: map<Prefix, Route>, t: Rib) {
    && t.offers == Without(s.offers, Lapsed(s.offers, now))
    && Winners(t.offers, now, best) && Fits(t.offers, best)
    && t.selected == NextSelected(t.offers, s.selected, best, now, hysteresis)
  }

  ghost predicate Steps(c: Setting, s: Rib, e: Event, t: Rib) {
    match e
    case Announce(provider, routes) =>
      t == Rib(AnnounceAll(c.allowlist, c.local, s.offers, provider, routes), s.selected)
    case Withdraw(provider, prefixes) => t == Rib(Without(s.offers, Pairs(provider, prefixes)), s.selected)
    case Disconnect(provider) => t == Rib(Without(s.offers, OfferedBy(s.offers, provider)), s.selected)
    case Reconcile(now) => exists best :: Settles(s, now, c.hysteresis, best, t)
  }

  ghost predicate IsRun(c: Setting, states: seq<Rib>, events: seq<Event>) {
    && |states| == |events| + 1
    && forall i :: 0 <= i < |events| ==> Steps(c, states[i], events[i], states[i + 1])
  }

  // ------------------------------------------------------ only authorized space

  ghost predicate Cleared(c: Setting, r: Route) {
    r.source.Announced? && Permitted(c.allowlist, c.local, r.provider, r.prefix)
  }

  ghost predicate OffersCleared(c: Setting, offers: Offers) {
    forall p, k :: p in offers && k in offers[p] ==> Cleared(c, offers[p][k])
  }

  ghost predicate Sound(c: Setting, s: Rib) {
    && WellFormed(s.offers) && OffersCleared(c, s.offers)
    && forall p :: p in s.selected ==> s.selected[p].route.prefix == p && Cleared(c, s.selected[p].route)
  }

  lemma OneAnnouncementSound(c: Setting, offers: Offers, provider: Key, r: Route)
    requires WellFormed(offers) && OffersCleared(c, offers)
    ensures var after := AnnounceOne(c.allowlist, c.local, offers, provider, r);
      WellFormed(after) && OffersCleared(c, after)
  {
    hide Permitted;
    var added := AsOffered(provider, r);
    var after := AnnounceOne(c.allowlist, c.local, offers, provider, r);
    if after != offers {
      var entry := Held(offers, r.prefix)[provider := added];
      assert provider in entry && after == offers[r.prefix := entry];
    }
  }

  lemma {:induction false} AnnouncementsSound(c: Setting, offers: Offers, provider: Key, routes: seq<Route>)
    requires WellFormed(offers) && OffersCleared(c, offers)
    ensures var after := AnnounceAll(c.allowlist, c.local, offers, provider, routes);
      WellFormed(after) && OffersCleared(c, after)
  {
    if routes != [] {
      var front := routes[..|routes| - 1];
      AnnouncementsSound(c, offers, provider, front);
      OneAnnouncementSound(c, AnnounceAll(c.allowlist, c.local, offers, provider, front), provider, routes[|routes| - 1]);
    }
  }

  lemma FewerOffersSound(c: Setting, offers: Offers, gone: set<(Prefix, Key)>)
    requires WellFormed(offers) && OffersCleared(c, offers)
    ensures WellFormed(Without(offers, gone)) && OffersCleared(c, Without(offers, gone))
  {
  }

  lemma SettlingSound(c: Setting, s: Rib, now: int, best: map<Prefix, Route>, t: Rib)
    requires Sound(c, s) && Settles(s, now, c.hysteresis, best, t)
    ensures Sound(c, t)
  {
    FewerOffersSound(c, s.offers, Lapsed(s.offers, now));
    BestFiled(t.offers, now, best);
    hide Winners, WellFormed, Without, Lapsed;
    forall p | p in best ensures Cleared(c, best[p]) {
      assert best[p] == t.offers[p][best[p].provider];
    }
    SelectionsSound(c, t.offers, s.selected, best, now);
  }

  lemma SelectionsSound(c: Setting, offers: Offers, was: Selected, best: map<Prefix, Route>, now: int)
    requires Fits(offers, best) && forall p :: p in best ==> best[p].prefix == p && Cleared(c, best[p])
    requires forall p :: p in was ==> was[p].route.prefix == p && Cleared(c, was[p].route)
    ensures var next := NextSelected(offers, was, best, now, c.hysteresis);
      forall p :: p in next ==> next[p].route.prefix == p && Cleared(c, next[p].route)
  {
    hide Cleared;
  }

  lemma StepSound(c: Setting, s: Rib, e: Event, t: Rib)
    requires Sound(c, s) && Steps(c, s, e, t)
    ensures Sound(c, t)
  {
    match e
    case Announce(provider, routes) => AnnouncementsSound(c, s.offers, provider, routes);
    case Withdraw(provider, prefixes) => FewerOffersSound(c, s.offers, Pairs(provider, prefixes));
    case Disconnect(provider) => FewerOffersSound(c, s.offers, OfferedBy(s.offers, provider));
    case Reconcile(now) =>
      var best :| Settles(s, now, c.hysteresis, best, t);
      SettlingSound(c, s, now, best, t);
  }

  lemma {:induction false} RunSound(c: Setting, states: seq<Rib>, events: seq<Event>, n: nat)
    requires IsRun(c, states, events) && n <= |events| && Sound(c, states[0])
    ensures Sound(c, states[n])
  {
    if n > 0 {
      RunSound(c, states, events, n - 1);
      StepSound(c, states[n - 1], events[n - 1], states[n]);
    }
  }

  /** A destination that may be routed through a provider, on address sets. */
  ghost predicate Routable(c: Setting, p: Prefix, provider: Key) {
    Policy.Harmless(p, c.local) && Policy.Authorized(c.allowlist, provider, p)
  }

  /**
   In every state of every run from the empty table, whatever is offered or
   selected is no default route, lies wholly inside one entry of the rule that
   decides its provider, and shares no address with this host's own networks,
   transports or infrastructure.
   */
  lemma OnlyAuthorizedSpace(c: Setting, states: seq<Rib>, events: seq<Event>, n: nat)
    requires IsRun(c, states, events) && n <= |events| && states[0] == Rib(map[], map[])
    ensures forall p, k :: p in states[n].offers && k in states[n].offers[p] ==> Routable(c, p, k)
    ensures forall p :: p in states[n].selected ==> Routable(c, p, states[n].selected[p].route.provider)
  {
    RunSound(c, states, events, n);
    forall p: Prefix, k | Permitted(c.allowlist, c.local, k, p) ensures Routable(c, p, k) {
      Policy.AdmittedIff(p, c.local);
      Policy.RouteAllowedIff(c.allowlist, k, p);
    }
    var s := states[n];
    forall p, k | p in s.offers && k in s.offers[p] ensures Permitted(c.allowlist, c.local, k, p) {
      assert Filed(p, s.offers[p]) && Cleared(c, s.offers[p][k]);
    }
  }

  // ------------------------------------------------------------------ hysteresis

  /** How many of the first n steps moved the destination to another provider. */
  ghost function Switches(states: seq<Rib>, p: Prefix, n: nat): nat
    requires n < |states|
  {
    if n == 0 then 0
    else Switches(states, p, n - 1) +
         if p in states[n - 1].selected && p in states[n].selected
           && states[n - 1].selected[p].route.provider != states[n].selected[p].route.provider then 1 else 0
  }

  /** At every reconciliation the selected provider still has an unexpired offer. */
  ghost predicate KeepsOffering(states: seq<Rib>, events: seq<Event>, p: Prefix)
    requires |states| == |events| + 1
  {
    forall i :: 0 <= i < |events| && events[i].Reconcile? && p in states[i].selected ==>
      var k := states[i].selected[p].route.provider;
      p in states[i].offers && k in states[i].offers[p] && states[i].offers[p][k].Live(events[i].now)
  }

  /** A move while the old provider still offers takes a full window. */
  lemma MoveTakesAWindow(c: Setting, s: Rib, now: int, best: map<Prefix, Route>, t: Rib, p: Prefix)
    requires WellFormed(s.offers) && Settles(s, now, c.hysteresis, best, t)
    requires p in s.selected && p in s.offers
    requires var k := s.selected[p].route.provider; k in s.offers[p] && s.offers[p][k].Live(now)
    ensures p in t.selected
    ensures t.selected[p].route.provider == s.selected[p].route.provider ==>
      t.selected[p].selectedAt == s.selected[p].selectedAt
    ensures t.selected[p].route.provider != s.selected[p].route.provider ==>
      t.selected[p].selectedAt == now && now - s.selected[p].selectedAt >= c.hysteresis
  {
    hide IsBest, Resolve;
    AfterExpiry(s.offers, now);
    hide AnyLive, Lapsed, Without, WellFormed, Route.Live;
    assert p in best && s.selected[p].route.provider in t.offers[p];
    ResolveMoves(t.offers[p], best[p], s.selected[p], now, c.hysteresis);
  }

  lemma ResolveMoves(providers: Providers, best: Route, chosen: Selection, now: int, hysteresis: int)
    requires chosen.route.provider in providers
    ensures var next := Resolve(providers, best, Some(chosen), now, hysteresis).0;
      if next.route.provider == chosen.route.provider then next.selectedAt == chosen.selectedAt
      else next.selectedAt == now && now - chosen.selectedAt >= hysteresis
  {
  }

  lemma OneStepMoves(c: Setting, s: Rib, e: Event, t: Rib, p: Prefix)
    requires Sound(c, s) && Steps(c, s, e, t) && p in s.selected
    requires e.Reconcile? ==>
      var k := s.selected[p].route.provider;
      p in s.offers && k in s.offers[p] && s.offers[p][k].Live(e.now)
    ensures p in t.selected
    ensures t.selected[p].route.provider == s.selected[p].route.provider ==>
      t.selected[p].selectedAt == s.selected[p].selectedAt
    ensures t.selected[p].route.provider != s.selected[p].route.provider ==>
      e.Reconcile? && t.selected[p].selectedAt == e.now && e.now - s.selected[p].selectedAt >= c.hysteresis
  {
    hide Settles;
    if e.Reconcile? {
      var best :| Settles(s, e.now, c.hysteresis, best, t);
      MoveTakesAWindow(c, s, e.now, best, t, p);
    }
  }

  /** A window for every move among the first n steps. */
  ghost function Spent(states: seq<Rib>, p: Prefix, n: nat, hysteresis: int): int
    requires n < |states|
  {
    if n == 0 then 0
    else Spent(states, p, n - 1, hysteresis) +
         if p in states[n - 1].selected && p in states[n].selected
           && states[n - 1].selected[p].route.provider != states[n].selected[p].route.provider then hysteresis else 0
  }

  lemma {:induction false} SpentIsSwitches(states: seq<Rib>, p: Prefix, n: nat, hysteresis: int)
    requires n < |states|
    ensures Spent(states, p, n, hysteresis) == Switches(states, p, n) * hysteresis
  {
    if n > 0 {
      SpentIsSwitches(states, p, n - 1, hysteresis);
      var moves := Switches(states, p, n - 1);
      assert (moves + 1) * hysteresis == moves * hysteresis + hysteresis;
    }
  }

  lemma {:induction false} SpentFits(c: Setting, states: seq<Rib>, events: seq<Event>, p: Prefix, n: nat, until: int)
    requires IsRun(c, states, events) && n <= |events| && Sound(c, states[0])
    requires p in states[0].selected && states[0].selected[p].selectedAt <= until
    requires KeepsOffering(states, events, p)
    requires forall i :: 0 <= i < n && events[i].Reconcile? ==> events[i].now <= until
    ensures p in states[n].selected && states[n].selected[p].selectedAt <= until
    ensures Spent(states, p, n, c.hysteresis) <= states[n].selected[p].selectedAt - states[0].selected[p].selectedAt
  {
    if n > 0 {
      hide Steps, Sound, Route.Live;
      SpentFits(c, states, events, p, n - 1, until);
      RunSound(c, states, events, n - 1);
      OneStepMoves(c, states[n - 1], events[n - 1], states[n], p);
    }
  }

  /**
   Once selected, a destination whose provider keeps offering is moved at most
   once per window: the moves up to step n, times the window, fit between its
   first selection and any time no earlier than the readings used.
   */
  lemma SwitchBound(c: Setting, states: seq<Rib>, events: seq<Event>, p: Prefix, n: nat, until: int)
    requires IsRun(c, states, events) && n <= |events| && Sound(c, states[0])
    requires p in states[0].selected && states[0].selected[p].selectedAt <= until
    requires KeepsOffering(states, events, p)
    requires forall i :: 0 <= i < n && events[i].Reconcile? ==> events[i].now <= until
    ensures p in states[n].selected
    ensures Switches(states, p, n) * c.hysteresis <= until - states[0].selected[p].selectedAt
  {
    SpentFits(c, states, events, p, n, until);
    SpentIsSwitches(states, p, n, c.hysteresis);
  }

  // ----------------------------------------------------------------- convergence

  ghost predicate AllLive(offers: Offers, now: int) {
    forall p, k :: p in offers && k in offers[p] ==> offers[p][k].Live(now)
  }

  /** Every offered destination is given to its least (metric, provider). */
  ghost predicate Converged(s: Rib, now: int) {
    && s.selected.Keys == s.offers.Keys
    && forall p :: p in s.selected ==> IsBest(s.offers[p], now, s.selected[p].route)
  }

  lemma NothingLapses(offers: Offers, now: int)
    requires WellFormed(offers) && AllLive(offers, now)
    ensures Without(offers, Lapsed(offers, now)) == offers
    ensures forall p :: p in offers ==> AnyLive(offers[p], now)
  {
    assert Lapsed(offers, now) == {};
    WithoutNothing(offers);
    forall p | p in offers ensures AnyLive(offers[p], now) {
      var k :| k in offers[p];
      assert offers[p][k].Live(now);
    }
  }

  /** One reconciliation past the window makes every selection the best one. */
  lemma OneRoundConverges(c: Setting, s: Rib, now: int, best: map<Prefix, Route>, t: Rib)
    requires Sound(c, s) && AllLive(s.offers, now) && Settles(s, now, c.hysteresis, best, t)
    requires forall p :: p in s.selected ==> now - s.selected[p].selectedAt >= c.hysteresis
    ensures t.offers == s.offers && Converged(t, now)
  {
    hide IsBest, Permitted, AnyLive;
    NothingLapses(s.offers, now);
    hide Without, Lapsed, Sound;
    assert t.offers == s.offers;
    assert best.Keys == t.offers.Keys;
  }

  /** From there on, while nothing lapses, reconciling changes nothing and reports nothing. */
  lemma ConvergedStays(c: Setting, s: Rib, was: int, now: int, best: map<Prefix, Route>, t: Rib)
    requires Sound(c, s) && Converged(s, was) && AllLive(s.offers, was) && AllLive(s.offers, now)
    requires Settles(s, now, c.hysteresis, best, t)
    ensures t == s && Converged(t, now)
    ensures Installs(t.offers, s.selected, best, now, c.hysteresis) == {} && Removes(s.selected, best) == {}
  {
    hide Permitted;
    NothingLapses(s.offers, now);
    hide Without, Lapsed;
    assert t.offers == s.offers;
    WinnersAreSelected(c, s, was, now, best);
    hide Winners, IsBest, AnyLive, AllLive, Sound, NextSelected, Installs, Removes;
    WinnersKeepSelection(s.offers, s.selected, best, now, c.hysteresis);
  }

  lemma WinnersKeepSelection(offers: Offers, selected: Selected, best: map<Prefix, Route>, now: int, hysteresis: int)
    requires best.Keys == selected.Keys == offers.Keys && forall p :: p in best ==> selected[p].route == best[p]
    ensures NextSelected(offers, selected, best, now, hysteresis) == selected
    ensures Installs(offers, selected, best, now, hysteresis) == {} && Removes(selected, best) == {}
  {
  }

  lemma WinnersAreSelected(c: Setting, s: Rib, was: int, now: int, best: map<Prefix, Route>)
    requires Sound(c, s) && Converged(s, was) && AllLive(s.offers, was) && AllLive(s.offers, now)
    requires Winners(s.offers, now, best) && forall p :: p in s.offers ==> AnyLive(s.offers[p], now)
    ensures best.Keys == s.selected.Keys
    ensures forall p :: p in best ==> s.selected[p].route == best[p] && IsBest(s.offers[p], now, s.selected[p].route)
  {
    hide IsBest, AnyLive, Permitted, Route.Live;
    forall p | p in s.selected
      ensures p in best && s.selected[p].route == best[p] && IsBest(s.offers[p], now, s.selected[p].route)
    {
      assert forall k :: k in s.offers[p] ==> Cleared(c, s.offers[p][k]);
      StillBest(p, s.offers[p], was, now, s.selected[p].route, best[p]);
    }
  }

  lemma StillBest(p: Prefix, providers: Providers, was: int, now: int, a: Route, b: Route)
    requires Filed(p, providers) && forall k :: k in providers ==>
      providers[k].source.Announced? && providers[k].Live(was) && providers[k].Live(now)
    requires IsBest(providers, was, a) && IsBest(providers, now, b)
    ensures a == b && IsBest(providers, now, a)
  {
    BestUnique(p, providers, now);
    assert IsBest(providers, now, a);
  }

  /** So after any number of further reconciliations the table is as the first one left it. */
  lemma {:induction false} ConvergedForever(c: Setting, states: seq<Rib>, events: seq<Event>, was: int, n: nat)
    requires IsRun(c, states, events) && n <= |events|
    requires Sound(c, states[0]) && Converged(states[0], was) && AllLive(states[0].offers, was)
    requires forall e :: e in events ==> e.Reconcile? && AllLive(states[0].offers, e.now)
    ensures states[n] == states[0]
  {
    if n > 0 {
      ConvergedForever(c, states, events, was, n - 1);
      var e := events[n - 1];
      assert Steps(c, states[n - 1], e, states[n]);
      var best :| Settles(states[n - 1], e.now, c.hysteresis, best, states[n]);
      ConvergedStays(c, states[0], was, e.now, best, states[n]);
    }
  }

  // --------------------------------------------------------------- order of arrival

  function OfferAll(offers: Offers, rs: seq<Route>): Offers {
    if rs == [] then offers else WithOffer(OfferAll(offers, rs[..|rs| - 1]), rs[|rs| - 1])
  }

  /** The offers that compete for one (prefix, provider) slot. */
  ghost predicate Candidate(offers: Offers, rs: seq<Route>, p: Prefix, k: Key, r: Route) {
    (r in rs && r.prefix == p && r.provider == k) || (p in offers && k in offers[p] && r == offers[p][k])
  }

  /** A slot holds a candidate of the highest version, and only slots with a candidate are held. */
  lemma {:induction false} HoldsTheNewest(offers: Offers, rs: seq<Route>, p: Prefix, k: Key)
    requires WellFormed(offers)
    ensures WellFormed(OfferAll(offers, rs))
    ensures var after := OfferAll(offers, rs);
      && (p in after && k in after[p] <==> exists r :: Candidate(offers, rs, p, k, r))
      && (p in after && k in after[p] ==> Candidate(offers, rs, p, k, after[p][k]))
      && (p in after && k in after[p] ==>
            forall r :: Candidate(offers, rs, p, k, r) ==> r.version <= after[p][k].version)
  {
    if rs == [] {
      if p in offers && k in offers[p] { assert Candidate(offers, rs, p, k, offers[p][k]); }
    } else {
      var front, last := rs[..|rs| - 1], rs[|rs| - 1];
      HoldsTheNewest(offers, front, p, k);
      var mid := OfferAll(offers, front);
      assert rs == front + [last];
      forall r ensures Candidate(offers, rs, p, k, r)
        <==> Candidate(offers, front, p, k, r) || (r == last && last.prefix == p && last.provider == k) {}
      if Accepts(mid, last) {
        var entry := Held(mid, last.prefix)[last.provider := last];
        assert last.provider in entry && OfferAll(offers, rs) == mid[last.prefix := entry];
      }
      if last.prefix == p && last.provider == k { assert Candidate(offers, rs, p, k, last); }
      if p in mid && k in mid[p] { assert Candidate(offers, rs, p, k, mid[p][k]); }
    }
  }

  /** A version determines what is offered: two candidates for a slot with one version are the same. */
  ghost predicate VersionsDetermine(offers: Offers, rs: seq<Route>) {
    forall p, k, a, b :: Candidate(offers, rs, p, k, a) && Candidate(offers, rs, p, k, b) && a.version == b.version ==> a == b
  }

  /** Any order and any duplication of the same offers leaves the same table. */
  lemma MergeOrderInsensitive(offers: Offers, rs: seq<Route>, rs': seq<Route>)
    requires WellFormed(offers) && Elements(rs) == Elements(rs') && VersionsDetermine(offers, rs)
    ensures OfferAll(offers, rs) == OfferAll(offers, rs')
  {
    var a, b := OfferAll(offers, rs), OfferAll(offers, rs');
    HoldsTheNewest(offers, rs, Prefix(Addr(V4, 0), 0), 0);
    HoldsTheNewest(offers, rs', Prefix(Addr(V4, 0), 0), 0);
    forall p, k, r ensures Candidate(offers, rs, p, k, r) <==> Candidate(offers, rs', p, k, r) {
      assert r in rs <==> r in Elements(rs);
      assert r in rs' <==> r in Elements(rs');
    }
    forall p, k
      ensures p in a && k in a[p] <==> p in b && k in b[p]
      ensures p in a && k in a[p] ==> a[p][k] == b[p][k]
    {
      HoldsTheNewest(offers, rs, p, k);
      HoldsTheNewest(offers, rs', p, k);
    }
    SameTable(a, b);
  }

  lemma SameTable(a: Offers, b: Offers)
    requires WellFormed(a) && WellFormed(b)
    requires forall p, k :: p in a && k in a[p] <==> p in b && k in b[p]
    requires forall p, k :: p in a && k in a[p] ==> a[p][k] == b[p][k]
    ensures a == b
  {
    forall p ensures p in a <==> p in b {
      if p in a {
        assert Filed(p, a[p]);
        var k :| k in a[p];
      }
      if p in b {
        assert Filed(p, b[p]);
        var k :| k in b[p];
      }
    }
    forall p | p in a ensures a[p] == b[p] {
      assert forall k :: k in a[p] <==> k in b[p];
    }
  }

  /** An announcement is the offers it contains that admission and policy let through. */
  function LetThrough(c: Setting, provider: Key, routes: seq<Route>): seq<Route> {
    if routes == [] then []
    else
      var last := routes[|routes| - 1];
      LetThrough(c, provider, routes[..|routes| - 1])
      + if Permitted(c.allowlist, c.local, provider, last.prefix) then [AsOffered(provider, last)] else []
  }

  lemma {:induction false} AnnounceIsOffers(c: Setting, offers: Offers, provider: Key, routes: seq<Route>)
    ensures AnnounceAll(c.allowlist, c.local, offers, provider, routes) == OfferAll(offers, LetThrough(c, provider, routes))
  {
    if routes != [] {
      var front, last := routes[..|routes| - 1], routes[|routes| - 1];
      AnnounceIsOffers(c, offers, provider, front);
      var through := LetThrough(c, provider, front);
      if Permitted(c.allowlist, c.local, provider, last.prefix) {
        assert (through + [AsOffered(provider, last)])[..|through|] == through;
      } else {
        assert through + [] == through;
      }
    }
  }

  lemma {:induction false} OfferAllAppend(offers: Offers, rs: seq<Route>, rs': seq<Route>)
    ensures OfferAll(offers, rs + rs') == OfferAll(OfferAll(offers, rs), rs')
  {
    if rs' == [] {
      assert rs + rs' == rs;
    } else {
      assert (rs + rs')[..|rs + rs'| - 1] == rs + rs'[..|rs'| - 1];
      OfferAllAppend(offers, rs, rs'[..|rs'| - 1]);
    }
  }

  datatype Delivery = Delivery(provider: Key, routes: seq<Route>)

  function Delivered(c: Setting, offers: Offers, ds: seq<Delivery>): Offers {
    if ds == [] then offers
    else
      var last := ds[|ds| - 1];
      AnnounceAll(c.allowlist, c.local, Delivered(c, offers, ds[..|ds| - 1]), last.provider, last.routes)
  }

  function AllLetThrough(c: Setting, ds: seq<Delivery>): seq<Route> {
    if ds == [] then []
    else AllLetThrough(c, ds[..|ds| - 1]) + LetThrough(c, ds[|ds| - 1].provider, ds[|ds| - 1].routes)
  }

  lemma {:induction false} DeliveredIsOffers(c: Setting, offers: Offers, ds: seq<Delivery>)
    ensures Delivered(c, offers, ds) == OfferAll(offers, AllLetThrough(c, ds))
  {
    if ds != [] {
      var front, last := ds[..|ds| - 1], ds[|ds| - 1];
      DeliveredIsOffers(c, offers, front);
      AnnounceIsOffers(c, OfferAll(offers, AllLetThrough(c, front)), last.provider, last.routes);
      OfferAllAppend(offers, AllLetThrough(c, front), LetThrough(c, last.provider, last.routes));
    }
  }

  /** Announcements from any providers, split, repeated and reordered as relays please, merge to one table. */
  lemma DeliveryOrderInsensitive(c: Setting, offers: Offers, ds: seq<Delivery>, ds': seq<Delivery>)
    requires WellFormed(offers) && Elements(AllLetThrough(c, ds)) == Elements(AllLetThrough(c, ds'))
    requires VersionsDetermine(offers, AllLetThrough(c, ds))
    ensures Delivered(c, offers, ds) == Delivered(c, offers, ds')
  {
    DeliveredIsOffers(c, offers, ds);
    DeliveredIsOffers(c, offers, ds');
    MergeOrderInsensitive(offers, AllLetThrough(c, ds), AllLetThrough(c, ds'));
  }
}
