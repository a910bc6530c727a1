/** Which messages were seen before, within a window of time and of memory (internal/nostr/inbox.go). */
module Inboxes {
  import opened Bytes

  type Id = string
  type Text = seq<byte>

  datatype Verdict = New | Duplicate | Conflict

  /** When each event was first seen, and which event claimed each position. */
  datatype Memory = Memory(events: map<Id, int>, logical: map<Text, Id>)

  const DEFAULT_TTL := 1800
  const DEFAULT_ENTRIES := 10000

  function Forgotten(m: Memory, now: int, ttl: int): Memory {
    var events := map id | id in m.events && m.events[id] >= now - ttl :: m.events[id];
    Memory(events, map key | key in m.logical && m.logical[key] in events :: m.logical[key])
  }

  /** The search for the oldest entry in the order the map is walked. The empty identifier doubles as none so far. */
  function Pick(events: map<Id, int>, order: seq<Id>, best: Id): (r: Id)
    requires (forall i :: 0 <= i < |order| ==> order[i] in events) && (best == "" || best in events)
    ensures r == "" || r in events
    decreases |order|
  {
    if order == [] then best
    else Pick(events, order[1..], if best == "" || events[order[0]] < events[best] then order[0] else best)
  }

  function Dropped(m: Memory, id: Id): Memory {
    Memory(m.events - {id}, map key | key in m.logical && m.logical[key] != id :: m.logical[key])
  }

  ghost predicate Walks(order: seq<Id>, ids: set<Id>) {
    (forall i, j :: 0 <= i < j < |order| ==> order[i] != order[j]) && (forall id :: id in order <==> id in ids)
  }

  ghost function WithoutOldest(m: Memory, order: seq<Id>): Memory
    requires Walks(order, m.events.Keys)
  {
    InOrder(order, m.events.Keys);
    var oldest := Pick(m.events, order, "");
    if oldest == "" then m else Dropped(m, oldest)
  }

  lemma InOrder(order: seq<Id>, ids: set<Id>)
    requires Walks(order, ids)
    ensures forall i :: 0 <= i < |order| ==> order[i] in ids
  {
  }

  datatype Limits = Limits(ttl: int, maxEntries: int)

  ghost function Room(f: Memory, order: seq<Id>, limits: Limits): Memory
    requires Walks(order, f.events.Keys)
  {
    if |f.events| >= limits.maxEntries then WithoutOldest(f, order) else f
  }

  /** The memory and the verdict after one message. */
  ghost function Observed(m: Memory, order: seq<Id>, id: Id, key: Text, now: int, limits: Limits): (Memory, Verdict)
    requires Walks(order, Forgotten(m, now, limits.ttl).events.Keys)
  {
    var f := Forgotten(m, now, limits.ttl);
    if id in f.events then (f, Duplicate)
    else if key in f.logical then (f, if f.logical[key] == id then Duplicate else Conflict)
    else
      var room := Room(f, order, limits);
      (Memory(room.events[id := now], room.logical[key := id]), New)
  }

  class Inbox {
    const limits: Limits
    var events: map<Id, int>
    var logical: map<Text, Id>

    function Value(): Memory
      reads this
    {
      Memory(events, logical)
    }

    constructor (ttl: int, maxEntries: int)
      ensures Value() == Memory(map[], map[])
      ensures limits == Limits(if ttl <= 0 then DEFAULT_TTL else ttl, if maxEntries <= 0 then DEFAULT_ENTRIES else maxEntries)
    {
      limits := Limits(if ttl <= 0 then DEFAULT_TTL else ttl, if maxEntries <= 0 then DEFAULT_ENTRIES else maxEntries);
      events, logical := map[], map[];
    }

    method EvictExpired(now: int)
      modifies this`events, this`logical
      ensures Value() == Forgotten(old(Value()), now, limits.ttl)
    {
      ghost var was := Value();
      var todo := events.Keys;
      while todo != {}
        invariant todo <= was.events.Keys && logical == was.logical
        invariant events == map id | id in was.events && (id in todo || was.events[id] >= now - limits.ttl) :: was.events[id]
      {
        var id :| id in todo;
        todo := todo - {id};
        if events[id] < now - limits.ttl {
          events := events - {id};
        }
      }
      DropOrphans();
    }

    /** Positions whose event is gone go with it. */
    method DropOrphans()
      modifies this`logical
      ensures logical == map key | key in old(logical) && old(logical)[key] in events :: old(logical)[key]
    {
      ghost var was := logical;
      var keys := logical.Keys;
      while keys != {}
        invariant keys <= was.Keys
        invariant logical == map key | key in was && (key in keys || was[key] in events) :: was[key]
      {
        var key :| key in keys;
        keys := keys - {key};
        if logical[key] !in events {
          logical := logical - {key};
        }
      }
    }

    method FindOldest() returns (oldest: Id, ghost order: seq<Id>)
      ensures Walks(order, events.Keys)
      ensures oldest == "" || oldest in events
      ensures (forall i :: 0 <= i < |order| ==> order[i] in events) && oldest == Pick(events, order, "")
    {
      oldest, order := "", [];
      var todo := events.Keys;
      while todo != {}
        invariant todo <= events.Keys && Walks(order, events.Keys - todo) && (oldest == "" || oldest in events)
        invariant (forall i :: 0 <= i < |order| ==> order[i] in events) && oldest == Pick(events, order, "")
      {
        var id :| id in todo;
        todo := todo - {id};
        PickSnoc(events, order, "", id);
        order := order + [id];
        if oldest == "" || events[id] < events[oldest] {
          oldest := id;
        }
      }
      assert events.Keys - todo == events.Keys;
    }

    method EvictOldest() returns (ghost order: seq<Id>)
      modifies this`events, this`logical
      ensures Walks(order, old(events).Keys) && Value() == WithoutOldest(old(Value()), order)
    {
      var oldest;
      oldest, order := FindOldest();
      if oldest == "" {
        return;
      }
      ghost var was := logical;
      events := events - {oldest};
      ghost var left := events;
      var keys := logical.Keys;
      while keys != {}
        invariant keys <= was.Keys && events == left
        invariant logical == map key | key in was && (key in keys || was[key] != oldest) :: was[key]
      {
        var key :| key in keys;
        keys := keys - {key};
        if logical[key] == oldest {
          logical := logical - {key};
        }
      }
    }

    method Observe(id: Id, key: Text, now: int) returns (verdict: Verdict, ghost order: seq<Id>)
      modifies this`events, this`logical
      ensures Walks(order, Forgotten(old(Value()), now, limits.ttl).events.Keys)
      ensures (Value(), verdict) == Observed(old(Value()), order, id, key, now, limits)
    {
      EvictExpired(now);
      order := SomeWalk(events.Keys);
      if id in events {
        return Duplicate, order;
      }
      if key in logical {
        return if logical[key] == id then Duplicate else Conflict, order;
      }
      if |events| >= limits.maxEntries {
        order := EvictOldest();
      }
      events := events[id := now];
      logical := logical[key := id];
      return New, order;
    }
  }

  lemma {:induction false} PickSnoc(events: map<Id, int>, order: seq<Id>, best: Id, id: Id)
    requires (forall i :: 0 <= i < |order| ==> order[i] in events) && (best == "" || best in events) && id in events
    ensures var so := Pick(events, order, best);
      Pick(events, order + [id], best) == if so == "" || events[id] < events[so] then id else so
    decreases |order|
  {
    if order == [] {
      assert [] + [id] == [id];
      assert [id][1..] == [];
    } else {
      assert (order + [id])[1..] == order[1..] + [id];
      PickSnoc(events, order[1..], if best == "" || events[order[0]] < events[best] then order[0] else best, id);
    }
  }

  lemma {:induction false} SomeWalk(ids: set<Id>) returns (order: seq<Id>)
    ensures Walks(order, ids)
  {
    if ids == {} {
      order := [];
    } else {
      var id :| id in ids;
      var rest := SomeWalk(ids - {id});
      order := rest + [id];
    }
  }

  // What the memory keeps

  /** Live events and claimed positions pair off one to one. */
  ghost predicate Paired(m: Memory) {
    (forall key :: key in m.logical ==> m.logical[key] in m.events)
    && (forall a, b :: a in m.logical && b in m.logical && a != b ==> m.logical[a] != m.logical[b])
    && (forall id :: id in m.events ==> exists key :: key in m.logical && m.logical[key] == id)
  }

  ghost predicate DistinctTimes(events: map<Id, int>) {
    forall a, b :: a in events && b in events && a != b ==> events[a] != events[b]
  }

  ghost predicate AllBefore(events: map<Id, int>, now: int) { forall id :: id in events ==> events[id] < now }

  ghost predicate Oldest(events: map<Id, int>, id: Id) {
    id in events && forall other :: other in events ==> events[id] <= events[other]
  }

  /** The inbox between messages. */
  ghost predicate Sound(m: Memory, limits: Limits) {
    Paired(m) && DistinctTimes(m.events) && "" !in m.events && |m.events| <= limits.maxEntries
  }

  lemma ForgottenPaired(m: Memory, now: int, ttl: int)
    requires Paired(m)
    ensures Paired(Forgotten(m, now, ttl))
  {
    var f := Forgotten(m, now, ttl);
    forall id | id in f.events ensures exists key :: key in f.logical && f.logical[key] == id {
      var key :| key in m.logical && m.logical[key] == id;
      assert key in f.logical;
    }
  }

  lemma DroppedPaired(m: Memory, id: Id)
    requires Paired(m)
    ensures Paired(Dropped(m, id))
  {
    var d := Dropped(m, id);
    forall other | other in d.events ensures exists key :: key in d.logical && d.logical[key] == other {
      var key :| key in m.logical && m.logical[key] == other;
      assert key in d.logical;
    }
  }

  lemma AddedPaired(m: Memory, id: Id, key: Text, now: int)
    requires Paired(m) && id !in m.events && key !in m.logical
    ensures Paired(Memory(m.events[id := now], m.logical[key := id]))
  {
    var a := Memory(m.events[id := now], m.logical[key := id]);
    forall other | other in a.events ensures exists k :: k in a.logical && a.logical[k] == other {
      if other == id {
        assert key in a.logical && a.logical[key] == id;
      } else {
        var k :| k in m.logical && m.logical[k] == other;
        assert k in a.logical && a.logical[k] == other;
      }
    }
  }

  /** Without the empty identifier the walk finds the oldest entry, whatever order it takes. */
  lemma {:induction false} PickOldest(events: map<Id, int>, order: seq<Id>, best: Id)
    requires (forall i :: 0 <= i < |order| ==> order[i] in events) && (best == "" || best in events) && "" !in events
    requires order != [] || best != ""
    ensures Pick(events, order, best) in events
    ensures best != "" ==> events[Pick(events, order, best)] <= events[best]
    ensures forall i :: 0 <= i < |order| ==> events[Pick(events, order, best)] <= events[order[i]]
    decreases |order|
  {
    if order != [] {
      PickOldest(events, order[1..], if best == "" || events[order[0]] < events[best] then order[0] else best);
      forall i | 0 <= i < |order| ensures events[Pick(events, order, best)] <= events[order[i]] {
        if i > 0 { assert order[i] == order[1..][i - 1]; }
      }
    }
  }

  lemma EvictsOldest(m: Memory, order: seq<Id>)
    requires Walks(order, m.events.Keys) && m.events != map[] && "" !in m.events
    ensures exists id :: Oldest(m.events, id) && WithoutOldest(m, order) == Dropped(m, id)
  {
    InOrder(order, m.events.Keys);
    var some :| some in m.events;
    assert some in order;
    PickOldest(m.events, order, "");
    var id := Pick(m.events, order, "");
    forall other | other in m.events ensures m.events[id] <= m.events[other] {
      assert other in order;
    }
    assert Oldest(m.events, id);
  }

  /** With an entry that has no identifier and is the oldest, the walk that meets it last evicts nothing. */
  lemma EmptyIdentifierStays(m: Memory, order: seq<Id>)
    requires Walks(order, m.events.Keys) && Oldest(m.events, "") && DistinctTimes(m.events)
    requires order != [] && order[|order| - 1] == ""
    ensures WithoutOldest(m, order) == m
  {
    InOrder(order, m.events.Keys);
    var front := order[..|order| - 1];
    assert order == front + [""];
    assert forall i :: 0 <= i < |front| ==> front[i] == order[i];
    PickSnoc(m.events, front, "", "");
  }

  /** An entry that has an identifier and is older than every other is found, whatever order the walk takes. */
  lemma {:induction false} PickFinds(events: map<Id, int>, order: seq<Id>, best: Id, a: Id)
    requires (forall i :: 0 <= i < |order| ==> order[i] in events) && (best == "" || best in events)
    requires a in events && a != "" && (a in order || best == a)
    requires forall other :: other in events && other != a ==> events[a] < events[other]
    ensures Pick(events, order, best) == a
    decreases |order|
  {
    if order != [] {
      assert a in order ==> a == order[0] || a in order[1..];
      PickFinds(events, order[1..], if best == "" || events[order[0]] < events[best] then order[0] else best, a);
    }
  }

  ghost predicate AlwaysEvictsOldest(m: Memory) {
    forall order :: Walks(order, m.events.Keys) ==>
      exists id :: Oldest(m.events, id) && WithoutOldest(m, order) == Dropped(m, id)
  }

  lemma {:induction false} SomeOldest(events: map<Id, int>) returns (id: Id)
    requires events != map[]
    ensures Oldest(events, id)
  {
    var first :| first in events;
    id := first;
    var rest := events - {first};
    assert forall x :: x in events ==> x == first || x in rest;
    if rest != map[] {
      var other := SomeOldest(rest);
      assert forall x :: x in rest ==> events[other] <= rest[x] == events[x];
      if events[other] < events[first] { id := other; }
    }
  }

  /** Making room drops the oldest entry in every order exactly when that entry has an identifier. */
  lemma EvictsOldestIff(m: Memory)
    requires m.events != map[] && DistinctTimes(m.events)
    ensures AlwaysEvictsOldest(m) <==> !Oldest(m.events, "")
  {
    if Oldest(m.events, "") {
      var front := SomeWalk(m.events.Keys - {""});
      var order := front + [""];
      assert Walks(order, m.events.Keys);
      EmptyIdentifierStays(m, order);
      forall id | id in m.events ensures WithoutOldest(m, order) != Dropped(m, id) {
        assert id !in Dropped(m, id).events;
      }
    } else {
      var a := SomeOldest(m.events);
      forall order | Walks(order, m.events.Keys)
        ensures exists id :: Oldest(m.events, id) && WithoutOldest(m, order) == Dropped(m, id)
      {
        InOrder(order, m.events.Keys);
        PickFinds(m.events, order, "", a);
        assert Oldest(m.events, a) && WithoutOldest(m, order) == Dropped(m, a);
      }
    }
  }

  /** One message can take the cache above its limit exactly when it is full and its oldest entry has no identifier. */
  lemma AboveLimitIff(m: Memory, id: Id, key: Text, now: int, limits: Limits)
    requires var f := Forgotten(m, now, limits.ttl);
      limits.maxEntries > 0 && DistinctTimes(f.events) && |f.events| <= limits.maxEntries
      && id !in f.events && key !in f.logical
    ensures var f := Forgotten(m, now, limits.ttl);
      (exists order :: Walks(order, f.events.Keys)
        && |Observed(m, order, id, key, now, limits).0.events| > limits.maxEntries) <==>
      (|f.events| == limits.maxEntries && Oldest(f.events, ""))
  {
    var f := Forgotten(m, now, limits.ttl);
    hide Forgotten, Pick, WithoutOldest, Dropped;
    if |f.events| == limits.maxEntries {
      EvictsOldestIff(f);
      if Oldest(f.events, "") {
        var front := SomeWalk(f.events.Keys - {""});
        var order := front + [""];
        assert Walks(order, f.events.Keys);
        EmptyIdentifierStays(f, order);
        GrowsByOne(f.events, id, now);
      } else {
        hide Walks;
        forall order | Walks(order, f.events.Keys)
          ensures |Observed(m, order, id, key, now, limits).0.events| <= limits.maxEntries
        {
          var gone :| Oldest(f.events, gone) && WithoutOldest(f, order) == Dropped(f, gone);
          DroppedFewer(f, gone);
          GrowsByOne(Dropped(f, gone).events, id, now);
        }
      }
    } else {
      GrowsByOne(f.events, id, now);
    }
  }

  lemma DroppedFewer(m: Memory, id: Id)
    requires id in m.events
    ensures |Dropped(m, id).events| < |m.events|
  {
    assert (m.events - {id}).Keys == m.events.Keys - {id};
  }

  lemma GrowsByOne(events: map<Id, int>, id: Id, now: int)
    ensures |events[id := now]| <= |events| + 1 && (id !in events ==> |events[id := now]| == |events| + 1)
  {
    assert events[id := now].Keys == events.Keys + {id};
  }

  /** What one message keeps, when identifiers are not empty and the clock moves forward. */
  lemma ObserveSound(m: Memory, order: seq<Id>, id: Id, key: Text, now: int, limits: Limits)
    requires Sound(m, limits) && limits.maxEntries > 0 && limits.ttl > 0 && id != "" && AllBefore(m.events, now)
    requires Walks(order, Forgotten(m, now, limits.ttl).events.Keys)
    ensures Sound(Observed(m, order, id, key, now, limits).0, limits)
    ensures AllBefore(Observed(m, order, id, key, now, limits).0.events, now + 1)
  {
    hide Forgotten, Paired, DistinctTimes, Room, Sound, Walks;
    var f := Forgotten(m, now, limits.ttl);
    ForgottenSound(m, now, limits);
    if id !in f.events && key !in f.logical {
      RoomSound(f, order, limits);
      RoomAdds(f, Room(f, order, limits), id, key, now, limits);
    }
  }

  lemma RoomAdds(f: Memory, room: Memory, id: Id, key: Text, now: int, limits: Limits)
    requires Sound(room, limits) && |room.events| < limits.maxEntries && AllBefore(f.events, now)
    requires room.events.Keys <= f.events.Keys && room.logical.Keys <= f.logical.Keys
    requires forall id :: id in room.events ==> room.events[id] == f.events[id]
    requires id != "" && id !in f.events && key !in f.logical
    ensures Sound(Memory(room.events[id := now], room.logical[key := id]), limits)
    ensures AllBefore(room.events[id := now], now + 1) && Newer(room.events[id := now], now) == {}
  {
    assert AllBefore(room.events, now) by {
      hide Sound;
    }
    AddedSound(room, id, key, now, limits);
    hide Sound;
  }

  lemma ForgottenSound(m: Memory, now: int, limits: Limits)
    requires Sound(m, limits)
    ensures Sound(Forgotten(m, now, limits.ttl), limits)
    ensures AllBefore(m.events, now) ==> AllBefore(Forgotten(m, now, limits.ttl).events, now)
  {
    ForgottenPaired(m, now, limits.ttl);
    hide Paired;
    SmallerMap(Forgotten(m, now, limits.ttl).events, m.events);
  }

  lemma RoomSound(f: Memory, order: seq<Id>, limits: Limits)
    requires Sound(f, limits) && limits.maxEntries > 0 && Walks(order, f.events.Keys)
    ensures Sound(Room(f, order, limits), limits) && |Room(f, order, limits).events| < limits.maxEntries
    ensures Room(f, order, limits).events.Keys <= f.events.Keys && Room(f, order, limits).logical.Keys <= f.logical.Keys
    ensures forall id :: id in Room(f, order, limits).events ==> Room(f, order, limits).events[id] == f.events[id]
  {
    hide Paired;
    if |f.events| >= limits.maxEntries {
      EvictsOldest(f, order);
      var oldest :| Oldest(f.events, oldest) && Room(f, order, limits) == Dropped(f, oldest);
      DroppedPaired(f, oldest);
      DropOne(f.events, oldest);
    }
  }

  lemma AddedSound(room: Memory, id: Id, key: Text, now: int, limits: Limits)
    requires Sound(room, limits) && |room.events| < limits.maxEntries && AllBefore(room.events, now)
    requires id != "" && id !in room.events && key !in room.logical
    ensures Sound(Memory(room.events[id := now], room.logical[key := id]), limits)
  {
    AddedPaired(room, id, key, now);
    hide Paired;
  }

  lemma {:induction false} SmallerMap(a: map<Id, int>, b: map<Id, int>)
    requires a.Keys <= b.Keys
    ensures |a| <= |b|
  {
    Fewer(a.Keys, b.Keys);
    assert |a.Keys| == |a| && |b.Keys| == |b|;
  }

  lemma {:induction false} Fewer(a: set<Id>, b: set<Id>)
    requires a <= b
    ensures |a| <= |b|
  {
    if a != {} {
      var x :| x in a;
      Fewer(a - {x}, b - {x});
    }
  }

  lemma DropOne(m: map<Id, int>, id: Id)
    requires id in m
    ensures |m - {id}| == |m| - 1
  {
    assert (m - {id}).Keys == m.Keys - {id};
    assert |m.Keys| == |m| && |(m - {id}).Keys| == |m - {id}|;
  }

  // The window

  ghost function Newer(events: map<Id, int>, t: int): set<Id> { set id | id in events && events[id] > t }

  /** The memory holds this message, and at most n others came after it. */
  ghost predicate Holds(m: Memory, id: Id, key: Text, t: int, n: nat) {
    id in m.events && m.events[id] == t && key in m.logical && m.logical[key] == id && |Newer(m.events, t)| <= n
  }

  /** With room for n others after it, an entry that is not the only old one survives making room. */
  lemma RoomKeeps(f: Memory, order: seq<Id>, limits: Limits, id: Id, key: Text, t: int, n: nat)
    requires Holds(f, id, key, t, n) && DistinctTimes(f.events) && "" !in f.events && n + 1 < limits.maxEntries
    requires Walks(order, f.events.Keys)
    ensures Holds(Room(f, order, limits), id, key, t, n)
  {
    if |f.events| >= limits.maxEntries {
      EvictsOldest(f, order);
      var oldest :| Oldest(f.events, oldest) && Room(f, order, limits) == Dropped(f, oldest);
      var before := SomethingOlder(f.events, id, n, limits.maxEntries);
      assert f.events[oldest] <= f.events[before] < t;
      Fewer(Newer(f.events - {oldest}, t), Newer(f.events, t));
    }
  }

  lemma SomethingOlder(events: map<Id, int>, id: Id, n: nat, max: int) returns (before: Id)
    requires id in events && DistinctTimes(events) && |Newer(events, events[id])| <= n && n + 1 < max <= |events|
    ensures before in events && events[before] < events[id]
  {
    var older := set other | other in events && events[other] < events[id];
    assert events.Keys == Newer(events, events[id]) + older + {id};
    assert |events.Keys| == |events| && |Newer(events, events[id]) + older + {id}| <= n + |older| + 1;
    before :| before in older;
  }

  lemma ForgottenHolds(m: Memory, now: int, ttl: int, id: Id, key: Text, t: int, n: nat)
    requires Holds(m, id, key, t, n) && t >= now - ttl
    ensures Holds(Forgotten(m, now, ttl), id, key, t, n)
  {
    Fewer(Newer(Forgotten(m, now, ttl).events, t), Newer(m.events, t));
  }

  /** While it holds, the same event is a duplicate and another event claiming its position a conflict. */
  lemma ObserveHolds(m: Memory, order: seq<Id>, other: Id, claim: Text, now: int, limits: Limits,
                     id: Id, key: Text, t: int, n: nat)
    requires Sound(m, limits) && Holds(m, id, key, t, n) && now - t <= limits.ttl
    requires Walks(order, Forgotten(m, now, limits.ttl).events.Keys)
    ensures other == id ==> Observed(m, order, other, claim, now, limits).1 == Duplicate
    ensures claim == key && other !in Forgotten(m, now, limits.ttl).events ==>
      Observed(m, order, other, claim, now, limits).1 == Conflict
    ensures Observed(m, order, other, claim, now, limits).1 != New ==>
      Holds(Observed(m, order, other, claim, now, limits).0, id, key, t, n)
    ensures Observed(m, order, other, claim, now, limits).1 == New && n + 1 < limits.maxEntries ==>
      Holds(Observed(m, order, other, claim, now, limits).0, id, key, t, n + 1)
  {
    var f := Forgotten(m, now, limits.ttl);
    ForgottenHolds(m, now, limits.ttl, id, key, t, n);
    var (after, verdict) := Observed(m, order, other, claim, now, limits);
    if verdict == New && n + 1 < limits.maxEntries {
      RoomKeeps(f, order, limits, id, key, t, n);
      var room := Room(f, order, limits);
      Fewer(Newer(after.events, t), Newer(room.events, t) + {other});
    }
  }

  // Runs

  datatype Message = Message(id: Id, key: Text, now: int, order: seq<Id>)

  /** Each message in turn, with what the clock read and the order its walk took. */
  ghost predicate Run(m: Memory, messages: seq<Message>, limits: Limits)
    decreases |messages|
  {
    messages == [] ||
    (Walks(messages[0].order, Forgotten(m, messages[0].now, limits.ttl).events.Keys)
     && Run(First(m, messages, limits).0, messages[1..], limits))
  }

  ghost function First(m: Memory, messages: seq<Message>, limits: Limits): (Memory, Verdict)
    requires messages != [] && Walks(messages[0].order, Forgotten(m, messages[0].now, limits.ttl).events.Keys)
  {
    Observed(m, messages[0].order, messages[0].id, messages[0].key, messages[0].now, limits)
  }

  ghost function After(m: Memory, messages: seq<Message>, limits: Limits): Memory
    requires Run(m, messages, limits)
    decreases |messages|
  {
    if messages == [] then m else After(First(m, messages, limits).0, messages[1..], limits)
  }

  /** How many messages were new. */
  ghost function News(m: Memory, messages: seq<Message>, limits: Limits): nat
    requires Run(m, messages, limits)
    decreases |messages|
  {
    if messages == [] then 0
    else
      (if First(m, messages, limits).1 == New then 1 else 0) + News(First(m, messages, limits).0, messages[1..], limits)
  }

  ghost predicate Proper(messages: seq<Message>, from: int) {
    (forall i :: 0 <= i < |messages| ==> messages[i].id != "" && messages[i].now > from)
    && (forall i, j :: 0 <= i < j < |messages| ==> messages[i].now < messages[j].now)
  }

  lemma ProperRest(messages: seq<Message>, from: int)
    requires messages != [] && Proper(messages, from)
    ensures Proper(messages[1..], messages[0].now)
  {
    forall i | 0 <= i < |messages[1..]| ensures messages[1..][i] == messages[i + 1] {}
  }

  /** Every run keeps the pairing and never outgrows the limit. */
  lemma {:induction false} RunSound(m: Memory, messages: seq<Message>, limits: Limits, from: int)
    requires Sound(m, limits) && limits.maxEntries > 0 && limits.ttl > 0 && AllBefore(m.events, from + 1)
    requires Run(m, messages, limits) && Proper(messages, from)
    ensures Sound(After(m, messages, limits), limits)
    decreases |messages|
  {
    if messages != [] {
      var e := messages[0];
      ObserveSound(m, e.order, e.id, e.key, e.now, limits);
      ProperRest(messages, from);
      RunSound(First(m, messages, limits).0, messages[1..], limits, e.now);
    }
  }

  /** A message stays held through a run that stays within its lifetime and brings fewer than the limit of new ones. */
  lemma {:induction false} RunHolds(m: Memory, messages: seq<Message>, limits: Limits, from: int, id: Id, key: Text,
                                    t: int, n: nat)
    requires Sound(m, limits) && limits.maxEntries > 0 && limits.ttl > 0 && AllBefore(m.events, from + 1)
    requires Run(m, messages, limits) && Proper(messages, from) && Holds(m, id, key, t, n)
    requires n + News(m, messages, limits) < limits.maxEntries
    requires messages != [] ==> messages[|messages| - 1].now - t <= limits.ttl
    ensures Holds(After(m, messages, limits), id, key, t, n + News(m, messages, limits))
    decreases |messages|
  {
    hide Sound, Observed, Forgotten, Holds, Walks;
    if messages != [] {
      var e := messages[0];
      assert e.now <= messages[|messages| - 1].now;
      var next := First(m, messages, limits).0;
      ObserveSound(m, e.order, e.id, e.key, e.now, limits);
      ObserveHolds(m, e.order, e.id, e.key, e.now, limits, id, key, t, n);
      ProperRest(messages, from);
      var k := if First(m, messages, limits).1 == New then n + 1 else n;
      if |messages| > 1 {
        assert messages[1..][|messages[1..]| - 1] == messages[|messages| - 1];
      }
      RunHolds(next, messages[1..], limits, e.now, id, key, t, k);
    }
  }

  /**
   After a message was new, every message within its lifetime and before the limit
   of further new ones is judged against it: the same event is a duplicate, and
   another unseen event claiming its position is a conflict.
   */
  lemma WindowHolds(m: Memory, first: Message, messages: seq<Message>, last: Message, limits: Limits, from: int)
    requires Sound(m, limits) && limits.maxEntries > 0 && limits.ttl > 0 && AllBefore(m.events, from + 1)
    requires Proper([first] + messages + [last], from) && Run(m, [first], limits)
    requires First(m, [first], limits).1 == New && Run(First(m, [first], limits).0, messages, limits)
    requires News(First(m, [first], limits).0, messages, limits) < limits.maxEntries
    requires last.now - first.now <= limits.ttl
    requires var s := After(First(m, [first], limits).0, messages, limits);
      Walks(last.order, Forgotten(s, last.now, limits.ttl).events.Keys)
    ensures var s := After(First(m, [first], limits).0, messages, limits);
      var verdict := Observed(s, last.order, last.id, last.key, last.now, limits).1;
      (last.id == first.id ==> verdict == Duplicate)
      && (last.key == first.key && last.id !in Forgotten(s, last.now, limits.ttl).events ==> verdict == Conflict)
  {
    hide Observed, Paired, Sound, AllBefore, Proper;
    var next := First(m, [first], limits).0;
    Ends(first, messages, last, from);
    Middle(first, messages, last, from);
    NewIsHeld(m, first, limits, from);
    HeldThrough(next, first, messages, last, limits);
    hide After, News, First, Forgotten, Holds, Run;
    var s := After(next, messages, limits);
    ObserveHolds(s, last.order, last.id, last.key, last.now, limits, first.id, first.key, first.now,
      News(next, messages, limits));
  }

  lemma HeldThrough(next: Memory, first: Message, messages: seq<Message>, last: Message, limits: Limits)
    requires Sound(next, limits) && limits.maxEntries > 0 && limits.ttl > 0 && AllBefore(next.events, first.now + 1)
    requires Holds(next, first.id, first.key, first.now, 0) && Proper(messages, first.now)
    requires messages != [] ==> messages[|messages| - 1].now < last.now
    requires Run(next, messages, limits) && News(next, messages, limits) < limits.maxEntries
    requires last.now - first.now <= limits.ttl
    ensures Sound(After(next, messages, limits), limits)
    ensures Holds(After(next, messages, limits), first.id, first.key, first.now, News(next, messages, limits))
  {
    hide Sound, AllBefore, Holds, Proper, After, News;
    RunSound(next, messages, limits, first.now);
    RunHolds(next, messages, limits, first.now, first.id, first.key, first.now, 0);
  }

  lemma Ends(first: Message, messages: seq<Message>, last: Message, from: int)
    requires Proper([first] + messages + [last], from)
    ensures first.id != "" && first.now > from && first.now < last.now
  {
    var all := [first] + messages + [last];
    assert all[0] == first && all[|all| - 1] == last;
  }

  lemma NewIsHeld(m: Memory, first: Message, limits: Limits, from: int)
    requires Sound(m, limits) && limits.maxEntries > 0 && limits.ttl > 0 && AllBefore(m.events, from + 1)
    requires first.id != "" && first.now > from && Run(m, [first], limits) && First(m, [first], limits).1 == New
    ensures Sound(First(m, [first], limits).0, limits)
    ensures AllBefore(First(m, [first], limits).0.events, first.now + 1)
    ensures Holds(First(m, [first], limits).0, first.id, first.key, first.now, 0)
  {
    hide Forgotten, Paired, DistinctTimes, Room, Sound, Walks, Newer;
    var f := Forgotten(m, first.now, limits.ttl);
    assert [first][0] == first;
    ForgottenSound(m, first.now, limits);
    RoomSound(f, first.order, limits);
    RoomAdds(f, Room(f, first.order, limits), first.id, first.key, first.now, limits);
  }

  lemma Middle(first: Message, messages: seq<Message>, last: Message, from: int)
    requires Proper([first] + messages + [last], from)
    ensures Proper(messages, first.now) && (messages != [] ==> messages[|messages| - 1].now < last.now)
  {
    var all := [first] + messages + [last];
    forall i | 0 <= i < |messages| ensures messages[i] == all[i + 1] {}
    assert all[|all| - 1] == last && all[0] == first;
    forall i, j | 0 <= i < j < |messages| ensures messages[i].now < messages[j].now {
      assert all[i + 1].now < all[j + 1].now;
    }
  }

  // The text of a position

  datatype LogicalKey = LogicalKey(session: Text, kind: Text, seq_: nat)

  const BAR: byte := 124

  function KeyText(k: LogicalKey): Text { k.session + [BAR] + k.kind + [BAR] + Digits(k.seq_) }

  lemma BarWithin(a: Text, x: Text, b: Text, y: Text)
    requires a + [BAR] + x == b + [BAR] + y && |a| < |b|
    ensures BAR in x
  {
    assert (b + [BAR] + y)[|b|] == BAR;
    assert (a + [BAR] + x)[|b|] == x[|b| - |a| - 1];
  }

  /** A text splits at its last bar in one way. */
  lemma LastBar(a: Text, x: Text, b: Text, y: Text)
    requires a + [BAR] + x == b + [BAR] + y && BAR !in x && BAR !in y
    ensures a == b && x == y
  {
    var whole := a + [BAR] + x;
    if |a| < |b| { BarWithin(a, x, b, y); }
    if |b| < |a| { BarWithin(b, y, a, x); }
    assert whole[..|a|] == a && whole[..|b|] == b;
    assert whole[|a| + 1..] == x && whole[|b| + 1..] == y;
  }

  /** Positions of different sessions, types or numbers never share a text, since no message type holds a bar. */
  lemma KeyTextInjective(a: LogicalKey, b: LogicalKey)
    requires BAR !in a.kind && BAR !in b.kind
    ensures KeyText(a) == KeyText(b) <==> a == b
  {
    if KeyText(a) == KeyText(b) {
      DigitsLength(a.seq_);
      DigitsLength(b.seq_);
      LastBar(a.session + [BAR] + a.kind, Digits(a.seq_), b.session + [BAR] + b.kind, Digits(b.seq_));
      DigitsInjective(a.seq_, b.seq_);
      LastBar(a.session, a.kind, b.session, b.kind);
    }
  }
}
