/**
 The sessions a responder has answered, across restarts
 (internal/orchestrator/driver.go and cmd/nostmesh/answeredstore.go). Times are
 in nanoseconds; the file holds whole seconds.
 */
module Answered {
  import opened Wrappers

  type Session = nat

  const SECOND := 1_000_000_000
  const RETENTION := 3600 * SECOND

  function Unix(t: int): int { t / SECOND }

  /** A time as it comes back from the file. */
  function Stored(t: int): int { Unix(t) * SECOND }

  function Kept(seen: map<Session, int>, now: int): map<Session, int> {
    map s | s in seen && seen[s] >= now - RETENTION :: seen[s]
  }

  function Written(seen: map<Session, int>): map<Session, int> { map s | s in seen :: Unix(seen[s]) }

  function ReadBack(file: map<Session, int>): map<Session, int> { map s | s in file :: file[s] * SECOND }

  /** The file a run leaves behind; a rename replaces it whole. */
  class Store {
    var file: map<Session, int>

    constructor ()
      ensures file == map[]
    {
      file := map[];
    }

    /** A save that fails leaves the file as it was. */
    method Save(seen: map<Session, int>) returns (ok: bool)
      modifies this
      ensures file == if ok then Written(seen) else old(file)
    {
      var record: map<Session, int> := map[];
      var todo := seen.Keys;
      while todo != {}
        invariant todo <= seen.Keys && record == map s | s in seen && s !in todo :: Unix(seen[s])
      {
        var s :| s in todo;
        todo := todo - {s};
        record := record[s := Unix(seen[s])];
      }
      ok := false;
      if * {
        file, ok := record, true;
      }
    }

    method Load() returns (r: Option<map<Session, int>>)
      ensures r.Some? ==> r.value == ReadBack(file)
    {
      if * {
        return None;
      }
      var answered: map<Session, int> := map[];
      var todo := file.Keys;
      while todo != {}
        invariant todo <= file.Keys && answered == map s | s in file && s !in todo :: file[s] * SECOND
      {
        var s :| s in todo;
        todo := todo - {s};
        answered := answered[s := file[s] * SECOND];
      }
      return Some(answered);
    }
  }

  class AnsweredSessions {
    const store: Store
    var seen: map<Session, int>

    /** Whether what the last process left could be read. */
    const loaded: bool

    /** A process that starts takes up what the last one left; where it cannot, it starts with nothing. */
    constructor WithStore(store: Store, now: int)
      ensures this.store == store
      ensures State(seen, store.file) == Next(State(map[], store.file), Restart(now, loaded))
    {
      var found := store.Load();
      this.store, loaded := store, found.Some?;
      seen := if found.Some? then found.value else map[];
      new;
      if loaded {
        Evict(now);
      }
    }

    method Evict(now: int)
      modifies this
      ensures seen == Kept(old(seen), now)
    {
      ghost var was := seen;
      var todo := seen.Keys;
      while todo != {}
        invariant todo <= was.Keys
        invariant seen == map s | s in was && (s in todo || was[s] >= now - RETENTION) :: was[s]
      {
        var s :| s in todo;
        todo := todo - {s};
        if seen[s] < now - RETENTION {
          seen := seen - {s};
        }
      }
    }

    method Contains(s: Session, now: int) returns (r: bool)
      modifies this
      ensures seen == Kept(old(seen), now) && r == (s in seen)
    {
      Evict(now);
      return s in seen;
    }

    /** The failure of a save is ignored. */
    method Add(s: Session, evict: int, now: int) returns (saved: bool)
      modifies this, store
      ensures seen == Kept(old(seen), evict)[s := now]
      ensures store.file == if saved then Written(seen) else old(store.file)
    {
      Evict(evict);
      seen := seen[s := now];
      saved := store.Save(seen);
    }

    /** A request is answered only if its session was not. The clock is read for the look, the clearing and the entry. */
    method Settle(s: Session, look: int, evict: int, now: int) returns (settled: bool, saved: bool)
      modifies this, store
      ensures State(seen, store.file) == Next(State(old(seen), old(store.file)), Request(s, look, evict, now, saved))
      ensures settled == Settles(State(old(seen), old(store.file)), Request(s, look, evict, now, saved))
    {
      var tried := Contains(s, look);
      if tried {
        return false, false;
      }
      saved := Add(s, evict, now);
      return true, saved;
    }
  }

  // Runs: requests, looks and restarts in any order, on a clock that never goes back

  datatype State = State(seen: map<Session, int>, file: map<Session, int>)

  /** The clock is read once for a look and for a restart, and three times for a request that is answered. */
  datatype Event =
    | Request(session: Session, look: int, evict: int, now: int, saved: bool)
    | Look(session: Session, now: int)
    | Restart(now: int, loaded: bool)
  {
    function Start(): int { if Request? then look else now }

    predicate InOrder() { Request? ==> look <= evict <= now }
  }

  predicate Settles(y: State, e: Event) { e.Request? && e.session !in Kept(y.seen, e.look) }

  function Next(y: State, e: Event): State {
    match e
    case Request(s, look, evict, now, saved) =>
      if s in Kept(y.seen, look) then y.(seen := Kept(y.seen, look))
      else
        var seen := Kept(Kept(y.seen, look), evict)[s := now];
        State(seen, if saved then Written(seen) else y.file)
    case Look(_, now) => y.(seen := Kept(y.seen, now))
    case Restart(now, loaded) => y.(seen := if loaded then Kept(ReadBack(y.file), now) else map[])
  }

  function After(y: State, events: seq<Event>): State
    decreases |events|
  {
    if events == [] then y else After(Next(y, events[0]), events[1..])
  }

  predicate Forward(events: seq<Event>, from: int) {
    (forall i :: 0 <= i < |events| ==> events[i].InOrder() && events[i].Start() >= from)
    && (forall i, j :: 0 <= i < j < |events| ==> events[i].now <= events[j].Start())
  }

  /** Everything is over by then. */
  predicate Within(events: seq<Event>, end: int) { forall i :: 0 <= i < |events| ==> events[i].now <= end }

  /** A session answered at t is remembered no earlier than the second it was answered in. */
  predicate Remembers(y: State, s: Session, t: int) { s in y.seen && y.seen[s] >= Stored(t) }

  predicate OnFile(y: State, s: Session, t: int) { s in y.file && y.file[s] >= Unix(t) }

  /** Whenever the process restarts it can read its file, and finds the session there. */
  predicate Survives(y: State, events: seq<Event>, s: Session, t: int)
    decreases |events|
  {
    events == [] ||
    ((events[0].Restart? ==> events[0].loaded && OnFile(y, s, t)) && Survives(Next(y, events[0]), events[1..], s, t))
  }

  lemma StoredWithin(t: int)
    ensures t - SECOND < Stored(t) <= t && Unix(Stored(t)) == Unix(t)
  {
  }

  lemma UnixGrows(a: int, b: int)
    requires a <= b
    ensures Unix(a) <= Unix(b)
  {
  }

  /** Until the retention runs out, only a restart that does not find it forgets a session. */
  lemma NextRemembers(y: State, e: Event, s: Session, t: int)
    requires Remembers(y, s, t) && e.InOrder() && t <= e.Start() <= Stored(t) + RETENTION
    ensures e.Request? && e.session == s ==> !Settles(y, e)
    ensures e.now <= Stored(t) + RETENTION ==>
      (Remembers(Next(y, e), s, t) <==> (e.Restart? ==> e.loaded && OnFile(y, s, t)))
  {
    StoredWithin(t);
    UnixGrows(Stored(t), y.seen[s]);
    if e.Request? && e.session != s && e.now <= Stored(t) + RETENTION {
      assert Kept(Kept(y.seen, e.look), e.evict)[e.session := e.now][s] == y.seen[s];
    }
    if e.Restart? && e.loaded && s in y.file && y.file[s] < Unix(t) {
      assert y.file[s] * SECOND < Stored(t);
    }
  }

  lemma {:induction false} RunRemembers(y: State, events: seq<Event>, s: Session, t: int)
    requires Remembers(y, s, t) && Forward(events, t) && Within(events, Stored(t) + RETENTION) && Survives(y, events, s, t)
    ensures Remembers(After(y, events), s, t)
    decreases |events|
  {
    if events != [] {
      assert events[0].InOrder() && events[0].Start() >= t && events[0].now <= Stored(t) + RETENTION;
      NextRemembers(y, events[0], s, t);
      hide Remembers, Next;
      ForwardTail(events, t);
      RunRemembers(Next(y, events[0]), events[1..], s, t);
    }
  }

  lemma ForwardTail(events: seq<Event>, from: int)
    requires events != [] && Forward(events, from)
    ensures Forward(events[1..], from)
  {
    var rest := events[1..];
    forall i | 0 <= i < |rest| ensures rest[i] == events[i + 1] {}
  }

  /**
   Whatever happens in between, restarts included as long as they find it, a session
   settled at one time is settled again only after the retention, less the part of a
   second the file drops.
   */
  lemma AtMostOneAnswer(y: State, first: Event, between: seq<Event>, again: Event)
    requires Settles(y, first) && Settles(After(Next(y, first), between), again) && again.session == first.session
    requires Forward([first] + between + [again], first.look)
    requires Survives(Next(y, first), between, first.session, first.now)
    ensures again.look > Stored(first.now) + RETENTION
    ensures again.look > first.now + RETENTION - SECOND
  {
    StoredWithin(first.now);
    if again.look <= Stored(first.now) + RETENTION {
      NotYetAgain(y, first, between, again);
    }
  }

  lemma NotYetAgain(y: State, first: Event, between: seq<Event>, again: Event)
    requires Settles(y, first) && again.Request? && again.session == first.session
    requires Forward([first] + between + [again], first.look) && again.look <= Stored(first.now) + RETENTION
    requires Survives(Next(y, first), between, first.session, first.now)
    ensures !Settles(After(Next(y, first), between), again)
  {
    StoredWithin(first.now);
    BetweenForward(first, between, again);
    RunRemembers(Next(y, first), between, first.session, first.now);
    NextRemembers(After(Next(y, first), between), again, first.session, first.now);
  }

  lemma BetweenForward(first: Event, between: seq<Event>, again: Event)
    requires first.Request? && Forward([first] + between + [again], first.look)
    ensures Forward(between, first.now) && Within(between, again.Start()) && again.Start() >= first.now && again.InOrder()
  {
    var all := [first] + between + [again];
    assert all[0] == first && all[|all| - 1] == again;
    forall i | 0 <= i < |between| ensures between[i] == all[i + 1] {}
    forall i | 0 <= i < |between| ensures between[i].InOrder() && between[i].Start() >= first.now {
      assert all[0].now <= all[i + 1].Start();
    }
    forall i, j | 0 <= i < j < |between| ensures between[i].now <= between[j].Start() {
      assert all[i + 1].now <= all[j + 1].Start();
    }
    forall i | 0 <= i < |between| ensures between[i].now <= again.Start() {
      assert all[i + 1].now <= all[|all| - 1].Start();
    }
  }

  // When a restart finds the session

  /** No process after the first fails to read its file. */
  predicate AllLoaded(events: seq<Event>) { forall i :: 0 <= i < |events| && events[i].Restart? ==> events[i].loaded }

  /** What is on file stays there, since every save writes what is remembered. */
  lemma {:induction false} SavedSurvives(y: State, events: seq<Event>, s: Session, t: int)
    requires Remembers(y, s, t) && OnFile(y, s, t) && AllLoaded(events)
    requires Forward(events, t) && Within(events, Stored(t) + RETENTION)
    ensures Survives(y, events, s, t)
    decreases |events|
  {
    if events != [] {
      var e := events[0];
      assert e.InOrder() && e.Start() >= t && e.now <= Stored(t) + RETENTION;
      StoredWithin(t);
      NextRemembers(y, e, s, t);
      StaysOnFile(y, e, s, t);
      hide Remembers, OnFile, Next;
      ForwardTail(events, t);
      SavedSurvives(Next(y, e), events[1..], s, t);
    }
  }

  lemma StaysOnFile(y: State, e: Event, s: Session, t: int)
    requires Remembers(y, s, t) && OnFile(y, s, t) && Remembers(Next(y, e), s, t)
    ensures OnFile(Next(y, e), s, t)
  {
    StoredWithin(t);
    UnixGrows(Stored(t), Next(y, e).seen[s]);
  }

  /** With its record saved and every later restart reading it, a session is answered once within the retention. */
  lemma SavedAnsweredOnce(y: State, first: Event, between: seq<Event>, again: Event)
    requires Settles(y, first) && first.saved && again.Request? && again.session == first.session && AllLoaded(between)
    requires Forward([first] + between + [again], first.look) && again.look <= Stored(first.now) + RETENTION
    ensures !Settles(After(Next(y, first), between), again)
  {
    StoredWithin(first.now);
    BetweenForward(first, between, again);
    SavedSurvives(Next(y, first), between, first.session, first.now);
    NotYetAgain(y, first, between, again);
  }

  /** A save that failed is ignored, so a restart then forgets the answer: exactly then may it be given again at once. */
  lemma ForgottenIff(y: State, first: Event, restart: int, loaded: bool, again: Event)
    requires Settles(y, first) && again.Request? && again.session == first.session
    requires Forward([first, Restart(restart, loaded), again], first.look) && again.look <= Stored(first.now) + RETENTION
    ensures Settles(Next(Next(y, first), Restart(restart, loaded)), again) <==>
      !(loaded && (first.saved || (first.session in y.file && y.file[first.session] * SECOND >= again.look - RETENTION)))
  {
    var all := [first, Restart(restart, loaded), again];
    assert all[0].InOrder() && all[0].now <= all[1].Start() && all[1].now <= all[2].Start();
    StoredWithin(first.now);
  }

  /** The bound is met: past it, a restart lets the session be answered again. */
  lemma AnsweredAgainAfterRestart(y: State, first: Event, again: Event)
    requires Settles(y, first) && first.saved && again.Request? && again.session == first.session
    requires again.look > Stored(first.now) + RETENTION
    ensures Settles(Next(Next(y, first), Restart(again.look, true)), again)
  {
  }
}
