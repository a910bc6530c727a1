/**
 The probing loop (internal/connectivity/checker.go) against an environment that
 sends anything from anywhere, loses what it likes, and reads the clock as it
 likes.
 */
module Checkers {
  import opened Prefixes
  import opened Bytes
  import opened Probes
  import opened Candidates
  import opened Engines
  import opened Wrappers

  type Nonce = seq<byte>

  datatype Arrival = Arrival(payload: seq<byte>, source: Endpoint)

  /** A challenge that left: its nonce, for which candidate, and to where. */
  datatype Sent = Sent(nonce: Nonce, id: string, address: Endpoint, thirdParty: bool)

  /** A response that promoted a candidate. */
  datatype Promotion = Promotion(nonce: Nonce, id: string)

  /** Candidates are only ever added to, and never moved. */
  ghost predicate Extends(a: Book, b: Book) {
    forall id :: id in a ==> id in b && b[id].address == a[id].address && b[id].kind == a[id].kind
  }

  ghost predicate Bounded(book: Book, cap: nat) { forall id :: id in book ==> book[id].attempts <= cap }

  predicate NominatedVerified(book: Book, nominated: Option<string>) {
    nominated.Some? ==> nominated.value in book && book[nominated.value].status == Verified
  }

  ghost predicate NoRepeats(draws: seq<Nonce>) { forall i, j :: 0 <= i < j < |draws| ==> draws[i] != draws[j] }

  ghost predicate DistinctNonces(promoted: seq<Promotion>) {
    forall i, j :: 0 <= i < j < |promoted| ==> promoted[i].nonce != promoted[j].nonce
  }

  ghost function ThirdPartySent(sent: seq<Sent>): nat {
    if sent == [] then 0
    else ThirdPartySent(sent[..|sent| - 1]) + if sent[|sent| - 1].thirdParty then 1 else 0
  }

  /** A challenge with this nonce went to this candidate's address. */
  ghost predicate Challenged(sent: seq<Sent>, book: Book, n: Nonce, id: string) {
    id in book && exists i :: 0 <= i < |sent| && sent[i].nonce == n && sent[i].id == id && sent[i].address == book[id].address
  }

  predicate Responds(mac: Mac, key: seq<byte>, payload: seq<byte>, n: Nonce) {
    DecodeResponse(mac, key, payload).Authentic? && DecodeResponse(mac, key, payload).probe.nonce == n
  }

  /** An authentic response with this nonce came from this address. */
  ghost predicate AnsweredFrom(heard: set<Arrival>, mac: Mac, key: seq<byte>, n: Nonce, from: Endpoint) {
    exists a :: a in heard && a.source == from && Responds(mac, key, a.payload, n)
  }

  ghost predicate Proven(book: Book, sent: seq<Sent>, heard: set<Arrival>, mac: Mac, key: seq<byte>, id: string)
    requires id in book
  {
    exists n :: Challenged(sent, book, n, id) && AnsweredFrom(heard, mac, key, n, book[id].address)
  }

  /** Every verified candidate was challenged at its address and answered from exactly there. */
  ghost predicate Sound(book: Book, sent: seq<Sent>, heard: set<Arrival>, mac: Mac, key: seq<byte>) {
    forall id :: id in book && book[id].status == Verified ==> Proven(book, sent, heard, mac, key, id)
  }

  ghost predicate AllOutstandingSent(sent: seq<Sent>, book: Book, outstanding: map<Nonce, string>) {
    forall n :: n in outstanding ==> Challenged(sent, book, n, outstanding[n])
  }

  /** As long as no nonce is drawn twice, none promotes twice. */
  ghost predicate PromotesOnce(draws: seq<Nonce>, outstanding: map<Nonce, string>, promoted: seq<Promotion>) {
    (forall n :: n in outstanding ==> n in draws) && (forall i :: 0 <= i < |promoted| ==> promoted[i].nonce in draws)
    && (NoRepeats(draws) ==>
          DistinctNonces(promoted) && forall i :: 0 <= i < |promoted| ==> promoted[i].nonce !in outstanding)
  }

  lemma ChallengedKept(sent: seq<Sent>, sent': seq<Sent>, a: Book, b: Book, n: Nonce, id: string)
    requires Challenged(sent, a, n, id) && Extends(a, b) && sent <= sent'
    ensures Challenged(sent', b, n, id)
  {
    var i :| 0 <= i < |sent| && sent[i].nonce == n && sent[i].id == id && sent[i].address == a[id].address;
    assert sent'[i] == sent[i];
  }

  /** Soundness survives whatever verifies nothing. */
  lemma SoundKept(a: Book, b: Book, sent: seq<Sent>, sent': seq<Sent>, heard: set<Arrival>, heard': set<Arrival>,
                  mac: Mac, key: seq<byte>)
    requires Sound(a, sent, heard, mac, key) && Extends(a, b) && sent <= sent' && heard <= heard'
    requires forall id :: id in b && b[id].status == Verified ==> id in a && a[id].status == Verified
    ensures Sound(b, sent', heard', mac, key)
  {
    hide Responds;
    forall id | id in b && b[id].status == Verified ensures Proven(b, sent', heard', mac, key, id) {
      assert Proven(a, sent, heard, mac, key, id);
      var n :| Challenged(sent, a, n, id) && AnsweredFrom(heard, mac, key, n, a[id].address);
      ChallengedKept(sent, sent', a, b, n, id);
      var r :| r in heard && r.source == a[id].address && Responds(mac, key, r.payload, n);
      assert r in heard';
    }
  }

  lemma OutstandingKept(sent: seq<Sent>, sent': seq<Sent>, a: Book, b: Book, outstanding: map<Nonce, string>)
    requires AllOutstandingSent(sent, a, outstanding) && Extends(a, b) && sent <= sent'
    ensures AllOutstandingSent(sent', b, outstanding)
  {
    forall n | n in outstanding ensures Challenged(sent', b, n, outstanding[n]) {
      ChallengedKept(sent, sent', a, b, n, outstanding[n]);
    }
  }

  /** Why a run ended. */
  datatype Ending = Nominated(id: string) | Exhausted(now: int) | TimedOut(now: int) | Cancelled

  class Checker {
    const engine: Engine
    const mac: Mac
    const key: seq<byte>
    const render: Endpoint -> string
    var outstanding: map<Nonce, string>
    var arrived: nat
    var dropped: nat
    var answered: nat
    ghost var draws: seq<Nonce>
    ghost var sent: seq<Sent>
    ghost var heard: set<Arrival>
    ghost var promoted: seq<Promotion>

    /** How many datagrams the transport refused, and whether the caller has given up. */
    ghost var undelivered: nat
    ghost var cancelled: bool

    constructor (engine: Engine, mac: Mac, key: seq<byte>, render: Endpoint -> string)
      ensures this.engine == engine && this.mac == mac && this.key == key && this.render == render
      ensures outstanding == map[] && arrived == dropped == answered == 0
      ensures draws == [] && sent == [] && heard == {} && promoted == []
    {
      this.engine, this.mac, this.key, this.render := engine, mac, key, render;
      outstanding, arrived, dropped, answered := map[], 0, 0, 0;
      draws, sent, heard, promoted := [], [], {}, [];
      undelivered, cancelled := 0, false;
    }

    /** How often one candidate may be tried. */
    function Cap(): nat { if engine.limits.maxAttempts < 0 then 0 else engine.limits.maxAttempts }

    /** What is remembered is what was done, and verified is proven. */
    ghost predicate Valid()
      reads `outstanding, `draws, `sent, `heard, `promoted, engine
    {
      engine.Valid() && AllOutstandingSent(sent, engine.candidates, outstanding)
      && PromotesOnce(draws, outstanding, promoted)
      && (forall i :: 0 <= i < |sent| ==> SafeTarget(sent[i].address))
      && Sound(engine.candidates, sent, heard, mac, key)
    }

    /** Random bytes: any sixteen. */
    method Draw() returns (n: Nonce)
      modifies this`draws
      ensures |n| == NONCE_SIZE && draws == old(draws) + [n]
    {
      n := *;
      if |n| != NONCE_SIZE {
        n := Zeros(NONCE_SIZE);
      }
      draws := draws + [n];
    }

    method Transmit(target: Endpoint, payload: seq<byte>) returns (ok: bool)
      modifies this`undelivered
      ensures undelivered == old(undelivered) + if ok then 0 else 1
    {
      ok := *;
      if !ok {
        undelivered := undelivered + 1;
      }
    }

    method GaveUp() returns (yes: bool)
      modifies this`cancelled
      ensures cancelled == (old(cancelled) || yes)
    {
      yes := *;
      cancelled := cancelled || yes;
    }

    method SendChallenge(c: Candidate, now: nat) returns (ok: bool, ghost nonce: Nonce)
      requires Valid() && c.id in engine.candidates && engine.candidates[c.id].status != Verified
      requires engine.candidates[c.id].address == c.address && engine.candidates[c.id].kind == c.kind
      modifies this`outstanding, this`draws, this`sent, this`undelivered, engine`candidates
      ensures Valid() && engine.candidates == Attempted(old(engine.candidates), c.id)
      ensures ok == (undelivered == old(undelivered))
      ensures draws == old(draws) + [nonce]
      ensures sent == old(sent) + if ok then [Sent(nonce, c.id, c.address, c.kind.RequiresThirdParty())] else []
      ensures outstanding == if ok then old(outstanding)[nonce := c.id] else old(outstanding)
    {
      assert SafeTarget(engine.candidates[c.id].address);
      hide SafeTarget, PromotesOnce, Sound, AllOutstandingSent, Engine.Valid;
      ghost var log := draws;
      var drawn := Draw();
      nonce := drawn;
      DrawnOnce(log, drawn, outstanding, promoted, c.id);
      var payload := EncodeChallenge(mac, key, drawn, now);
      Attempt(c.id);
      ok := Transmit(c.address, payload);
      if ok {
        Remember(c, drawn);
      }
    }

    method Attempt(id: string)
      requires Valid() && id in engine.candidates && engine.candidates[id].status != Verified
      modifies engine`candidates
      ensures Valid() && engine.candidates == Attempted(old(engine.candidates), id)
    {
      hide Responds, SafeTarget, PromotesOnce, Challenged, Sound, AllOutstandingSent, Engine.Valid;
      ghost var book := engine.candidates;
      var _ := engine.RecordAttempt(id);
      OutstandingKept(sent, sent, book, engine.candidates, outstanding);
      SoundKept(book, engine.candidates, sent, sent, heard, heard, mac, key);
    }

    /** A challenge that left is in flight from here on. */
    method Remember(c: Candidate, nonce: Nonce)
      requires Valid() && c.id in engine.candidates && engine.candidates[c.id].address == c.address && SafeTarget(c.address)
      requires PromotesOnce(draws, outstanding[nonce := c.id], promoted)
      modifies this`outstanding, this`sent
      ensures Valid() && outstanding == old(outstanding)[nonce := c.id]
      ensures sent == old(sent) + [Sent(nonce, c.id, c.address, c.kind.RequiresThirdParty())]
    {
      hide Responds, SafeTarget, PromotesOnce, Challenged, Sound, AllOutstandingSent, Engine.Valid;
      ghost var asked := sent;
      sent := sent + [Sent(nonce, c.id, c.address, c.kind.RequiresThirdParty())];
      outstanding := outstanding[nonce := c.id];
      NowChallenged(asked, sent[|asked|], engine.candidates);
      SentToo(asked, sent, engine.candidates, old(outstanding), nonce, c.id);
      ExtendsSelf(engine.candidates);
      SoundKept(engine.candidates, engine.candidates, asked, sent, heard, heard, mac, key);
    }

    /** Whether a response proves a path: authentic, to a challenge in flight, from the very address challenged. */
    ghost predicate Proves(a: Arrival)
      reads this, engine
    {
      var d := DecodeResponse(mac, key, a.payload);
      d.Authentic? && d.probe.nonce in outstanding && outstanding[d.probe.nonce] in engine.candidates
      && engine.candidates[outstanding[d.probe.nonce]].address == a.source
    }

    method VerifyResponse(a: Arrival, now: int) returns (verified: bool)
      requires Valid() && a in heard
      modifies this`outstanding, this`dropped, this`promoted, engine`candidates, engine`nominated
      ensures Valid() && verified == old(Proves(a))
      ensures dropped == old(dropped) + if verified then 0 else 1
      ensures !verified ==> engine.candidates == old(engine.candidates) && engine.nominated == old(engine.nominated)
      ensures !verified ==> outstanding == old(outstanding) && promoted == old(promoted)
      ensures verified ==> Promoted(old(engine.candidates), old(outstanding), a, now)
      ensures Extends(old(engine.candidates), engine.candidates) && Grown(old(engine.candidates), engine.candidates)
      ensures NominatedVerified(old(engine.candidates), old(engine.nominated)) ==>
        NominatedVerified(engine.candidates, engine.nominated)
      ensures verified ==> engine.nominated == if old(engine.nominated).None? then Some(promoted[|promoted| - 1].id)
        else old(engine.nominated)
    {
      hide DecodeResponse, SafeTarget, PromotesOnce, Sound;
      var d := DecodeResponse(mac, key, a.payload);
      if !d.Authentic? || d.probe.nonce !in outstanding {
        dropped := dropped + 1;
        return false;
      }
      var n, id := d.probe.nonce, outstanding[d.probe.nonce];
      assert Challenged(sent, engine.candidates, n, id);
      if engine.candidates[id].address != a.source {
        dropped := dropped + 1;
        return false;
      }
      assert AnsweredFrom(heard, mac, key, n, a.source) by {
        assert Responds(mac, key, a.payload, n);
      }
      Promote(n, id, now);
      return true;
    }

    /** Spend the nonce and verify its candidate. */
    method Promote(n: Nonce, id: string, now: int)
      requires Valid() && n in outstanding && outstanding[n] == id && id in engine.candidates
      requires AnsweredFrom(heard, mac, key, n, engine.candidates[id].address)
      modifies this`outstanding, this`promoted, engine`candidates, engine`nominated
      ensures Valid() && outstanding == old(outstanding) - {n} && promoted == old(promoted) + [Promotion(n, id)]
      ensures engine.candidates == Succeeded(old(engine.candidates), id, now)
      ensures engine.nominated == if old(engine.nominated).None? then Some(id) else old(engine.nominated)
    {
      hide AnsweredFrom, SafeTarget, PromotesOnce, Sound, AllOutstandingSent, Engine.Valid, Succeeded;
      PromotionKeeps(engine.candidates, sent, heard, mac, key, outstanding, n, id, now);
      PromotedOnce(draws, outstanding, promoted, n, id);
      outstanding := outstanding - {n};
      var _ := engine.RecordSuccess(id, now);
      promoted := promoted + [Promotion(n, id)];
    }

    function Reflexive(source: Endpoint): Candidate {
      Candidate("prflx-" + render(source), PeerReflexive, source, None, "", PriorityFor(PeerReflexive, source.addr),
        Unverified, 0, "", 0, None, None)
    }

    /** The candidates with one more for this source, unless it is known or there is no room for it. */
    ghost function Learned(source: Endpoint, now: int): Book
      reads this, engine
    {
      var c := Reflexive(source);
      if Known(engine.candidates, source) || engine.Refused(c).Some? || c.id in engine.candidates then engine.candidates
      else engine.candidates[c.id := Admitted(c, now, engine.limits, engine.FoundationFor(c))]
    }

    /** An authenticated challenge shows an address the peer can send from; it starts unverified like any other. */
    method LearnPeerReflexive(source: Endpoint, now: int)
      requires Valid()
      modifies this`dropped, engine`candidates, engine`thirdPartyCount
      ensures Valid() && Extends(old(engine.candidates), engine.candidates)
      ensures Grown(old(engine.candidates), engine.candidates)
      ensures forall id :: id in old(engine.candidates) ==> engine.candidates[id] == old(engine.candidates)[id]
      ensures engine.candidates == old(Learned(source, now))
    {
      hide SafeTarget, PromotesOnce, Responds, Sound, AllOutstandingSent, Engine.Valid;
      ghost var book := engine.candidates;
      var todo := engine.candidates.Keys;
      while todo != {}
        invariant todo <= engine.candidates.Keys
        invariant forall id :: id in engine.candidates && id !in todo ==> engine.candidates[id].address != source
      {
        var id :| id in todo;
        todo := todo - {id};
        if engine.candidates[id].address == source {
          assert Known(engine.candidates, source);
          return;
        }
      }
      assert !Known(engine.candidates, source);
      var c := Reflexive(source);
      var refused := engine.AddCandidate(c, now);
      if refused.Some? {
        dropped := dropped + 1;
      }
      OutstandingKept(sent, sent, book, engine.candidates, outstanding);
      SoundKept(book, engine.candidates, sent, sent, heard, heard, mac, key);
    }

    method HandleArrival(a: Arrival, now: nat) returns (verified: bool)
      requires Valid() && NominatedVerified(engine.candidates, engine.nominated)
      modifies this`outstanding, this`arrived, this`dropped, this`answered, this`heard, this`promoted, this`undelivered
      modifies engine`candidates, engine`nominated, engine`thirdPartyCount
      ensures Valid() && NominatedVerified(engine.candidates, engine.nominated)
      ensures Extends(old(engine.candidates), engine.candidates) && Grown(old(engine.candidates), engine.candidates)
      ensures verified == old(Proves(a)) && heard == old(heard) + {a} && arrived == old(arrived) + 1
      ensures !verified ==> engine.nominated == old(engine.nominated) && promoted == old(promoted)
      ensures verified ==> engine.nominated.Some?
      ensures DecodeChallenge(mac, key, a.payload).Authentic? ==> engine.candidates == old(Learned(a.source, now))
      ensures !verified && !DecodeChallenge(mac, key, a.payload).Authentic? ==> engine.candidates == old(engine.candidates)
    {
      hide DecodeResponse, DecodeChallenge, Known, PromotesOnce, SafeTarget, Responds, EncodeResponse, AllOutstandingSent, Sound,
        Succeeded, Engine.Valid, Grown;
      GrownSelf(engine.candidates);
      Heard(a);
      arrived := arrived + 1;
      EitherKind(a);
      if !Shaped(a.payload) {
        dropped := dropped + 1;
        return false;
      }
      if a.payload[0] != RESPONSE {
        var challenge := DecodeChallenge(mac, key, a.payload);
        if !challenge.Authentic? {
          dropped := dropped + 1;
          return false;
        }
        LearnPeerReflexive(a.source, now);
        var sent := Transmit(a.source, EncodeResponse(mac, key, challenge.probe.nonce, now, a.source));
        if sent {
          answered := answered + 1;
        } else {
          dropped := dropped + 1;
        }
        return false;
      }
      verified := VerifyResponse(a, now);
    }

    ghost method Heard(a: Arrival)
      requires Valid()
      modifies this`heard
      ensures Valid() && heard == old(heard) + {a}
    {
      hide Responds, SafeTarget, PromotesOnce, AllOutstandingSent, Engine.Valid;
      heard := heard + {a};
      ExtendsSelf(engine.candidates);
      SoundKept(engine.candidates, engine.candidates, sent, sent, old(heard), heard, mac, key);
    }

    lemma EitherKind(a: Arrival)
      ensures !Shaped(a.payload) || a.payload[0] != RESPONSE ==> !Proves(a)
      ensures !Shaped(a.payload) || a.payload[0] == RESPONSE ==> !DecodeChallenge(mac, key, a.payload).Authentic?
    {
    }

    /** Nothing in time, or one datagram. */
    method AwaitResponse() returns (verified: bool)
      requires Valid() && NominatedVerified(engine.candidates, engine.nominated)
      modifies this`outstanding, this`arrived, this`dropped, this`answered, this`heard, this`promoted, this`undelivered
      modifies engine`candidates, engine`nominated, engine`thirdPartyCount
      ensures Valid() && NominatedVerified(engine.candidates, engine.nominated)
      ensures Extends(old(engine.candidates), engine.candidates) && Grown(old(engine.candidates), engine.candidates)
      ensures verified ==> engine.nominated.Some?
      ensures (!verified && heard == old(heard) && engine.candidates == old(engine.candidates))
        || exists a :: heard == old(heard) + {a} && verified == old(Proves(a))
    {
      GrownSelf(engine.candidates);
      if * {
        var a: Arrival := *;
        var now: nat := *;
        verified := HandleArrival(a, now);
      } else {
        verified := false;
      }
    }

    /** One probe, whose failure to leave is the candidate's failure. */
    method Probe(c: Candidate, now: nat) returns (ok: bool)
      requires Valid() && engine.nominated.None? && c.id in engine.candidates
      requires engine.candidates[c.id].status != Verified && engine.candidates[c.id].attempts < Cap()
      requires engine.candidates[c.id].address == c.address && engine.candidates[c.id].kind == c.kind
      requires Bounded(engine.candidates, Cap())
      modifies this`outstanding, this`draws, this`sent, this`undelivered, engine`candidates
      ensures Valid() && Bounded(engine.candidates, Cap())
      ensures Extends(old(engine.candidates), engine.candidates) && engine.candidates.Keys == old(engine.candidates).Keys
      ensures forall id :: id in engine.candidates && id != c.id ==> engine.candidates[id] == old(engine.candidates)[id]
      ensures Slack(engine.candidates, sent) >= Slack(old(engine.candidates), old(sent))
      ensures ThirdPartySlack(engine.candidates, sent) >= ThirdPartySlack(old(engine.candidates), old(sent))
      ensures Spent(engine.candidates, engine.candidates.Keys) ==
        Spent(old(engine.candidates), old(engine.candidates).Keys) + 1
      ensures old(sent) <= sent && |sent| == |old(sent)| + if ok then 1 else 0
    {
      hide SafeTarget, PromotesOnce, Responds, Sound, AllOutstandingSent, Slack, ThirdPartySlack, Spent, ThirdParties, Attempted,
        Faulted, Bounded, Extends, Engine.Valid;
      ghost var book, asked := engine.candidates, sent;
      ghost var nonce;
      ok, nonce := SendChallenge(c, now);
      AttemptSlack(book, c.id, asked, sent[|asked|..]);
      assert asked + sent[|asked|..] == sent;
      AttemptChanges(book, c.id, Cap());
      if !ok {
        FaultChanges(engine.candidates, c.id, "sending probe", engine.limits.maxAttempts, Cap());
        RecordFailure(c.id, "sending probe");
      }
    }

    method RecordFailure(id: string, reason: string)
      requires Valid() && id in engine.candidates
      modifies engine`candidates
      ensures Valid() && engine.candidates == Faulted(old(engine.candidates), id, reason, engine.limits.maxAttempts)
      ensures Slack(engine.candidates, sent) == Slack(old(engine.candidates), sent)
      ensures ThirdPartySlack(engine.candidates, sent) == ThirdPartySlack(old(engine.candidates), sent)
      ensures Spent(engine.candidates, engine.candidates.Keys) == Spent(old(engine.candidates), old(engine.candidates).Keys)
    {
      hide SafeTarget, PromotesOnce, Responds;
      ghost var book := engine.candidates;
      var _ := engine.RecordFailure(id, reason);
      OutstandingKept(sent, sent, book, engine.candidates, outstanding);
      SoundKept(book, engine.candidates, sent, sent, heard, heard, mac, key);
      GrownSlack(book, engine.candidates, sent);
    }

    /** One round of probes. */
    method ProbeAll(list: seq<Candidate>, now: nat, maxAttempts: int) returns (probed: nat)
      requires Valid() && engine.nominated.None? && Bounded(engine.candidates, Cap())
      requires list != [] && IsProbable(list, engine.candidates, now, maxAttempts) && maxAttempts == engine.limits.maxAttempts
      modifies this`outstanding, this`draws, this`sent, this`undelivered, engine`candidates
      ensures Valid() && Bounded(engine.candidates, Cap()) && Extends(old(engine.candidates), engine.candidates)
      ensures Slack(engine.candidates, sent) >= Slack(old(engine.candidates), old(sent))
      ensures ThirdPartySlack(engine.candidates, sent) >= ThirdPartySlack(old(engine.candidates), old(sent))
      ensures Spent(engine.candidates, engine.candidates.Keys) > Spent(old(engine.candidates), old(engine.candidates).Keys)
      ensures old(sent) <= sent && |sent| == |old(sent)| + probed
    {
      hide Slack, ThirdPartySlack, Spent, ThirdParties, Extends, Bounded, Valid, IsProbable, Candidate.CanProbe;
      ghost var book := engine.candidates;
      ProbableNow(list, book, now, maxAttempts, Cap());
      ExtendsSelf(book);
      probed := 0;
      for i := 0 to |list|
        invariant Valid() && Bounded(engine.candidates, Cap()) && Extends(book, engine.candidates)
        invariant engine.candidates.Keys == book.Keys
        invariant forall j :: i <= j < |list| ==> engine.candidates[list[j].id] == list[j]
        invariant Slack(engine.candidates, sent) >= Slack(book, old(sent))
        invariant ThirdPartySlack(engine.candidates, sent) >= ThirdPartySlack(book, old(sent))
        invariant Spent(engine.candidates, engine.candidates.Keys) == Spent(book, book.Keys) + i
        invariant old(sent) <= sent && |sent| == |old(sent)| + probed
      {
        ghost var before := engine.candidates;
        var ok := Probe(list[i], now);
        ExtendsOn(book, before, engine.candidates);
        if ok {
          probed := probed + 1;
        }
      }
    }

    /** The bound on probes: every candidate, as often as one may be tried. */
    function Budget(): nat { if engine.limits.maxCandidates < 0 then 0 else Times(engine.limits.maxCandidates, Cap()) }

    function ThirdPartyBudget(): nat {
      if engine.limits.maxThirdParty < 0 then 0 else Times(engine.limits.maxThirdParty, Cap())
    }

    lemma WithinBudget()
      requires Valid() && Bounded(engine.candidates, Cap())
      ensures Spent(engine.candidates, engine.candidates.Keys) <= Budget()
      ensures Spent(engine.candidates, ThirdParties(engine.candidates)) <= ThirdPartyBudget()
    {
      var book := engine.candidates;
      SpentBound(book, book.Keys, Cap());
      assert |book.Keys| == |book|;
      TimesGrows(|book.Keys|, engine.limits.maxCandidates, Cap());
      SpentBound(book, ThirdParties(book), Cap());
      if engine.limits.maxThirdParty >= 0 && |ThirdParties(book)| > 0 {
        TimesGrows(|ThirdParties(book)|, engine.limits.maxThirdParty, Cap());
      }
    }

    /**
     Probe until something is verified, nothing is left, or the time is up. It
     ends without any help from the clock, since every round spends an attempt.
     */
    method Run() returns (ended: Ending, probed: nat, ghost rounds: nat)
      requires Valid() && Bounded(engine.candidates, Cap()) && NominatedVerified(engine.candidates, engine.nominated)
      modifies this`outstanding, this`arrived, this`dropped, this`answered, this`heard, this`promoted, this`draws, this`sent
      modifies this`undelivered, this`cancelled
      modifies engine`candidates, engine`nominated, engine`thirdPartyCount
      ensures Valid() && Bounded(engine.candidates, Cap()) && NominatedVerified(engine.candidates, engine.nominated)
      ensures Extends(old(engine.candidates), engine.candidates)
      ensures ended.Nominated? ==> engine.nominated == Some(ended.id) && ended.id in engine.candidates
      ensures ended.Nominated? ==> Proven(engine.candidates, sent, heard, mac, key, ended.id)
      ensures ended.Exhausted? ==>
        engine.nominated.None? && NoneProbable(engine.candidates, ended.now, engine.limits.maxAttempts)
      ensures ended.TimedOut? ==> engine.IsTimedOut(ended.now)
      ensures ended.Cancelled? ==> cancelled
      ensures NoRepeats(draws) ==> DistinctNonces(promoted)
      ensures old(sent) <= sent && |sent| == |old(sent)| + probed
      ensures rounds + Spent(old(engine.candidates), old(engine.candidates).Keys) <= Budget()
      ensures probed + Spent(old(engine.candidates), old(engine.candidates).Keys) <= Budget()
      ensures ThirdPartySent(sent) - ThirdPartySent(old(sent)) +
        Spent(old(engine.candidates), ThirdParties(old(engine.candidates))) <= ThirdPartyBudget()
    {
      hide Spent, ThirdParties, Extends, Bounded, Valid, Budget, ThirdPartyBudget, NominatedVerified, IsProbable, NoneProbable, DistinctNonces;
      ghost var book, asked := engine.candidates, sent;
      ExtendsSelf(book);
      probed, rounds := 0, 0;
      while true
        invariant Valid() && Bounded(engine.candidates, Cap()) && NominatedVerified(engine.candidates, engine.nominated)
        invariant Extends(book, engine.candidates)
        invariant asked <= sent && |sent| == |asked| + probed
        invariant Slack(engine.candidates, sent) >= Slack(book, asked)
        invariant ThirdPartySlack(engine.candidates, sent) >= ThirdPartySlack(book, asked)
        invariant Spent(engine.candidates, engine.candidates.Keys) >= Spent(book, book.Keys) + rounds
        decreases Budget() - Spent(engine.candidates, engine.candidates.Keys)
      {
        WithinBudget();
        var over := GaveUp();
        if over {
          PromotedApart();
          return Cancelled, probed, rounds;
        }
        if engine.nominated.Some? {
          NominatedProven();
          PromotedApart();
          return Nominated(engine.nominated.value), probed, rounds;
        }
        var now: nat := *;
        var exhausted := engine.IsExhausted(now);
        if exhausted {
          PromotedApart();
          return Exhausted(now), probed, rounds;
        }
        now := *;
        if engine.IsTimedOut(now) {
          PromotedApart();
          return TimedOut(now), probed, rounds;
        }
        now := *;
        EngineValid();
        var probable := engine.Probable(now);
        if probable == [] {
          ProbableEmptyIff(probable, engine.candidates, now, engine.limits.maxAttempts);
          PromotedApart();
          return Exhausted(now), probed, rounds;
        }
        ghost var before := engine.candidates;
        var more := ProbeAll(probable, now, engine.limits.maxAttempts);
        probed := probed + more;
        ghost var between := engine.candidates;
        NobodyNominated();
        var _ := AwaitResponse();
        GrownSlack(between, engine.candidates, sent);
        GrownBounded(between, engine.candidates, Cap());
        ExtendsOn(book, before, between);
        ExtendsOn(book, between, engine.candidates);
        rounds := rounds + 1;
      }
    }

    lemma PromotedApart()
      requires Valid()
      ensures NoRepeats(draws) ==> DistinctNonces(promoted)
    {
    }

    lemma NominatedProven()
      requires Valid() && NominatedVerified(engine.candidates, engine.nominated) && engine.nominated.Some?
      ensures engine.nominated.value in engine.candidates
      ensures Proven(engine.candidates, sent, heard, mac, key, engine.nominated.value)
    {
    }

    lemma EngineValid()
      requires Valid()
      ensures engine.Valid()
    {
    }

    lemma NobodyNominated()
      requires engine.nominated.None?
      ensures NominatedVerified(engine.candidates, engine.nominated)
    {
    }

    /** The response's nonce is spent, and its candidate alone is verified. */
    twostate predicate Promoted(book: Book, flight: map<Nonce, string>, a: Arrival, now: int)
      reads this, engine
    {
      var d := DecodeResponse(mac, key, a.payload);
      d.Authentic? && d.probe.nonce in flight && flight[d.probe.nonce] in book
      && outstanding == flight - {d.probe.nonce}
      && engine.candidates == Succeeded(book, flight[d.probe.nonce], now)
      && promoted == old(promoted) + [Promotion(d.probe.nonce, flight[d.probe.nonce])]
    }
  }

  ghost predicate Known(book: Book, source: Endpoint) { exists id :: id in book && book[id].address == source }

  /** Attempts recorded, less challenges that left. */
  ghost function Slack(book: Book, sent: seq<Sent>): int { Spent(book, book.Keys) - |sent| }

  ghost function ThirdPartySlack(book: Book, sent: seq<Sent>): int {
    Spent(book, ThirdParties(book)) - ThirdPartySent(sent)
  }

  lemma GrownSlack(a: Book, b: Book, sent: seq<Sent>)
    requires Grown(a, b) && Extends(a, b)
    ensures Slack(b, sent) == Slack(a, sent) && ThirdPartySlack(b, sent) == ThirdPartySlack(a, sent)
    ensures Spent(b, b.Keys) == Spent(a, a.Keys)
  {
    SpentGrown(a, b, b.Keys);
    assert b.Keys * a.Keys == a.Keys;
    SpentGrown(a, b, ThirdParties(b));
    assert ThirdParties(b) * a.Keys == ThirdParties(a);
  }

  lemma AttemptSlack(book: Book, id: string, sent: seq<Sent>, more: seq<Sent>)
    requires id in book && (more == [] || (|more| == 1 && more[0].thirdParty == book[id].kind.RequiresThirdParty()))
    ensures Slack(Attempted(book, id), sent + more) >= Slack(book, sent)
    ensures ThirdPartySlack(Attempted(book, id), sent + more) >= ThirdPartySlack(book, sent)
    ensures Attempted(book, id).Keys == book.Keys && Spent(Attempted(book, id), book.Keys) == Spent(book, book.Keys) + 1
  {
    SpentAttempt(book, book.Keys, id);
    SameThirdParties(book, Attempted(book, id));
    SpentAttempt(book, ThirdParties(book), id);
    if more == [] {
      assert sent + more == sent;
    } else {
      assert (sent + more)[..|sent|] == sent;
    }
  }

  lemma GrownSelf(book: Book)
    ensures Grown(book, book)
  {
  }

  lemma ExtendsSelf(book: Book)
    ensures Extends(book, book)
  {
  }

  lemma ExtendsOn(a: Book, b: Book, c: Book)
    requires Extends(a, b) && Extends(b, c)
    ensures Extends(a, c)
  {
  }

  lemma GrownBounded(a: Book, b: Book, cap: nat)
    requires Grown(a, b) && Bounded(a, cap)
    ensures Bounded(b, cap)
  {
  }

  lemma ProbableNow(list: seq<Candidate>, book: Book, now: int, maxAttempts: int, cap: nat)
    requires IsProbable(list, book, now, maxAttempts) && maxAttempts <= cap
    ensures forall i :: 0 <= i < |list| ==> list[i].id in book && book[list[i].id] == list[i]
    ensures forall i :: 0 <= i < |list| ==> list[i].status != Verified && list[i].attempts < cap
    ensures forall i, j :: 0 <= i < j < |list| ==> list[i].id != list[j].id
  {
    forall i, j | 0 <= i < j < |list| ensures list[i].id != list[j].id {
      assert list[i].foundation != list[j].foundation;
    }
  }

  lemma AttemptChanges(book: Book, id: string, cap: nat)
    requires id in book && book[id].attempts < cap && Bounded(book, cap)
    ensures var after := Attempted(book, id);
      Bounded(after, cap) && Extends(book, after) && forall other :: other in book && other != id ==> after[other] == book[other]
  {
  }

  lemma FaultChanges(book: Book, id: string, reason: string, maxAttempts: int, cap: nat)
    requires id in book && Bounded(book, cap)
    ensures var after := Faulted(book, id, reason, maxAttempts);
      Bounded(after, cap) && Extends(book, after) && after.Keys == book.Keys
      && forall other :: other in book && other != id ==> after[other] == book[other]
    ensures forall earlier :: Extends(earlier, book) ==> Extends(earlier, Faulted(book, id, reason, maxAttempts))
  {
  }

  lemma Verifies(book: Book, sent: seq<Sent>, heard: set<Arrival>, mac: Mac, key: seq<byte>, n: Nonce, id: string,
                 now: int)
    requires Sound(book, sent, heard, mac, key) && Challenged(sent, book, n, id)
    requires AnsweredFrom(heard, mac, key, n, book[id].address)
    ensures Sound(Succeeded(book, id, now), sent, heard, mac, key)
  {
    hide AnsweredFrom;
    var after := Succeeded(book, id, now);
    forall other | other in after && after[other].status == Verified ensures Proven(after, sent, heard, mac, key, other) {
      if other == id {
        ChallengedKept(sent, sent, book, after, n, id);
      } else {
        assert Proven(book, sent, heard, mac, key, other);
        var m :| Challenged(sent, book, m, other) && AnsweredFrom(heard, mac, key, m, book[other].address);
        ChallengedKept(sent, sent, book, after, m, other);
      }
    }
  }

  lemma PromotionKeeps(book: Book, sent: seq<Sent>, heard: set<Arrival>, mac: Mac, key: seq<byte>,
                       outstanding: map<Nonce, string>, n: Nonce, id: string, now: int)
    requires Sound(book, sent, heard, mac, key) && AllOutstandingSent(sent, book, outstanding)
    requires n in outstanding && outstanding[n] == id && id in book
    requires AnsweredFrom(heard, mac, key, n, book[id].address)
    ensures Sound(Succeeded(book, id, now), sent, heard, mac, key)
    ensures AllOutstandingSent(sent, Succeeded(book, id, now), outstanding - {n})
  {
    assert Challenged(sent, book, n, id);
    hide AnsweredFrom, Challenged, Sound;
    Verifies(book, sent, heard, mac, key, n, id, now);
    SucceededExtends(book, id, now);
    OutstandingKept(sent, sent, book, Succeeded(book, id, now), outstanding);
    OutstandingFewer(sent, Succeeded(book, id, now), outstanding, n);
  }

  lemma PromotedOnce(draws: seq<Nonce>, outstanding: map<Nonce, string>, promoted: seq<Promotion>, n: Nonce, id: string)
    requires PromotesOnce(draws, outstanding, promoted) && n in outstanding
    ensures PromotesOnce(draws, outstanding - {n}, promoted + [Promotion(n, id)])
  {
  }

  lemma DrawnOnce(draws: seq<Nonce>, n: Nonce, outstanding: map<Nonce, string>, promoted: seq<Promotion>, id: string)
    requires PromotesOnce(draws, outstanding, promoted)
    ensures PromotesOnce(draws + [n], outstanding, promoted)
    ensures PromotesOnce(draws + [n], outstanding[n := id], promoted)
  {
    var more := draws + [n];
    assert more[|draws|] == n;
    if NoRepeats(more) {
      forall i, j | 0 <= i < j < |draws| ensures draws[i] != draws[j] {
        assert more[i] == draws[i] && more[j] == draws[j];
      }
      forall i | 0 <= i < |promoted| ensures promoted[i].nonce != n {
        var k :| 0 <= k < |draws| && draws[k] == promoted[i].nonce;
        assert more[k] == draws[k];
      }
    }
  }

  lemma SucceededExtends(book: Book, id: string, now: int)
    requires id in book
    ensures Extends(book, Succeeded(book, id, now))
  {
  }

  lemma OutstandingFewer(sent: seq<Sent>, book: Book, outstanding: map<Nonce, string>, n: Nonce)
    requires AllOutstandingSent(sent, book, outstanding)
    ensures AllOutstandingSent(sent, book, outstanding - {n})
  {
    hide Challenged;
  }

  lemma NowChallenged(sent: seq<Sent>, s: Sent, book: Book)
    requires s.id in book && s.address == book[s.id].address
    ensures Challenged(sent + [s], book, s.nonce, s.id)
  {
    assert (sent + [s])[|sent|] == s;
  }

  lemma SentToo(sent: seq<Sent>, sent': seq<Sent>, book: Book, outstanding: map<Nonce, string>, n: Nonce, id: string)
    requires AllOutstandingSent(sent, book, outstanding) && sent <= sent' && Challenged(sent', book, n, id)
    ensures AllOutstandingSent(sent', book, outstanding[n := id])
  {
    OutstandingKept(sent, sent', book, book, outstanding);
  }
}
