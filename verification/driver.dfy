/**
 How one conversation waits for its messages (internal/orchestrator/driver.go):
 which end opens it, what is held while something else is awaited, and which
 offer or acceptance is taken among the stale ones a relay replays.
 */
module Drivers {
  import opened Agreement
  import opened Sessions
  import opened Wrappers

  /** The role asked for, or none in particular. */
  datatype Wanted = Auto | As(role: Role)

  function ResolveRole(local: Node, peer: Node, wanted: Wanted): Role {
    if wanted.As? then wanted.role else if local < peer then Initiator else Responder
  }

  /** Left to themselves, two nodes take opposite roles; a node facing itself waits for nobody. */
  lemma RolesOppose(a: Node, b: Node)
    ensures (ResolveRole(a, b, Auto) == Initiator && ResolveRole(b, a, Auto) == Responder)
      || (ResolveRole(a, b, Auto) == Responder && ResolveRole(b, a, Auto) == Initiator)
      || (a == b && ResolveRole(a, b, Auto) == Responder)
  {
  }

  datatype Kind = SessionRequest | SessionOffer | SessionAccept | OtherKind(n: nat)

  predicate Promised(kind: Kind, body: Body) {
    match kind
    case SessionRequest => body.RequestBody?
    case SessionOffer => body.OfferBody?
    case SessionAccept => body.AcceptBody?
    case OtherKind(_) => false
  }

  /** One opened message; the payload its kind promises may not be there. */
  datatype Delivery = Delivery(kind: Kind, createdAt: int, message: Option<Envelope>) {
    predicate Carries() { message.Some? && Promised(kind, message.value.body) }

    predicate Accepts(offerHash: Digest) {
      message.Some? && message.value.body.AcceptBody? && message.value.body.accept.offerHash == offerHash
    }
  }

  const MAX_HELD := 4
  const MAX_CLOCK_SKEW := 300

  function OfKind(stream: seq<Delivery>, kind: Kind): (r: seq<Delivery>)
    ensures forall i :: 0 <= i < |r| ==> r[i].kind == kind
  {
    if stream == [] then []
    else
      var front := OfKind(stream[..|stream| - 1], kind);
      if stream[|stream| - 1].kind == kind then front + [stream[|stream| - 1]] else front
  }

  function Push(queue: seq<Delivery>, d: Delivery): seq<Delivery> {
    (if |queue| >= MAX_HELD then queue[1..] else queue) + [d]
  }

  function Latest(list: seq<Delivery>): seq<Delivery> {
    if |list| <= MAX_HELD then list else list[|list| - MAX_HELD..]
  }

  lemma HeldMore(queue: seq<Delivery>, stream: seq<Delivery>, i: nat, kind: Kind)
    requires i < |stream|
    ensures OfKind(stream[..i + 1], kind) ==
      (if stream[i].kind == kind then OfKind(stream[..i], kind) + [stream[i]] else OfKind(stream[..i], kind))
    ensures Latest(queue + OfKind(stream[..i + 1], kind)) ==
      (if stream[i].kind == kind then Push(Latest(queue + OfKind(stream[..i], kind)), stream[i])
       else Latest(queue + OfKind(stream[..i], kind)))
  {
    assert stream[..i + 1][..i] == stream[..i];
    PushLatest(queue + OfKind(stream[..i], kind), stream[i]);
    assert queue + OfKind(stream[..i], kind) + [stream[i]] == queue + (OfKind(stream[..i], kind) + [stream[i]]);
  }

  lemma NothingYet(queue: seq<Delivery>, stream: seq<Delivery>, kind: Kind)
    requires |queue| <= MAX_HELD
    ensures OfKind(stream[..0], kind) == [] && Latest(queue + OfKind(stream[..0], kind)) == queue
  {
  }

  lemma PushLatest(list: seq<Delivery>, d: Delivery)
    ensures Push(Latest(list), d) == Latest(list + [d])
  {
  }

  /** The first message fit to be taken; one without its payload ends the wait. */
  datatype Wait = Taken(message: Delivery) | Empty(message: Delivery) | TimedOut

  datatype Test = Test(notBefore: int, offerHash: Option<Digest>) {
    predicate Fits(d: Delivery) { d.createdAt >= notBefore && (offerHash.None? || d.Accepts(offerHash.value)) }
  }

  function Search(list: seq<Delivery>, test: Test): Wait {
    if list == [] then TimedOut
    else if !list[0].Carries() then Empty(list[0])
    else if test.Fits(list[0]) then Taken(list[0])
    else Search(list[1..], test)
  }

  /** A message is taken exactly when everything before it was passed over and it fits. */
  lemma {:induction false} SearchFirst(list: seq<Delivery>, test: Test, d: Delivery)
    ensures Search(list, test) == Taken(d) <==>
      exists i :: 0 <= i < |list| && list[i] == d && d.Carries() && test.Fits(d)
        && forall j :: 0 <= j < i ==> list[j].Carries() && !test.Fits(list[j])
  {
    if list != [] {
      SearchFirst(list[1..], test, d);
      if list[0].Carries() && !test.Fits(list[0]) {
        if Search(list, test) == Taken(d) {
          var i :| 0 <= i < |list[1..]| && list[1..][i] == d && d.Carries() && test.Fits(d)
            && forall j :: 0 <= j < i ==> list[1..][j].Carries() && !test.Fits(list[1..][j]);
          assert list[i + 1] == d;
          forall j | 0 <= j < i + 1 ensures list[j].Carries() && !test.Fits(list[j]) {
            if j > 0 { assert list[j] == list[1..][j - 1]; }
          }
        }
        if i :| 0 <= i < |list| && list[i] == d && d.Carries() && test.Fits(d)
                && forall j :: 0 <= j < i ==> list[j].Carries() && !test.Fits(list[j]) {
          assert list[1..][i - 1] == d;
          forall j | 0 <= j < i - 1 ensures list[1..][j].Carries() && !test.Fits(list[1..][j]) {
            assert list[1..][j] == list[j + 1];
          }
        }
      }
    }
  }

  /** The messages held for a later step, by kind. */
  class Mailbox {
    var held: map<Kind, seq<Delivery>>

    constructor ()
      ensures held == map[]
    {
      held := map[];
    }

    function Queue(kind: Kind): seq<Delivery>
      reads this
    {
      if kind in held then held[kind] else []
    }

    /** A few of each kind, under that kind. */
    ghost predicate Filed()
      reads this
    {
      forall kind :: |Queue(kind)| <= MAX_HELD && forall d :: d in Queue(kind) ==> d.kind == kind
    }

    /** Keep a message for later; past the bound the oldest of its kind goes. */
    method Hold(d: Delivery)
      requires Filed()
      modifies this
      ensures Filed() && Queue(d.kind) == Push(old(Queue(d.kind)), d)
      ensures forall kind :: kind != d.kind ==> Queue(kind) == old(Queue(kind))
    {
      var queue := Queue(d.kind);
      if |queue| >= MAX_HELD {
        queue := queue[1..];
      }
      held := held[d.kind := queue + [d]];
      assert forall kind :: kind != d.kind ==> Queue(kind) == old(Queue(kind));
    }

    method TakeHeld(want: Kind) returns (r: Option<Delivery>)
      requires Filed()
      modifies this
      ensures Filed() && r.Some? == (old(Queue(want)) != [])
      ensures r.Some? ==> r.value == old(Queue(want))[0] && Queue(want) == old(Queue(want))[1..]
      ensures r.None? ==> Queue(want) == []
      ensures forall kind :: kind != want ==> Queue(kind) == old(Queue(kind))
    {
      if want !in held || held[want] == [] {
        return None;
      }
      r := Some(held[want][0]);
      held := held[want := held[want][1..]];
      assert forall kind :: kind != want ==> Queue(kind) == old(Queue(kind));
      assert Queue(want) == old(Queue(want))[1..];
    }

    /**
     The oldest held message of a kind, or else the first to arrive. What arrives of
     other kinds meanwhile is held, the latest few of each.
     */
    method AwaitMessage(want: Kind, stream: seq<Delivery>) returns (r: Option<Delivery>, used: nat)
      requires Filed()
      modifies this
      ensures Filed() && used <= |stream|
      ensures old(Queue(want)) != [] ==> r == Some(old(Queue(want))[0]) && used == 0 && Queue(want) == old(Queue(want))[1..]
      ensures old(Queue(want)) == [] ==> Queue(want) == []
      ensures old(Queue(want)) == [] && r.Some? ==>
        used > 0 && r.value == stream[used - 1] && OfKind(stream[..used], want) == [r.value]
      ensures r.None? ==> old(Queue(want)) == [] && used == |stream| && OfKind(stream, want) == []
      ensures forall kind :: kind != want ==> Queue(kind) == Latest(old(Queue(kind)) + OfKind(stream[..used], kind))
    {
      hide Latest, Push, OfKind;
      forall kind { NothingYet(Queue(kind), stream, kind); }
      r := TakeHeld(want);
      if r.Some? {
        return r, 0;
      }
      for i := 0 to |stream|
        invariant Filed() && Queue(want) == [] && OfKind(stream[..i], want) == []
        invariant forall kind :: kind != want ==> Queue(kind) == Latest(old(Queue(kind)) + OfKind(stream[..i], kind))
      {
        var d := stream[i];
        forall kind { HeldMore(old(Queue(kind)), stream, i, kind); }
        if d.kind == want {
          return Some(d), i + 1;
        }
        Hold(d);
        forall kind | kind != want
          ensures Queue(kind) == Latest(old(Queue(kind)) + OfKind(stream[..i + 1], kind))
        {
          HeldMore(old(Queue(kind)), stream, i, kind);
        }
      }
      assert stream[..|stream|] == stream;
      return None, |stream|;
    }

    /** The first message of a kind, held or yet to come, that passes the test. */
    method AwaitFitting(want: Kind, test: Test, stream: seq<Delivery>) returns (r: Wait)
      requires Filed()
      modifies this
      ensures Filed() && r == Search(old(Queue(want)) + OfKind(stream, want), test)
    {
      hide OfKind, Latest;
      var rest := stream;
      ghost var all := Queue(want) + OfKind(stream, want);
      while true
        invariant Filed() && Search(all, test) == Search(Queue(want) + OfKind(rest, want), test)
        decreases |rest| + |Queue(want)|
      {
        ghost var queue, before := Queue(want), rest;
        var d, used := AwaitMessage(want, rest);
        rest := rest[used..];
        if d.None? {
          assert queue + OfKind(before, want) == [];
          return TimedOut;
        }
        Ahead(queue, before, used, want, d.value, Queue(want));
        if !d.value.Carries() {
          return Empty(d.value);
        }
        if test.Fits(d.value) {
          return Taken(d.value);
        }
      }
    }

    /** An offer made no earlier than this attempt's request, give or take the clocks. */
    method AwaitOffer(requestedAt: int, stream: seq<Delivery>) returns (r: Wait)
      requires Filed()
      modifies this
      ensures Filed()
      ensures r == Search(old(Queue(SessionOffer)) + OfKind(stream, SessionOffer), Test(requestedAt - MAX_CLOCK_SKEW, None))
    {
      r := AwaitFitting(SessionOffer, Test(requestedAt - MAX_CLOCK_SKEW, None), stream);
    }

    /** An acceptance of exactly the offer just made. */
    method AwaitAccept(offeredAt: int, offerHash: Digest, stream: seq<Delivery>) returns (r: Wait)
      requires Filed()
      modifies this
      ensures Filed() && r == Search(old(Queue(SessionAccept)) + OfKind(stream, SessionAccept),
        Test(offeredAt - MAX_CLOCK_SKEW, Some(offerHash)))
      ensures r.Taken? ==> r.message.Accepts(offerHash)
    {
      var test := Test(offeredAt - MAX_CLOCK_SKEW, Some(offerHash));
      r := AwaitFitting(SessionAccept, test, stream);
      TakenFits(old(Queue(SessionAccept)) + OfKind(stream, SessionAccept), test);
    }
  }

  /** Every payload was published, by the peer and for this side. */
  ghost predicate Delivered(y: Mesh, i: nat, list: seq<Delivery>)
    requires i < |y.sides|
  {
    forall k :: 0 <= k < |list| && list[k].message.Some? ==>
      list[k].message.value in y.pool && FromPeer(y.sides[i], list[k].message.value)
  }

  /**
   Of what is held and what comes, the acceptance that is taken is an event of the
   protocol and names the offer made; every one passed over before it was too old or
   would have been refused, and failed the handshake.
   */
  lemma {:induction false} AcceptanceHeard(y: Mesh, i: nat, list: seq<Delivery>, offeredAt: int, now: int)
    requires i < |y.sides| && Delivered(y, i, list) && forall k :: 0 <= k < |list| ==> list[k].kind == SessionAccept
    requires Search(list, Test(offeredAt - MAX_CLOCK_SKEW, Some(y.sides[i].offerHash))).Taken?
    ensures var d := Search(list, Test(offeredAt - MAX_CLOCK_SKEW, Some(y.sides[i].offerHash))).message;
      d.message.Some? && Possible(y, HearAccept(i, d.message.value, now))
      && AcceptTaken(y.sides[i], d.message.value.body.accept, d.message.value.seq_, now).error != Some(OfferMismatch)
      && exists n :: 0 <= n < |list| && list[n] == d && forall j :: 0 <= j < n ==>
           list[j].Carries() && (list[j].createdAt < offeredAt - MAX_CLOCK_SKEW || Refused(y.sides[i], list[j], now))
  {
    var test := Test(offeredAt - MAX_CLOCK_SKEW, Some(y.sides[i].offerHash));
    TakenFits(list, test);
    var d := Search(list, test).message;
    SearchFirst(list, test, d);
    hide Search, AcceptTaken;
    var n :| 0 <= n < |list| && list[n] == d && forall j :: 0 <= j < n ==> list[j].Carries() && !test.Fits(list[j]);
    forall j | 0 <= j < n
      ensures list[j].Carries() && (list[j].createdAt < offeredAt - MAX_CLOCK_SKEW || Refused(y.sides[i], list[j], now))
    {
      OtherOffer(y.sides[i], list[j], now);
    }
    SameOffer(y.sides[i], d, now);
  }

  predicate Refused(s: Side, d: Delivery, now: int) {
    d.message.Some? && d.message.value.body.AcceptBody?
    && !AcceptTaken(s, d.message.value.body.accept, d.message.value.seq_, now).Ok()
  }

  lemma OtherOffer(s: Side, d: Delivery, now: int)
    requires d.kind == SessionAccept && d.Carries()
    ensures d.Accepts(s.offerHash) || Refused(s, d, now)
  {
  }

  lemma SameOffer(s: Side, d: Delivery, now: int)
    requires d.Accepts(s.offerHash)
    ensures AcceptTaken(s, d.message.value.body.accept, d.message.value.seq_, now).error != Some(OfferMismatch)
  {
  }

  lemma TakenFits(list: seq<Delivery>, test: Test)
    ensures var r := Search(list, test); r.Taken? ==> r.message.Carries() && test.Fits(r.message)
  {
    if Search(list, test).Taken? {
      SearchFirst(list, test, Search(list, test).message);
    }
  }

  /** What was taken stood first among what was held and what was to come. */
  lemma Ahead(queue: seq<Delivery>, stream: seq<Delivery>, used: nat, want: Kind, d: Delivery, left: seq<Delivery>)
    requires used <= |stream|
    requires if queue != [] then d == queue[0] && used == 0 && left == queue[1..]
      else left == [] && OfKind(stream[..used], want) == [d]
    ensures queue + OfKind(stream, want) == [d] + (left + OfKind(stream[used..], want))
    ensures (queue + OfKind(stream, want))[0] == d
    ensures (queue + OfKind(stream, want))[1..] == left + OfKind(stream[used..], want)
  {
    SplitKind(stream, used, want);
    assert stream[0..] == stream && stream[..0] == [];
    if queue != [] { assert queue == [queue[0]] + queue[1..]; }
  }

  lemma {:induction false} SplitKind(stream: seq<Delivery>, k: nat, kind: Kind)
    requires k <= |stream|
    ensures OfKind(stream, kind) == OfKind(stream[..k], kind) + OfKind(stream[k..], kind)
    decreases |stream|
  {
    if k == |stream| {
      assert stream[..k] == stream && stream[k..] == [];
    } else {
      var n := |stream| - 1;
      SplitKind(stream[..n], k, kind);
      assert stream[..n][..k] == stream[..k] && stream[..n][k..] == stream[k..][..n - k];
      assert stream[k..][|stream[k..]| - 1] == stream[n];
    }
  }
}
