/** The candidate set of one session and how each has fared (internal/connectivity/engine.go). */
module Engines {
  import opened Prefixes
  import opened Probes
  import opened Candidates
  import opened Sorting
  import opened Wrappers

  datatype Limits = Limits(maxCandidates: int, maxAttempts: int, maxThirdParty: int, totalTimeout: int)

  const DEFAULT_LIMITS := Limits(32, 5, 8, 30)

  type Book = map<string, Candidate>

  datatype Refusal = Unsafe | UnknownKind | NoId | Moved | TooMany | TooManyThirdParty

  ghost function ThirdParties(book: Book): set<string> {
    set id | id in book && book[id].kind.RequiresThirdParty()
  }

  /** How a candidate is stored, whatever its source claimed about it. */
  function Admitted(c: Candidate, now: int, limits: Limits, foundation: string): Candidate {
    c.(status := Unverified, attempts := 0, verifiedAt := None, discoveredAt := now,
       expiresAt := if c.expiresAt.None? then Some(now + limits.totalTimeout) else c.expiresAt,
       foundation := if c.foundation == "" then foundation else c.foundation)
  }

  function KindText(k: Kind): string {
    match k
    case Host => "host"
    case ServerReflexive => "srflx"
    case PeerReflexive => "prflx"
    case Static => "static"
    case PortMapped => "mapped"
    case Unknown(text) => text
  }

  /** The candidates worth probing: one of each foundation, best first. */
  ghost predicate IsProbable(list: seq<Candidate>, book: Book, now: int, maxAttempts: int) {
    Ascending(list, Before)
    && (forall i :: 0 <= i < |list| ==>
          list[i].id in book && book[list[i].id] == list[i] && list[i].CanProbe(now, maxAttempts))
    && (forall i, j :: 0 <= i < j < |list| ==> list[i].foundation != list[j].foundation)
    && (forall id :: id in book && book[id].CanProbe(now, maxAttempts) ==>
          exists i :: 0 <= i < |list| && list[i].foundation == book[id].foundation)
  }

  ghost predicate NoneProbable(book: Book, now: int, maxAttempts: int) {
    forall id :: id in book ==> !book[id].CanProbe(now, maxAttempts)
  }

  /** Dropping candidates that share a foundation never hides that something is left to try. */
  lemma ProbableEmptyIff(list: seq<Candidate>, book: Book, now: int, maxAttempts: int)
    requires IsProbable(list, book, now, maxAttempts)
    ensures list == [] <==> NoneProbable(book, now, maxAttempts)
  {
    if list != [] {
      assert list[0].id in book && book[list[0].id].CanProbe(now, maxAttempts);
    }
  }

  class Engine {
    const limits: Limits
    const startedAt: int
    const addrText: Addr -> string
    var candidates: Book
    var thirdPartyCount: nat
    var nominated: Option<string>

    ghost predicate Valid()
      reads this
    {
      limits.maxCandidates > 0 && |candidates| <= limits.maxCandidates
      && (forall id :: id in candidates ==>
            candidates[id].id == id && SafeTarget(candidates[id].address) && !candidates[id].kind.Unknown?)
      && thirdPartyCount == |ThirdParties(candidates)|
      && (thirdPartyCount > 0 ==> thirdPartyCount <= limits.maxThirdParty)
      && (nominated.Some? ==> nominated.value in candidates)
    }

    constructor (limits: Limits, addrText: Addr -> string, now: int)
      ensures Valid() && candidates == map[] && nominated == None && startedAt == now
      ensures this.limits == if limits.maxCandidates <= 0 then DEFAULT_LIMITS else limits
      ensures this.addrText == addrText
    {
      this.limits := if limits.maxCandidates <= 0 then DEFAULT_LIMITS else limits;
      this.addrText, startedAt := addrText, now;
      candidates, thirdPartyCount, nominated := map[], 0, None;
    }

    function FoundationFor(c: Candidate): string {
      var base := if c.related.Some? && c.related.value.addr.Valid() then c.related.value.addr else c.address.addr;
      KindText(c.kind) + "|" + addrText(base)
    }

    /** Why a candidate would not be taken, in the order the checks run. */
    function Refused(c: Candidate): Option<Refusal>
      reads this
    {
      if !SafeTarget(c.address) then Some(Unsafe)
      else if c.kind.Unknown? then Some(UnknownKind)
      else if c.id == "" then Some(NoId)
      else if c.id in candidates then
        if candidates[c.id].address != c.address then Some(Moved) else None
      else if |candidates| >= limits.maxCandidates then Some(TooMany)
      else if c.kind.RequiresThirdParty() && thirdPartyCount >= limits.maxThirdParty then Some(TooManyThirdParty)
      else None
    }

    method AddCandidate(c: Candidate, now: int) returns (r: Option<Refusal>)
      requires Valid()
      modifies this`candidates, this`thirdPartyCount
      ensures Valid() && r == old(Refused(c))
      ensures candidates == if r.Some? || c.id in old(candidates) then old(candidates)
        else old(candidates)[c.id := Admitted(c, now, limits, FoundationFor(c))]
    {
      hide SafeTarget;
      if !SafeTarget(c.address) {
        return Some(Unsafe);
      }
      if c.kind.Unknown? {
        return Some(UnknownKind);
      }
      if c.id == "" {
        return Some(NoId);
      }
      if c.id in candidates {
        return if candidates[c.id].address != c.address then Some(Moved) else None;
      }
      if |candidates| >= limits.maxCandidates {
        return Some(TooMany);
      }
      if c.kind.RequiresThirdParty() {
        if thirdPartyCount >= limits.maxThirdParty {
          return Some(TooManyThirdParty);
        }
        thirdPartyCount := thirdPartyCount + 1;
      }
      var stored := Admitted(c, now, limits, FoundationFor(c));
      ThirdPartiesGrow(candidates, stored);
      candidates := candidates[c.id := stored];
      return None;
    }

    method Probable(now: int) returns (list: seq<Candidate>)
      requires Valid()
      ensures IsProbable(list, candidates, now, limits.maxAttempts)
    {
      var found: seq<Candidate>, seen: set<string>, todo := [], {}, candidates.Keys;
      while todo != {}
        invariant todo <= candidates.Keys && Chosen(found, seen, candidates, candidates.Keys - todo, now, limits.maxAttempts)
      {
        var id :| id in todo;
        todo := todo - {id};
        var c := candidates[id];
        ghost var before, done := found, candidates.Keys - todo - {id};
        if c.CanProbe(now, limits.maxAttempts) && c.foundation !in seen {
          seen := seen + {c.foundation};
          found := found + [c];
        }
        assert candidates.Keys - todo == done + {id};
        ChosenStep(before, candidates, done, now, limits.maxAttempts, id);
      }
      assert candidates.Keys - todo == candidates.Keys;
      list := Sort(found, Before);
      ChosenSorted(found, seen, candidates, now, limits.maxAttempts);
    }

    method RecordAttempt(id: string) returns (known: bool)
      requires Valid()
      modifies this`candidates
      ensures Valid() && known == (id in old(candidates))
      ensures candidates == if id in old(candidates) then Attempted(old(candidates), id) else old(candidates)
    {
      hide SafeTarget;
      if id !in candidates {
        return false;
      }
      SameThirdParties(candidates, Attempted(candidates, id));
      candidates := candidates[id := candidates[id].(attempts := candidates[id].attempts + 1, status := Probing)];
      return true;
    }

    /** The first success nominates; later ones do not displace it. */
    method RecordSuccess(id: string, now: int) returns (known: bool)
      requires Valid()
      modifies this`candidates, this`nominated
      ensures Valid() && known == (id in old(candidates))
      ensures candidates == if id in old(candidates) then Succeeded(old(candidates), id, now) else old(candidates)
      ensures nominated == if known && old(nominated).None? then Some(id) else old(nominated)
    {
      hide SafeTarget;
      if id !in candidates {
        return false;
      }
      SameThirdParties(candidates, Succeeded(candidates, id, now));
      candidates := candidates[id := candidates[id].(status := Verified, verifiedAt := Some(now))];
      if nominated.None? {
        nominated := Some(id);
      }
      return true;
    }

    method RecordFailure(id: string, reason: string) returns (known: bool)
      requires Valid()
      modifies this`candidates
      ensures Valid() && known == (id in old(candidates))
      ensures candidates == if id in old(candidates) then Faulted(old(candidates), id, reason, limits.maxAttempts) else old(candidates)
    {
      hide SafeTarget;
      if id !in candidates {
        return false;
      }
      SameThirdParties(candidates, Faulted(candidates, id, reason, limits.maxAttempts));
      var spent := candidates[id].attempts >= limits.maxAttempts;
      candidates := candidates[id := candidates[id].(status := if spent then Failed else Unverified, reason := reason)];
      return true;
    }

    /** The address WireGuard may be given, and only while its candidate is verified. */
    method GetEndpoint() returns (r: Option<Endpoint>)
      requires Valid()
      ensures r.Some? <==> nominated.Some? && candidates[nominated.value].status == Verified
      ensures r.Some? ==> nominated.Some? && r.value == candidates[nominated.value].address
    {
      if nominated.None? || candidates[nominated.value].status != Verified {
        return None;
      }
      return Some(candidates[nominated.value].address);
    }

    method IsExhausted(now: int) returns (r: bool)
      ensures r <==> nominated.None? && NoneProbable(candidates, now, limits.maxAttempts)
    {
      if nominated.Some? {
        return false;
      }
      var todo := candidates.Keys;
      while todo != {}
        invariant todo <= candidates.Keys
        invariant forall id :: id in candidates && id !in todo ==> !candidates[id].CanProbe(now, limits.maxAttempts)
      {
        var id :| id in todo;
        if candidates[id].CanProbe(now, limits.maxAttempts) {
          return false;
        }
        todo := todo - {id};
      }
      return true;
    }

    function IsTimedOut(now: int): bool
      reads this
    {
      nominated.None? && now - startedAt > limits.totalTimeout
    }
  }

  function Attempted(book: Book, id: string): Book
    requires id in book
  {
    book[id := book[id].(attempts := book[id].attempts + 1, status := Probing)]
  }

  function Succeeded(book: Book, id: string, now: int): Book
    requires id in book
  {
    book[id := book[id].(status := Verified, verifiedAt := Some(now))]
  }

  function Faulted(book: Book, id: string, reason: string, maxAttempts: int): Book
    requires id in book
  {
    book[id := book[id].(status := if book[id].attempts >= maxAttempts then Failed else Unverified, reason := reason)]
  }

  lemma SameThirdParties(a: Book, b: Book)
    requires a.Keys == b.Keys && forall id :: id in a ==> a[id].kind == b[id].kind
    ensures ThirdParties(a) == ThirdParties(b)
  {
  }

  lemma ThirdPartiesGrow(book: Book, c: Candidate)
    requires c.id !in book
    ensures ThirdParties(book[c.id := c]) ==
      (if c.kind.RequiresThirdParty() then ThirdParties(book) + {c.id} else ThirdParties(book))
  {
  }

  /** What a walk over part of the book has chosen. */
  ghost predicate Chosen(found: seq<Candidate>, seen: set<string>, book: Book, walked: set<string>, now: int,
                         maxAttempts: int)
  {
    seen == Foundations(found)
    && (forall i :: 0 <= i < |found| ==>
          found[i].id in walked && found[i].id in book && book[found[i].id] == found[i]
          && found[i].CanProbe(now, maxAttempts))
    && (forall i, j :: 0 <= i < j < |found| ==> found[i].foundation != found[j].foundation && found[i].id != found[j].id)
    && (forall id :: id in walked && id in book && book[id].CanProbe(now, maxAttempts) ==> book[id].foundation in seen)
  }

  ghost function Foundations(list: seq<Candidate>): set<string> { set c | c in list :: c.foundation }

  lemma FoundationsMore(list: seq<Candidate>, c: Candidate)
    ensures Foundations(list + [c]) == Foundations(list) + {c.foundation}
    ensures forall i :: 0 <= i < |list| ==> list[i].foundation in Foundations(list)
  {
    forall i | 0 <= i < |list| ensures list[i].foundation in Foundations(list) { assert list[i] in list; }
    assert forall d :: d in list + [c] <==> d in list || d == c;
  }

  lemma ChosenStep(found: seq<Candidate>, book: Book, walked: set<string>, now: int, maxAttempts: int, id: string)
    requires id in book && book[id].id == id && id !in walked
    requires Chosen(found, Foundations(found), book, walked, now, maxAttempts)
    ensures if book[id].CanProbe(now, maxAttempts) && book[id].foundation !in Foundations(found)
      then Chosen(found + [book[id]], Foundations(found) + {book[id].foundation}, book, walked + {id}, now, maxAttempts)
      else Chosen(found, Foundations(found), book, walked + {id}, now, maxAttempts)
  {
    FoundationsMore(found, book[id]);
    hide Foundations, Candidate.CanProbe;
    var more := found + [book[id]];
    if book[id].CanProbe(now, maxAttempts) && book[id].foundation !in Foundations(found) {
      forall i | 0 <= i < |more|
        ensures more[i].id in walked + {id} && more[i].id in book && book[more[i].id] == more[i]
        ensures more[i].CanProbe(now, maxAttempts)
      {
        assert more[i] == if i < |found| then found[i] else book[id];
      }
      forall i, j | 0 <= i < j < |more| ensures more[i].foundation != more[j].foundation && more[i].id != more[j].id {
        assert more[i] == found[i];
      }
    }
  }

  lemma ChosenSorted(found: seq<Candidate>, seen: set<string>, book: Book, now: int, maxAttempts: int)
    requires Chosen(found, seen, book, book.Keys, now, maxAttempts)
    ensures IsProbable(Sort(found, Before), book, now, maxAttempts)
  {
    BeforeOrder();
    SortAscending(found, Before);
    SameElements(found, Sort(found, Before));
    var list := Sort(found, Before);
    forall i | 0 <= i < |list| ensures list[i] in found {
      assert list[i] in Elements(list);
    }
    forall i, j | 0 <= i < j < |list| ensures list[i].foundation != list[j].foundation {
      assert list[i] in found && list[j] in found;
      assert Before(list[i], list[j]);
      assert list[i] != list[j];
    }
    forall id | id in book && book[id].CanProbe(now, maxAttempts)
      ensures exists i :: 0 <= i < |list| && list[i].foundation == book[id].foundation
    {
      var c :| c in found && c.foundation == book[id].foundation;
      assert c in Elements(list);
      var i :| 0 <= i < |list| && list[i] == c;
    }
  }

  // What has been spent

  ghost function Spent(book: Book, ids: set<string>): nat
    requires ids <= book.Keys
  {
    if ids == {} then 0 else var id :| id in ids; book[id].attempts + Spent(book, ids - {id})
  }

  lemma {:induction false} SpentSplit(book: Book, ids: set<string>, id: string)
    requires ids <= book.Keys && id in ids
    ensures Spent(book, ids) == book[id].attempts + Spent(book, ids - {id})
  {
    var first :| first in ids && Spent(book, ids) == book[first].attempts + Spent(book, ids - {first});
    if first != id {
      SpentSplit(book, ids - {first}, id);
      SpentSplit(book, ids - {id}, first);
      assert ids - {first} - {id} == ids - {id} - {first};
    }
  }

  lemma {:induction false} SpentSame(a: Book, b: Book, ids: set<string>)
    requires ids <= a.Keys && ids <= b.Keys && forall id :: id in ids ==> a[id].attempts == b[id].attempts
    ensures Spent(a, ids) == Spent(b, ids)
  {
    if ids != {} {
      var id :| id in ids;
      SpentSplit(a, ids, id);
      SpentSplit(b, ids, id);
      SpentSame(a, b, ids - {id});
    }
  }

  lemma SpentAttempt(book: Book, ids: set<string>, id: string)
    requires ids <= book.Keys && id in book
    ensures Spent(Attempted(book, id), ids) == Spent(book, ids) + if id in ids then 1 else 0
  {
    if id in ids {
      SpentSplit(book, ids, id);
      SpentSplit(Attempted(book, id), ids, id);
      SpentSame(book, Attempted(book, id), ids - {id});
    } else {
      SpentSame(book, Attempted(book, id), ids);
    }
  }

  lemma {:induction false} SpentBound(book: Book, ids: set<string>, cap: nat)
    requires ids <= book.Keys && forall id :: id in ids ==> book[id].attempts <= cap
    ensures Spent(book, ids) <= Times(|ids|, cap)
  {
    if ids != {} {
      var id :| id in ids;
      SpentSplit(book, ids, id);
      SpentBound(book, ids - {id}, cap);
      assert |ids - {id}| == |ids| - 1;
    }
  }

  /** The book grew by candidates that were never tried. */
  ghost predicate Grown(a: Book, b: Book) {
    a.Keys <= b.Keys && forall id :: id in b ==> b[id].attempts == if id in a then a[id].attempts else 0
  }

  lemma {:induction false} SpentGrown(a: Book, b: Book, ids: set<string>)
    requires Grown(a, b) && ids <= b.Keys
    ensures Spent(b, ids) == Spent(a, ids * a.Keys)
  {
    if ids != {} {
      var id :| id in ids;
      SpentSplit(b, ids, id);
      SpentGrown(a, b, ids - {id});
      if id in a {
        SpentSplit(a, ids * a.Keys, id);
        assert ids * a.Keys - {id} == (ids - {id}) * a.Keys;
      } else {
        assert ids * a.Keys == (ids - {id}) * a.Keys;
      }
    }
  }

  function Times(n: nat, cap: nat): (r: nat)
    ensures r == n * cap
  {
    if n == 0 then 0 else Times(n - 1, cap) + cap
  }

  lemma {:induction false} TimesGrows(n: nat, m: nat, cap: nat)
    requires n <= m
    ensures Times(n, cap) <= Times(m, cap)
  {
    if n < m { TimesGrows(n, m - 1, cap); }
  }
}
