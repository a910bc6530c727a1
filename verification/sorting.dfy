/**
 What the calls to slices.SortFunc give: a list put in ascending order. An
 ascending list is determined by the set of its elements, which is why results
 collected in map order come out the same on every run.
 */
module Sorting {

  ghost predicate Transitive<T(!new)>(lt: (T, T) -> bool) {
    forall a, b, c :: lt(a, b) && lt(b, c) ==> lt(a, c)
  }

  ghost predicate Irreflexive<T(!new)>(lt: (T, T) -> bool) { forall a :: !lt(a, a) }

  /** Elements at different positions are comparable. */
  ghost predicate Comparable<T>(l: seq<T>, lt: (T, T) -> bool) {
    forall i, j :: 0 <= i < j < |l| ==> lt(l[i], l[j]) || lt(l[j], l[i])
  }

  ghost predicate Ascending<T>(l: seq<T>, lt: (T, T) -> bool) {
    forall i, j :: 0 <= i < j < |l| ==> lt(l[i], l[j])
  }

  ghost function Elements<T>(l: seq<T>): set<T> { set x | x in l }

  function Insert<T>(x: T, l: seq<T>, lt: (T, T) -> bool): (r: seq<T>)
    ensures multiset(r) == multiset(l) + multiset{x}
  {
    if l == [] then [x]
    else
      assert l == [l[0]] + l[1..];
      if lt(x, l[0]) then [x] + l else [l[0]] + Insert(x, l[1..], lt)
  }

  function Sort<T>(l: seq<T>, lt: (T, T) -> bool): (r: seq<T>)
    ensures multiset(r) == multiset(l)
  {
    if l == [] then []
    else
      assert l == [l[0]] + l[1..];
      Insert(l[0], Sort(l[1..], lt), lt)
  }

  lemma {:induction false} InsertAscending<T(!new)>(x: T, l: seq<T>, lt: (T, T) -> bool)
    requires Transitive(lt) && Ascending(l, lt) && forall y :: y in l ==> lt(x, y) || lt(y, x)
    ensures Ascending(Insert(x, l, lt), lt)
  {
    if l != [] && !lt(x, l[0]) {
      InsertAscending(x, l[1..], lt);
      var rest := Insert(x, l[1..], lt);
      forall y | y in rest ensures lt(l[0], y) {
        assert y in multiset(rest);
      }
    }
  }

  lemma SameElements<T>(l: seq<T>, r: seq<T>)
    requires multiset(l) == multiset(r)
    ensures Elements(l) == Elements(r) && |l| == |r|
  {
    assert forall x :: x in l <==> x in multiset(l);
    assert forall x :: x in r <==> x in multiset(r);
    assert |l| == |multiset(l)| && |r| == |multiset(r)|;
  }

  lemma {:induction false} SortAscending<T(!new)>(l: seq<T>, lt: (T, T) -> bool)
    requires Transitive(lt) && Comparable(l, lt)
    ensures Ascending(Sort(l, lt), lt) && Elements(Sort(l, lt)) == Elements(l)
  {
    if l != [] {
      SortAscending(l[1..], lt);
      SameElements(l[1..], Sort(l[1..], lt));
      forall y | y in Sort(l[1..], lt) ensures lt(l[0], y) || lt(y, l[0]) {
        assert y in Elements(l[1..]);
        var i :| 0 <= i < |l[1..]| && l[1..][i] == y;
        assert l[i + 1] == y;
      }
      InsertAscending(l[0], Sort(l[1..], lt), lt);
    }
    SameElements(l, Sort(l, lt));
  }

  lemma ElementsMore<T>(l: seq<T>, x: T)
    ensures Elements(l + [x]) == Elements(l) + {x}
  {
  }

  lemma EmptyElements<T>(l: seq<T>)
    ensures Elements(l) == {} <==> l == []
  {
    if l != [] { assert l[0] in Elements(l); }
  }

  /** Two ascending lists of the same elements are the same list. */
  lemma {:induction false} AscendingUnique<T(!new)>(l: seq<T>, r: seq<T>, lt: (T, T) -> bool)
    requires Transitive(lt) && Irreflexive(lt) && Ascending(l, lt) && Ascending(r, lt)
    requires Elements(l) == Elements(r)
    ensures l == r
  {
    if l == [] || r == [] {
      EmptyElements(l);
      EmptyElements(r);
    } else {
      assert l[0] in Elements(r) && r[0] in Elements(l);
      assert l[0] == r[0];
      forall x ensures x in l[1..] <==> x in r[1..] {
        assert x in l <==> x in Elements(l);
        assert x in r <==> x in Elements(r);
        assert l == [l[0]] + l[1..] && r == [r[0]] + r[1..];
      }
      AscendingUnique(l[1..], r[1..], lt);
      assert l == [l[0]] + l[1..] && r == [r[0]] + r[1..];
    }
  }
}
