/**
 `sorted(items, key=...)`, for any order of keys: stable, and with one outcome when no two items
 have equal keys.

 An order is a predicate "at or before" that is total and transitive. Sorting is by insertion, an
 item going in front of the first one it is at or before, so items with equal keys keep the order
 they came in.

 The results the other modules use: sorting keeps the items and puts them in order, keeps distinct
 items distinct, and gives one list for every arrangement of items whose keys are apart.
 */
module Ordering {

  type Order<!T> = (T, T) -> bool

  ghost predicate TotalOrder<T(!new)>(leq: Order<T>) {
    && (forall x, y :: leq(x, y) || leq(y, x))
    && (forall x, y, z :: leq(x, y) && leq(y, z) ==> leq(x, z))
  }

  function Place<T>(leq: Order<T>, x: T, s: seq<T>): seq<T> {
    if s == [] || leq(x, s[0]) then [x] + s else [s[0]] + Place(leq, x, s[1..])
  }

  function SortBy<T>(leq: Order<T>, s: seq<T>): seq<T> {
    if s == [] then [] else Place(leq, s[0], SortBy(leq, s[1..]))
  }

  ghost predicate InOrder<T>(leq: Order<T>, s: seq<T>) {
    forall i, j :: 0 <= i < j < |s| ==> leq(s[i], s[j])
  }

  lemma {:induction false} PlaceKeeps<T>(leq: Order<T>, x: T, s: seq<T>)
    ensures multiset(Place(leq, x, s)) == multiset(s) + multiset{x}
  {
    if s != [] && !leq(x, s[0]) {
      PlaceKeeps(leq, x, s[1..]);
      WithoutFirst(s);
      assert Place(leq, x, s) == [s[0]] + Place(leq, x, s[1..]);
      assert multiset(s) == multiset{s[0]} + multiset(s[1..]);
    }
  }

  lemma {:induction false} SortKeeps<T>(leq: Order<T>, s: seq<T>)
    ensures multiset(SortBy(leq, s)) == multiset(s)
    ensures |SortBy(leq, s)| == |s|
    ensures forall x :: x in SortBy(leq, s) <==> x in s
  {
    if s != [] {
      SortKeeps(leq, s[1..]);
      PlaceKeeps(leq, s[0], SortBy(leq, s[1..]));
      assert s == [s[0]] + s[1..];
    }
    SameBag(SortBy(leq, s), s);
  }

  lemma SameBag<T>(s: seq<T>, t: seq<T>)
    requires multiset(s) == multiset(t)
    ensures |s| == |t| && forall x :: x in s <==> x in t
  {
    assert |multiset(s)| == |s| && |multiset(t)| == |t|;
    forall x
      ensures x in s <==> x in t
    {
      assert x in multiset(s) <==> x in multiset(t);
    }
  }

  lemma {:induction false} PlaceInOrder<T(!new)>(leq: Order<T>, x: T, s: seq<T>)
    requires TotalOrder(leq) && InOrder(leq, s)
    ensures InOrder(leq, Place(leq, x, s))
  {
    var placed := Place(leq, x, s);
    if s != [] && !leq(x, s[0]) {
      var rest := Place(leq, x, s[1..]);
      PlaceInOrder(leq, x, s[1..]);
      PlaceKeeps(leq, x, s[1..]);
      FirstBelow(leq, x, s, rest);
      Prefixed(leq, s[0], rest);
    } else if s != [] {
      forall j | 0 <= j < |s|
        ensures leq(x, s[j])
      {
        assert j > 0 ==> leq(s[0], s[j]);
      }
      Prefixed(leq, x, s);
    }
  }

  lemma FirstBelow<T(!new)>(leq: Order<T>, x: T, s: seq<T>, rest: seq<T>)
    requires TotalOrder(leq) && s != [] && !leq(x, s[0]) && InOrder(leq, s)
    requires multiset(rest) == multiset(s[1..]) + multiset{x}
    ensures forall k :: 0 <= k < |rest| ==> leq(s[0], rest[k])
  {
    forall k | 0 <= k < |rest|
      ensures leq(s[0], rest[k])
    {
      assert rest[k] in multiset(rest);
      if rest[k] != x {
        assert rest[k] in s[1..];
      }
    }
  }

  lemma Prefixed<T>(leq: Order<T>, x: T, s: seq<T>)
    requires InOrder(leq, s) && forall k :: 0 <= k < |s| ==> leq(x, s[k])
    ensures InOrder(leq, [x] + s)
  {
  }

  lemma {:induction false} SortOrders<T(!new)>(leq: Order<T>, s: seq<T>)
    requires TotalOrder(leq)
    ensures InOrder(leq, SortBy(leq, s))
  {
    if s != [] {
      SortOrders(leq, s[1..]);
      PlaceInOrder(leq, s[0], SortBy(leq, s[1..]));
    }
  }

  /** The items with the key of `y`, in the order they stand. */
  function Tied<T>(leq: Order<T>, y: T, s: seq<T>): seq<T> {
    if s == [] then []
    else (if leq(s[0], y) && leq(y, s[0]) then [s[0]] else []) + Tied(leq, y, s[1..])
  }

  lemma {:induction false} PlaceIsStable<T(!new)>(leq: Order<T>, x: T, s: seq<T>, y: T)
    requires TotalOrder(leq)
    ensures Tied(leq, y, Place(leq, x, s)) == Tied(leq, y, [x] + s)
  {
    assert ([x] + s)[1..] == s;
    if s != [] && !leq(x, s[0]) {
      PlaceIsStable(leq, x, s[1..], y);
      assert ([x] + s[1..])[1..] == s[1..];
      assert ([s[0]] + Place(leq, x, s[1..]))[1..] == Place(leq, x, s[1..]);
    }
  }

  /** Items of one key keep the order they came in. */
  lemma {:induction false} SortIsStable<T(!new)>(leq: Order<T>, s: seq<T>, y: T)
    requires TotalOrder(leq)
    ensures Tied(leq, y, SortBy(leq, s)) == Tied(leq, y, s)
  {
    if s != [] {
      SortIsStable(leq, s[1..], y);
      var t := SortBy(leq, s[1..]);
      PlaceIsStable(leq, s[0], t, y);
      assert ([s[0]] + t)[1..] == t;
    }
  }

  ghost predicate Distinct<T>(s: seq<T>) {
    forall i, j :: 0 <= i < j < |s| ==> s[i] != s[j]
  }

  lemma {:induction false} PlaceDistinct<T>(leq: Order<T>, x: T, s: seq<T>)
    requires Distinct(s) && x !in s
    ensures Distinct(Place(leq, x, s))
  {
    if s == [] || leq(x, s[0]) {
      JoinDistinct([x], s);
    } else {
      PlaceDistinct(leq, x, s[1..]);
      PlaceKeeps(leq, x, s[1..]);
      SameBag(Place(leq, x, s[1..]), [x] + s[1..]);
      assert s[0] !in s[1..];
      JoinDistinct([s[0]], Place(leq, x, s[1..]));
    }
  }

  lemma {:induction false} SortDistinct<T>(leq: Order<T>, s: seq<T>)
    requires Distinct(s)
    ensures Distinct(SortBy(leq, s))
  {
    if s != [] {
      SortDistinct(leq, s[1..]);
      SortKeeps(leq, s[1..]);
      PlaceDistinct(leq, s[0], SortBy(leq, s[1..]));
    }
  }

  lemma JoinDistinct<T>(s: seq<T>, t: seq<T>)
    requires Distinct(s) && Distinct(t) && forall x :: x in s ==> x !in t
    ensures Distinct(s + t)
  {
    forall i, j | 0 <= i < j < |s + t|
      ensures (s + t)[i] != (s + t)[j]
    {
      if i < |s| <= j {
        assert s[i] in s && t[j - |s|] in t;
      }
    }
  }

  lemma {:induction false} DistinctOnce<T>(s: seq<T>, x: T)
    requires Distinct(s)
    ensures multiset(s)[x] == if x in s then 1 else 0
  {
    if s != [] {
      DistinctOnce(s[1..], x);
      WithoutFirst(s);
      assert multiset(s) == multiset{s[0]} + multiset(s[1..]);
    }
  }

  lemma DistinctSame<T>(s: seq<T>, t: seq<T>)
    requires Distinct(s) && Distinct(t) && forall x :: x in s <==> x in t
    ensures multiset(s) == multiset(t)
  {
    forall x
      ensures multiset(s)[x] == multiset(t)[x]
    {
      DistinctOnce(s, x);
      DistinctOnce(t, x);
    }
  }

  /** Distinct keys: two items each at or before the other are one item. */
  ghost predicate KeysApart<T>(leq: Order<T>, s: seq<T>) {
    forall x, y :: x in s && y in s && leq(x, y) && leq(y, x) ==> x == y
  }

  /** So the order items arrive in is forgotten. */
  lemma {:induction false} OneOrder<T(!new)>(leq: Order<T>, s: seq<T>, t: seq<T>)
    requires InOrder(leq, s) && InOrder(leq, t) && multiset(s) == multiset(t) && KeysApart(leq, s)
    ensures s == t
  {
    SameBag(s, t);
    if s != [] {
      SameFirst(leq, s, t);
      WithoutFirst(s);
      WithoutFirst(t);
      OneOrder(leq, s[1..], t[1..]);
    }
  }

  lemma WithoutFirst<T>(s: seq<T>)
    requires s != []
    ensures multiset(s[1..]) == multiset(s) - multiset{s[0]} && s == [s[0]] + s[1..]
    ensures forall x :: x in s[1..] ==> x in s
  {
    assert s == [s[0]] + s[1..];
  }

  lemma SameFirst<T>(leq: Order<T>, s: seq<T>, t: seq<T>)
    requires s != [] && t != [] && InOrder(leq, s) && InOrder(leq, t) && KeysApart(leq, s)
    requires forall x :: x in s <==> x in t
    ensures s[0] == t[0]
  {
    assert t[0] in t && s[0] in s;
    assert t[0] in s && s[0] in t;
    var i :| 0 <= i < |s| && s[i] == t[0];
    var j :| 0 <= j < |t| && t[j] == s[0];
    if i > 0 && j > 0 {
      assert leq(s[0], s[i]) && leq(t[0], t[j]);
    }
  }

  /** A set as a list in order. */
  method Listed<T(==,!new)>(leq: Order<T>, s: set<T>) returns (list: seq<T>)
    ensures Distinct(list) && forall x :: x in list <==> x in s
    ensures TotalOrder(leq) ==> InOrder(leq, list)
  {
    hide InOrder, TotalOrder;
    list := [];
    var rest := s;
    while rest != {}
      invariant rest <= s && Distinct(list) && forall x :: x in list <==> x in s - rest
      decreases |rest|
    {
      var x :| x in rest;
      JoinDistinct(list, [x]);
      list, rest := list + [x], rest - {x};
    }
    SortKeeps(leq, list);
    SortDistinct(leq, list);
    if TotalOrder(leq) {
      SortOrders(leq, list);
    }
    list := SortBy(leq, list);
  }
}
