/** The stable sort that JavaScript's `sort` is required to be, as insertion of one element after another. */
module Sorting {

  ghost predicate TotalPreorder<T(!new)>(le: (T, T) -> bool)
  {
    && (forall a, b :: le(a, b) || le(b, a))
    && (forall a, b, c :: le(a, b) && le(b, c) ==> le(a, c))
  }

  /** Inserts after every element that may stand before it. */
  function Insert<T>(s: seq<T>, x: T, le: (T, T) -> bool): (r: seq<T>)
    ensures |r| == |s| + 1
  {
    if s == [] || le(s[|s| - 1], x) then s + [x]
    else Insert(s[..|s| - 1], x, le) + [s[|s| - 1]]
  }

  function Sort<T>(s: seq<T>, le: (T, T) -> bool): (r: seq<T>)
    ensures |r| == |s|
  {
    if s == [] then [] else Insert(Sort(s[..|s| - 1], le), s[|s| - 1], le)
  }

  ghost predicate Sorted<T>(s: seq<T>, le: (T, T) -> bool)
  {
    forall i, j :: 0 <= i < j < |s| ==> le(s[i], s[j])
  }

  lemma {:induction false} InsertSorts<T(!new)>(s: seq<T>, x: T, le: (T, T) -> bool)
    requires TotalPreorder(le) && Sorted(s, le)
    ensures Sorted(Insert(s, x, le), le) && multiset(Insert(s, x, le)) == multiset(s) + multiset{x}
  {
    if s == [] || le(s[|s| - 1], x) {
      forall i | 0 <= i < |s| ensures le(s[i], x) {
        assert i == |s| - 1 || le(s[i], s[|s| - 1]);
      }
    } else {
      var front, last := s[..|s| - 1], s[|s| - 1];
      assert s == front + [last];
      InsertSorts(front, x, le);
      var r := Insert(front, x, le);
      forall i | 0 <= i < |r| ensures le(r[i], last) {
        assert r[i] in multiset(r);
        assert r[i] == x || r[i] in front;
      }
    }
  }

  /** Sorting sorts, and loses and invents nothing. */
  lemma {:induction false} SortSorts<T(!new)>(s: seq<T>, le: (T, T) -> bool)
    requires TotalPreorder(le)
    ensures Sorted(Sort(s, le), le) && multiset(Sort(s, le)) == multiset(s)
  {
    if s != [] {
      SortSorts(s[..|s| - 1], le);
      InsertSorts(Sort(s[..|s| - 1], le), s[|s| - 1], le);
      assert s == s[..|s| - 1] + [s[|s| - 1]];
    }
  }

  lemma SortMembers<T(!new)>(s: seq<T>, le: (T, T) -> bool)
    requires TotalPreorder(le)
    ensures forall x :: x in Sort(s, le) <==> x in s
  {
    SortSorts(s, le);
    forall x ensures x in Sort(s, le) <==> x in s { assert x in multiset(Sort(s, le)) <==> x in multiset(s); }
  }

  function Filter<T>(s: seq<T>, p: T -> bool): seq<T>
  {
    if s == [] then []
    else Filter(s[..|s| - 1], p) + if p(s[|s| - 1]) then [s[|s| - 1]] else []
  }

  /** What is picked out of a sequence: its elements at these positions, in their order. */
  ghost predicate Picks<T>(s: seq<T>, r: seq<T>, at: seq<nat>)
  {
    && |at| == |r| && (forall i :: 0 <= i < |at| ==> at[i] < |s| && r[i] == s[at[i]])
    && forall i, j :: 0 <= i < j < |at| ==> at[i] < at[j]
  }

  /** One more element is picked, or passed over. */
  lemma PicksSnoc<T>(s: seq<T>, r: seq<T>, at: seq<nat>, x: T)
    requires Picks(s, r, at)
    ensures Picks(s + [x], r, at) && Picks(s + [x], r + [x], at + [|s|])
    ensures |s| !in at && forall k :: k in at + [|s|] <==> k in at || k == |s|
  {
  }

  /** What is picked is determined by the positions. */
  lemma PicksIsOne<T>(s: seq<T>, a: seq<T>, p: seq<nat>, b: seq<T>, q: seq<nat>)
    requires Picks(s, a, p) && Picks(s, b, q) && forall k: nat :: k < |s| ==> (k in p <==> k in q)
    ensures a == b
  {
    forall k ensures k in p <==> k in q { assert k in p ==> k < |s|; assert k in q ==> k < |s|; }
    IncreasingIsOne(p, q);
  }

  lemma {:induction false} IncreasingIsOne(p: seq<nat>, q: seq<nat>)
    requires (forall i, j :: 0 <= i < j < |p| ==> p[i] < p[j]) && (forall i, j :: 0 <= i < j < |q| ==> q[i] < q[j])
    requires forall k :: k in p <==> k in q
    ensures p == q
  {
    if p == [] {
      assert forall i :: 0 <= i < |q| ==> q[i] in q;
    } else {
      var m, n := |p| - 1, |q| - 1;
      assert p[m] in q;
      assert q[n] in p;
      assert p[m] == q[n] by {
        var i :| 0 <= i < |q| && q[i] == p[m];
        var j :| 0 <= j < |p| && p[j] == q[n];
      }
      forall k ensures k in p[..m] <==> k in q[..n] { InFront(p, k); InFront(q, k); }
      IncreasingIsOne(p[..m], q[..n]);
    }
  }

  lemma InFront(p: seq<nat>, k: nat)
    requires p != [] && forall i, j :: 0 <= i < j < |p| ==> p[i] < p[j]
    ensures k in p[..|p| - 1] <==> k in p && k != p[|p| - 1]
  {
  }

  /** Filtering picks the elements that have the property. */
  lemma {:induction false} FilterPicks<T>(s: seq<T>, p: T -> bool) returns (at: seq<nat>)
    ensures Picks(s, Filter(s, p), at) && forall k: nat :: k < |s| ==> (k in at <==> p(s[k]))
  {
    if s == [] {
      at := [];
    } else {
      var front, last := s[..|s| - 1], s[|s| - 1];
      at := FilterPicks(front, p);
      PicksSnoc(front, Filter(front, p), at, last);
      assert s == front + [last];
      if p(last) { at := at + [|front|]; } else { assert Filter(front, p) + [] == Filter(front, p); }
    }
  }

  ghost predicate OneClass<T(!new)>(p: T -> bool, le: (T, T) -> bool)
  {
    forall a, b :: p(a) && p(b) ==> le(a, b)
  }

  lemma FilterSnoc<T>(s: seq<T>, x: T, p: T -> bool)
    ensures Filter(s + [x], p) == Filter(s, p) + if p(x) then [x] else []
  {
  }

  lemma {:induction false} InsertIsStable<T(!new)>(s: seq<T>, x: T, p: T -> bool, le: (T, T) -> bool)
    requires OneClass(p, le)
    ensures Filter(Insert(s, x, le), p) == Filter(s, p) + if p(x) then [x] else []
  {
    if s == [] || le(s[|s| - 1], x) {
      FilterSnoc(s, x, p);
    } else {
      var front, last := s[..|s| - 1], s[|s| - 1];
      InsertIsStable(front, x, p, le);
      FilterSnoc(Insert(front, x, le), last, p);
    }
  }

  /** Sorting is stable: elements of one rank keep the order they were given in. */
  lemma {:induction false} SortIsStable<T(!new)>(s: seq<T>, p: T -> bool, le: (T, T) -> bool)
    requires OneClass(p, le)
    ensures Filter(Sort(s, le), p) == Filter(s, p)
  {
    if s != [] {
      SortIsStable(s[..|s| - 1], p, le);
      InsertIsStable(Sort(s[..|s| - 1], le), s[|s| - 1], p, le);
    }
  }

  function Map<T, U>(s: seq<T>, f: T -> U): (r: seq<U>)
    ensures |r| == |s| && forall i :: 0 <= i < |s| ==> r[i] == f(s[i])
  {
    if s == [] then [] else Map(s[..|s| - 1], f) + [f(s[|s| - 1])]
  }

  ghost predicate SameOrder<T, U>(s: seq<T>, f: T -> U, le: (T, T) -> bool, le': (U, U) -> bool)
  {
    forall a, b :: a in s && b in s ==> le(a, b) == le'(f(a), f(b))
  }

  lemma {:induction false} MapOfInsert<T, U>(s: seq<T>, x: T, f: T -> U, le: (T, T) -> bool, le': (U, U) -> bool)
    requires SameOrder(s + [x], f, le, le')
    ensures Map(Insert(s, x, le), f) == Insert(Map(s, f), f(x), le')
  {
    if s != [] {
      var front, last := s[..|s| - 1], s[|s| - 1];
      assert last in s + [x] && x in s + [x];
      assert Map(s, f)[..|s| - 1] == Map(front, f);
      if !le(last, x) {
        assert forall a :: a in front + [x] ==> a in s + [x];
        MapOfInsert(front, x, f, le, le');
      }
    }
  }

  /** Sorting commutes with a map that keeps the order. */
  lemma {:induction false} MapOfSort<T, U>(s: seq<T>, f: T -> U, le: (T, T) -> bool, le': (U, U) -> bool)
    requires SameOrder(s, f, le, le')
    ensures Map(Sort(s, le), f) == Sort(Map(s, f), le')
  {
    if s != [] {
      var front, last := s[..|s| - 1], s[|s| - 1];
      assert forall a :: a in front ==> a in s;
      MapOfSort(front, f, le, le');
      SortHasOnly(front, le);
      assert forall a :: a in Sort(front, le) + [last] ==> a in s;
      MapOfInsert(Sort(front, le), last, f, le, le');
      assert Map(s, f)[..|s| - 1] == Map(front, f);
    }
  }

  lemma {:induction false} InsertHasOnly<T>(s: seq<T>, x: T, le: (T, T) -> bool)
    ensures forall a :: a in Insert(s, x, le) ==> a in s || a == x
  {
    if s != [] && !le(s[|s| - 1], x) {
      InsertHasOnly(s[..|s| - 1], x, le);
    }
  }

  lemma {:induction false} SortHasOnly<T>(s: seq<T>, le: (T, T) -> bool)
    ensures forall a :: a in Sort(s, le) ==> a in s
  {
    if s != [] {
      SortHasOnly(s[..|s| - 1], le);
      InsertHasOnly(Sort(s[..|s| - 1], le), s[|s| - 1], le);
    }
  }

  // ----- sorting and dropping what stands next to its like

  /** Every element that differs from the one before it. */
  function Collapse<T(==)>(s: seq<T>): (r: seq<T>)
    ensures s != [] ==> r != [] && r[|r| - 1] == s[|s| - 1]
    ensures |r| <= |s|
  {
    if s == [] then []
    else
      var front, last := s[..|s| - 1], s[|s| - 1];
      if front != [] && front[|front| - 1] == last then Collapse(front) else Collapse(front) + [last]
  }

  ghost predicate Antisymmetric<T(!new)>(le: (T, T) -> bool) { forall a, b :: le(a, b) && le(b, a) ==> a == b }

  /** Nothing is lost but repetitions, and what was in order stays so. */
  lemma {:induction false} CollapseKeeps<T(!new)>(s: seq<T>, le: (T, T) -> bool)
    requires Sorted(s, le)
    ensures forall x :: x in Collapse(s) <==> x in s
    ensures Sorted(Collapse(s), le)
  {
    if s != [] {
      var front, last := s[..|s| - 1], s[|s| - 1];
      assert s == front + [last];
      CollapseKeeps(front, le);
      forall x | x in front ensures le(x, last) {
        var i :| 0 <= i < |front| && front[i] == x;
        assert le(s[i], s[|s| - 1]);
      }
      forall i | 0 <= i < |Collapse(front)| ensures le(Collapse(front)[i], last) {
        assert Collapse(front)[i] in front;
      }
    }
  }

  /** Under an order without ties, no two of what is left are the same. */
  lemma {:induction false} CollapseIsDistinct<T(!new)>(s: seq<T>, le: (T, T) -> bool)
    requires Sorted(s, le) && Antisymmetric(le)
    ensures forall i, j :: 0 <= i < j < |Collapse(s)| ==> Collapse(s)[i] != Collapse(s)[j]
  {
    if s != [] {
      var front, last := s[..|s| - 1], s[|s| - 1];
      CollapseIsDistinct(front, le);
      if front != [] && front[|front| - 1] != last {
        CollapseKeeps(front, le);
        forall i | 0 <= i < |Collapse(front)| ensures Collapse(front)[i] != last {
          var x := Collapse(front)[i];
          assert x in front;
          var k :| 0 <= k < |front| && front[k] == x;
          assert k < |front| - 1 ==> le(s[k], s[|s| - 2]);
          assert le(s[|s| - 2], s[|s| - 1]);
        }
      }
    }
  }

  lemma {:induction false} CollapseOfDistinct<T(!new)>(s: seq<T>)
    requires forall i, j :: 0 <= i < j < |s| ==> s[i] != s[j]
    ensures Collapse(s) == s
  {
    if s != [] {
      var front, last := s[..|s| - 1], s[|s| - 1];
      CollapseOfDistinct(front);
      assert s == front + [last];
      assert front != [] ==> front[|front| - 1] == s[|s| - 2] != last;
    }
  }

  /** Under an order without ties, sorted lists without repetitions are determined by their elements. */
  lemma {:induction false} SortedIsUnique<T(!new)>(a: seq<T>, b: seq<T>, le: (T, T) -> bool)
    requires Antisymmetric(le) && Sorted(a, le) && Sorted(b, le) && forall x :: x in a <==> x in b
    requires forall i, j :: 0 <= i < j < |a| ==> a[i] != a[j]
    requires forall i, j :: 0 <= i < j < |b| ==> b[i] != b[j]
    ensures a == b
  {
    EmptyTogether(a, b);
    if a != [] {
      var x, y := a[|a| - 1], b[|b| - 1];
      assert x in b && y in a;
      assert le(x, y) || x == y;
      assert le(y, x) || x == y;
      var front, other := a[..|a| - 1], b[..|b| - 1];
      assert a == front + [x] && b == other + [y];
      FrontHasTheOthers(front, x);
      FrontHasTheOthers(other, y);
      SortedIsUnique(front, other, le);
    }
  }

  lemma EmptyTogether<T(!new)>(a: seq<T>, b: seq<T>)
    requires forall x :: x in a <==> x in b
    ensures a == [] <==> b == []
  {
    if a != [] { assert a[0] in b; }
    if b != [] { assert b[0] in a; }
  }

  lemma FrontHasTheOthers<T(!new)>(front: seq<T>, last: T)
    requires var s := front + [last]; forall i, j :: 0 <= i < j < |s| ==> s[i] != s[j]
    ensures forall x :: x in front <==> x in front + [last] && x != last
  {
    var s := front + [last];
    forall x | x in front ensures x != last {
      var i :| 0 <= i < |front| && front[i] == x;
      assert s[i] == x && s[|front|] == last;
    }
  }

  /** `deduplicateSorted` */
  method DeduplicateSorted<T(==)>(values: seq<T>, le: (T, T) -> bool) returns (r: seq<T>)
    ensures r == Collapse(Sort(values, le))
  {
    var sorted := Sort(values, le);
    r := [];
    for i := 0 to |sorted|
      invariant r == Collapse(sorted[..i])
    {
      assert sorted[..i + 1][..i] == sorted[..i];
      if r == [] || r[|r| - 1] != sorted[i] { r := r + [sorted[i]]; }
    }
    assert sorted[..|sorted|] == sorted;
  }

  /** It gives a sorted list of the same elements, each once, whatever list of them it is given. */
  lemma DeduplicatedIsSorted<T(!new)>(values: seq<T>, le: (T, T) -> bool)
    requires TotalPreorder(le) && Antisymmetric(le)
    ensures var r := Collapse(Sort(values, le));
            && Sorted(r, le) && (forall x :: x in r <==> x in values)
            && (forall i, j :: 0 <= i < j < |r| ==> r[i] != r[j])
            && Collapse(Sort(r, le)) == r
  {
    hide Collapse, Sort;
    var sorted := Sort(values, le);
    SortSorts(values, le);
    SortMembers(values, le);
    CollapseKeeps(sorted, le);
    CollapseIsDistinct(sorted, le);
    SortOfSorted(Collapse(sorted), le);
    CollapseOfDistinct(Collapse(sorted));
  }

  /** What it gives depends on nothing but which elements there are. */
  lemma DeduplicatedIsCanonical<T(!new)>(a: seq<T>, b: seq<T>, le: (T, T) -> bool)
    requires TotalPreorder(le) && Antisymmetric(le) && forall x :: x in a <==> x in b
    ensures Collapse(Sort(a, le)) == Collapse(Sort(b, le))
  {
    hide Collapse, Sort, Sorted;
    DeduplicatedIsSorted(a, le);
    DeduplicatedIsSorted(b, le);
    SortedIsUnique(Collapse(Sort(a, le)), Collapse(Sort(b, le)), le);
  }

  lemma {:induction false} SortOfSorted<T(!new)>(s: seq<T>, le: (T, T) -> bool)
    requires Sorted(s, le)
    ensures Sort(s, le) == s
  {
    if s != [] {
      var front := s[..|s| - 1];
      SortOfSorted(front, le);
      assert front != [] ==> le(s[|s| - 2], s[|s| - 1]);
      assert s == front + [s[|s| - 1]];
    }
  }
}
