/**
 * The library sort and sorted containers, by their result: ascending, with the same elements as often. For
 * an order that tells any two values apart there is only one such list, however the library sorts.
 */
module Sorting {

  /** le orders any two values and does so transitively. */
  ghost predicate Order<T(!new)>(le: (T, T) -> bool) {
    && (forall a, b :: le(a, b) || le(b, a))
    && (forall a, b, c :: le(a, b) && le(b, c) ==> le(a, c))
  }

  predicate IsSortedBy<T>(le: (T, T) -> bool, s: seq<T>) {
    forall i, j :: 0 <= i < j < |s| ==> le(s[i], s[j])
  }

  predicate Distinct<T(==)>(s: seq<T>) {
    forall i, j :: 0 <= i < j < |s| ==> s[i] != s[j]
  }

  function Insert<T>(le: (T, T) -> bool, x: T, s: seq<T>): seq<T> {
    if s == [] then [x]
    else if le(x, s[0]) then [x] + s
    else [s[0]] + Insert(le, x, s[1..])
  }

  lemma {:induction false} InsertMultiset<T>(le: (T, T) -> bool, x: T, s: seq<T>)
    ensures multiset(Insert(le, x, s)) == multiset(s) + multiset{x}
  {
    if s != [] && !le(x, s[0]) {
      InsertMultiset(le, x, s[1..]);
      assert s == [s[0]] + s[1..];
    }
  }

  lemma {:induction false} InsertSorted<T(!new)>(le: (T, T) -> bool, x: T, s: seq<T>)
    requires Order(le) && IsSortedBy(le, s)
    ensures IsSortedBy(le, Insert(le, x, s))
    ensures s != [] ==> Insert(le, x, s)[0] == if le(x, s[0]) then x else s[0]
  {
    if s != [] && !le(x, s[0]) {
      InsertSorted(le, x, s[1..]);
      SortedCons(le, s[0], Insert(le, x, s[1..]));
    } else {
      SortedCons(le, x, s);
    }
  }

  lemma SortedCons<T(!new)>(le: (T, T) -> bool, x: T, s: seq<T>)
    requires Order(le) && IsSortedBy(le, s) && (s != [] ==> le(x, s[0]))
    ensures IsSortedBy(le, [x] + s)
  {
    forall i, j | 0 <= i < j < |s| + 1
      ensures le(([x] + s)[i], ([x] + s)[j])
    {
      if i == 0 && j > 1 {
        assert le(x, s[0]) && le(s[0], s[j - 1]);
      }
    }
  }

  function SortBy<T>(le: (T, T) -> bool, s: seq<T>): seq<T> {
    if s == [] then [] else Insert(le, s[|s| - 1], SortBy(le, s[..|s| - 1]))
  }

  /** The result is ascending and has the same elements, each as often. */
  lemma {:induction false} SortByCorrect<T(!new)>(le: (T, T) -> bool, s: seq<T>)
    requires Order(le)
    ensures IsSortedBy(le, SortBy(le, s)) && multiset(SortBy(le, s)) == multiset(s)
  {
    hide Insert;
    if s != [] {
      var front, last := s[..|s| - 1], s[|s| - 1];
      SortByCorrect(le, front);
      InsertSorted(le, last, SortBy(le, front));
      InsertMultiset(le, last, SortBy(le, front));
      assert s == front + [last];
    }
  }

  lemma SortByMembers<T(!new)>(le: (T, T) -> bool, s: seq<T>)
    requires Order(le)
    ensures |SortBy(le, s)| == |s|
    ensures forall x :: x in SortBy(le, s) <==> x in s
    ensures Distinct(s) ==> Distinct(SortBy(le, s))
  {
    SortByCorrect(le, s);
    var sorted := SortBy(le, s);
    assert |multiset(sorted)| == |sorted| && |multiset(s)| == |s|;
    forall x
      ensures x in sorted <==> x in s
    {
      assert x in sorted <==> x in multiset(sorted);
      assert x in s <==> x in multiset(s);
    }
    DistinctMeansOnce(s);
    DistinctMeansOnce(sorted);
  }

  // ---------------------------------------------------------------- numbers

  predicate IsSorted(s: seq<nat>) {
    forall i, j :: 0 <= i < j < |s| ==> s[i] <= s[j]
  }

  predicate AtMost(a: nat, b: nat) {
    a <= b
  }

  function Sort(s: seq<nat>): seq<nat> {
    SortBy(AtMost, s)
  }

  lemma SortCorrect(s: seq<nat>)
    ensures IsSorted(Sort(s)) && multiset(Sort(s)) == multiset(s)
  {
    SortByCorrect(AtMost, s);
    var sorted := Sort(s);
    forall i, j | 0 <= i < j < |sorted|
      ensures sorted[i] <= sorted[j]
    {
      assert AtMost(sorted[i], sorted[j]);
    }
  }

  lemma SortMembers(s: seq<nat>)
    ensures |Sort(s)| == |s|
    ensures forall x :: x in Sort(s) <==> x in s
  {
    SortByMembers(AtMost, s);
  }

  lemma {:induction false} DistinctMeansOnce<T>(s: seq<T>)
    ensures Distinct(s) <==> forall x :: x in multiset(s) ==> multiset(s)[x] == 1
  {
    if s != [] {
      var front, last := s[..|s| - 1], s[|s| - 1];
      assert s == front + [last];
      DistinctMeansOnce(front);
      if Distinct(s) {
        assert last !in front;
        assert last !in multiset(front);
      } else if Distinct(front) {
        assert last in front;
        assert last in multiset(front) && multiset(s)[last] == 2;
      } else {
        var x :| x in multiset(front) && multiset(front)[x] != 1;
        assert multiset(s)[x] > 1;
      }
    }
  }

  /** Sorting a duplicate-free list gives its elements in strictly ascending order. */
  lemma SortDistinct(s: seq<nat>)
    requires Distinct(s)
    ensures Distinct(Sort(s))
    ensures forall i, j :: 0 <= i < j < |Sort(s)| ==> Sort(s)[i] < Sort(s)[j]
  {
    SortCorrect(s);
    DistinctMeansOnce(s);
    DistinctMeansOnce(Sort(s));
  }

  /** The elements that satisfy keep, in order. */
  function Filter<T>(keep: T -> bool, s: seq<T>): seq<T> {
    if s == [] then []
    else
      var front, last := Filter(keep, s[..|s| - 1]), s[|s| - 1];
      if keep(last) then front + [last] else front
  }

  lemma {:induction false} FilterMembers<T(!new)>(keep: T -> bool, s: seq<T>)
    ensures forall x :: x in Filter(keep, s) <==> x in s && keep(x)
  {
    if s != [] {
      var front, last := s[..|s| - 1], s[|s| - 1];
      FilterMembers(keep, front);
      assert s == front + [last];
    }
  }

  lemma {:induction false} FilterDistinct<T(!new)>(keep: T -> bool, s: seq<T>)
    requires Distinct(s)
    ensures Distinct(Filter(keep, s))
  {
    if s != [] {
      var front, last := s[..|s| - 1], s[|s| - 1];
      FilterDistinct(keep, front);
      FilterMembers(keep, front);
      assert last !in front;
    }
  }

  /** Some place of a in s is before some place of b. */
  ghost predicate Before<T(!new)>(s: seq<T>, a: T, b: T) {
    exists i, j :: 0 <= i < j < |s| && s[i] == a && s[j] == b
  }

  lemma {:induction false} FilterInOrder<T(!new)>(keep: T -> bool, s: seq<T>)
    ensures forall x, y :: 0 <= x < y < |Filter(keep, s)| ==> Before(s, Filter(keep, s)[x], Filter(keep, s)[y])
  {
    if s != [] {
      var front, last := s[..|s| - 1], s[|s| - 1];
      var kept := Filter(keep, s);
      FilterInOrder(keep, front);
      FilterMembers(keep, front);
      forall x, y | 0 <= x < y < |kept| ensures Before(s, kept[x], kept[y]) {
        var before := Filter(keep, front);
        var a := before[x];
        assert kept[x] == a && a in before;
        assert a in front;
        if y < |Filter(keep, front)| {
          assert Before(front, kept[x], kept[y]);
          var i, j :| 0 <= i < j < |front| && front[i] == kept[x] && front[j] == kept[y];
          assert s[i] == kept[x] && s[j] == kept[y];
        } else {
          var i :| 0 <= i < |front| && front[i] == a;
          assert s[i] == kept[x] && s[|s| - 1] == kept[y];
        }
      }
    }
  }

  lemma FilterSnoc<T>(keep: T -> bool, s: seq<T>, i: nat)
    requires i < |s|
    ensures Filter(keep, s[..i + 1]) == Filter(keep, s[..i]) + if keep(s[i]) then [s[i]] else []
  {
    assert s[..i + 1][..i] == s[..i];
  }

  // ---------------------------------------------------------------- the order of a map's keys

  /** An order in which no two values come level. */
  ghost predicate StrictOrder<T(!new)>(le: (T, T) -> bool) {
    Order(le) && forall a, b :: le(a, b) && le(b, a) ==> a == b
  }

  lemma FirstIsIn<T>(s: seq<T>)
    ensures s != [] ==> s[0] in s
  {
  }

  lemma FirstComesFirst<T(!new)>(le: (T, T) -> bool, s: seq<T>, x: T)
    requires Order(le) && IsSortedBy(le, s) && x in s
    ensures le(s[0], x)
  {
    var i :| 0 <= i < |s| && s[i] == x;
    assert le(s[0], s[0]);
  }

  /** There is only one way to list the same elements in order, each once. */
  lemma {:induction false} SortedIsUnique<T(!new)>(le: (T, T) -> bool, a: seq<T>, b: seq<T>)
    requires StrictOrder(le) && IsSortedBy(le, a) && IsSortedBy(le, b) && Distinct(a) && Distinct(b)
    requires forall x :: x in a <==> x in b
    ensures a == b
  {
    FirstIsIn(a);
    FirstIsIn(b);
    if a != [] {
      FirstComesFirst(le, b, a[0]);
      FirstComesFirst(le, a, b[0]);
      forall x ensures x in a[1..] <==> x in b[1..] {
        assert x in a[1..] <==> x in a && x != a[0];
        assert x in b[1..] <==> x in b && x != b[0];
      }
      SortedIsUnique(le, a[1..], b[1..]);
      assert a == [a[0]] + a[1..] && b == [b[0]] + b[1..];
    }
  }

  predicate IsLeast<T(!new, ==)>(le: (T, T) -> bool, x: T, s: set<T>) {
    x in s && forall y <- s :: le(x, y)
  }

  lemma {:induction false} HasLeast<T(!new)>(le: (T, T) -> bool, s: set<T>)
    requires Order(le) && s != {}
    ensures exists x :: IsLeast(le, x, s)
    decreases |s|
  {
    var x :| x in s;
    var rest := s - {x};
    assert forall z :: z in s ==> z == x || z in rest;
    if rest == {} {
      assert IsLeast(le, x, s);
    } else {
      HasLeast(le, rest);
      var y :| IsLeast(le, y, rest);
      if le(x, y) {
        assert IsLeast(le, x, s);
      } else {
        assert IsLeast(le, y, s);
      }
    }
  }

  function Least<T(!new, ==)>(le: (T, T) -> bool, s: set<T>): (x: T)
    requires StrictOrder(le) && s != {}
    ensures IsLeast(le, x, s)
  {
    HasLeast(le, s);
    var x :| x in s && IsLeast(le, x, s);
    x
  }

  /** The elements in ascending order, as iteration over a std::map gives its keys. */
  function Ascending<T(!new, ==)>(le: (T, T) -> bool, s: set<T>): seq<T>
    requires StrictOrder(le)
    decreases |s|
  {
    if s == {} then [] else [Least(le, s)] + Ascending(le, s - {Least(le, s)})
  }

  lemma {:induction false} AscendingMembers<T(!new)>(le: (T, T) -> bool, s: set<T>)
    requires StrictOrder(le)
    ensures forall x :: x in Ascending(le, s) <==> x in s
    ensures Distinct(Ascending(le, s)) && IsSortedBy(le, Ascending(le, s))
    decreases |s|
  {
    if s != {} {
      var x := Least(le, s);
      AscendingMembers(le, s - {x});
      var rest := Ascending(le, s - {x});
      assert rest != [] ==> rest[0] in rest;
      SortedCons(le, x, rest);
    }
  }
}
