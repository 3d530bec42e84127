/** The partition assignment a group's leader computes for its members. */
module RangeAssignment {
  import opened Types
  import opened Sorting
  import opened Strings

  type MemberId = string

  /** Where the slice of the member in place i begins. */
  function Cut(count: nat, n: nat, i: nat): nat
    requires 0 < n
  {
    i * (count / n) + Min(i, count % n)
  }

  lemma CutStep(count: nat, n: nat, i: nat)
    requires i < n
    ensures Cut(count, n, i + 1) == Cut(count, n, i) + count / n + if i < count % n then 1 else 0
  {
    assert (i + 1) * (count / n) == i * (count / n) + count / n;
  }

  lemma CutZero(count: nat, n: nat)
    requires 0 < n
    ensures Cut(count, n, 0) == 0
  {
  }

  lemma CutInside(count: nat, n: nat, i: nat)
    requires i <= n && 0 < n
    ensures Cut(count, n, i) <= count && Cut(count, n, n) == count
  {
    assert n * (count / n) + count % n == count;
    ProductGrows(i, n, count / n);
  }

  lemma ProductGrows(i: nat, n: nat, q: nat)
    requires i <= n
    ensures i * q <= n * q
  {
  }

  /** The numbers lo, lo + 1, ..., hi - 1. */
  function Span(lo: nat, hi: nat): (s: seq<u32>)
    requires lo <= hi < TWO_32
    ensures |s| == hi - lo && forall k :: 0 <= k < |s| ==> s[k] == lo + k
  {
    seq(hi - lo, k requires 0 <= k < hi - lo => lo + k)
  }

  /** The slice of the member in place i of n. */
  function Slice(count: u32, n: nat, i: nat): seq<u32>
    requires i < n
  {
    CutStep(count, n, i);
    CutInside(count, n, i + 1);
    Span(Cut(count, n, i), Cut(count, n, i + 1))
  }

  /** The first i members of a list get their slices; a later member of the same name wins. */
  function Ranges(sorted: seq<MemberId>, count: u32, i: nat): map<MemberId, seq<u32>>
    requires i <= |sorted|
  {
    if i == 0 then map[] else Ranges(sorted, count, i - 1)[sorted[i - 1] := Slice(count, |sorted|, i - 1)]
  }

  function SortedMembers(members: seq<MemberId>): (s: seq<MemberId>)
    ensures |s| == |members|
  {
    StringOrder();
    SortByMembers(StringLe, members);
    SortBy(StringLe, members)
  }

  function RangeOf(members: seq<MemberId>, count: u32): map<MemberId, seq<u32>> {
    Ranges(SortedMembers(members), count, |members|)
  }

  /** The lists of the members in order, one after the other. */
  function Joined(order: seq<MemberId>, a: map<MemberId, seq<u32>>): seq<u32>
    requires forall m :: m in order ==> m in a
  {
    if order == [] then [] else Joined(order[..|order| - 1], a) + a[order[|order| - 1]]
  }

  lemma OneMoreKey<V>(keys: seq<MemberId>, i: nat, was: map<MemberId, V>, v: V)
    requires 0 < i <= |keys| && Distinct(keys) && forall m :: m in was <==> m in keys[..i - 1]
    ensures forall m :: m in was[keys[i - 1] := v] <==> m in keys[..i]
    ensures forall k :: 0 <= k < i - 1 ==> keys[k] in was && keys[k] != keys[i - 1]
  {
    assert keys[..i] == keys[..i - 1] + [keys[i - 1]];
    forall k | 0 <= k < i - 1 ensures keys[k] in was {
      assert keys[k] in keys[..i - 1];
    }
  }

  lemma {:induction false} RangesOf(sorted: seq<MemberId>, count: u32, i: nat)
    requires i <= |sorted| && Distinct(sorted)
    ensures forall m :: m in Ranges(sorted, count, i) <==> m in sorted[..i]
    ensures forall k :: 0 <= k < i ==> Ranges(sorted, count, i)[sorted[k]] == Slice(count, |sorted|, k)
  {
    hide Slice;
    if i > 0 {
      RangesOf(sorted, count, i - 1);
      OneMoreKey(sorted, i, Ranges(sorted, count, i - 1), Slice(count, |sorted|, i - 1));
    }
  }

  lemma JoinSpans(lo: nat, hi: nat)
    requires lo <= hi < TWO_32
    ensures Span(0, lo) + Span(lo, hi) == Span(0, hi)
  {
  }

  lemma {:induction false} JoinedIsSpan(order: seq<MemberId>, a: map<MemberId, seq<u32>>, count: u32, n: nat)
    requires |order| <= n && 0 < n
    requires forall k :: 0 <= k < |order| ==> order[k] in a && a[order[k]] == Slice(count, n, k)
    ensures Cut(count, n, |order|) <= count
    ensures Joined(order, a) == Span(0, Cut(count, n, |order|))
  {
    hide Cut, Span;
    var i := |order|;
    CutInside(count, n, i);
    if i == 0 {
      CutZero(count, n);
      assert Span(0, 0) == [];
    } else {
      JoinedIsSpan(order[..i - 1], a, count, n);
      CutStep(count, n, i - 1);
      assert order[i - 1] in order;
      JoinSpans(Cut(count, n, i - 1), Cut(count, n, i));
    }
  }

  /** Who gets how many: everyone the same, but the first ones one more if it does not divide. */
  lemma RangeSizes(members: seq<MemberId>, count: u32)
    requires Distinct(members) && members != []
    ensures var sorted, a := SortedMembers(members), RangeOf(members, count);
            forall i :: 0 <= i < |sorted| ==>
                          sorted[i] in a
                          && |a[sorted[i]]| == count / |members| + if i < count % |members| then 1 else 0
  {
    hide Cut;
    var sorted, n := SortedMembers(members), |members|;
    StringOrder();
    SortByMembers(StringLe, members);
    hide SortedMembers;
    RangesOf(sorted, count, n);
    assert sorted[..n] == sorted;
    forall i | 0 <= i < n
      ensures |Slice(count, n, i)| == count / n + if i < count % n then 1 else 0
    {
      CutStep(count, n, i);
    }
    assert forall i :: 0 <= i < n ==> sorted[i] in sorted;
  }

  lemma RangeBalanced(members: seq<MemberId>, count: u32)
    requires Distinct(members) && members != []
    requires forall m :: m in RangeOf(members, count) ==> m in SortedMembers(members)
    ensures var a := RangeOf(members, count); forall m, k :: m in a && k in a ==> |a[m]| <= |a[k]| + 1
  {
    hide RangeOf, SortedMembers;
    RangeSizes(members, count);
    var sorted, a := SortedMembers(members), RangeOf(members, count);
    forall m <- a ensures count / |members| <= |a[m]| <= count / |members| + 1 {
      var i :| 0 <= i < |sorted| && sorted[i] == m;
    }
  }

  /**
   * For distinct members the assignment is an exact balanced partition: exactly
   * the members have a list, the lists in member order are 0, 1, ..., count - 1,
   * and their lengths differ by at most one.
   */
  lemma RangeIsExact(members: seq<MemberId>, count: u32)
    requires Distinct(members) && members != []
    ensures var sorted, a := SortedMembers(members), RangeOf(members, count);
            && (forall m :: m in a <==> m in members) && (forall m :: m in sorted <==> m in members)
            && IsSortedBy(StringLe, sorted) && Distinct(sorted)
            && Joined(sorted, a) == Span(0, count)
            && forall m, k :: m in a && k in a ==> |a[m]| <= |a[k]| + 1
  {
    hide Cut, Slice;
    var sorted, n := SortedMembers(members), |members|;
    StringOrder();
    SortByCorrect(StringLe, members);
    SortByMembers(StringLe, members);
    RangesOf(sorted, count, n);
    assert sorted[..n] == sorted;
    var a := RangeOf(members, count);
    JoinedIsSpan(sorted, a, count, n);
    CutInside(count, n, n);
    RangeBalanced(members, count);
  }

  /** Members in name order get consecutive numbers. */
  lemma SortedMembersStay(members: seq<MemberId>)
    ensures Distinct(members) && IsSortedBy(StringLe, members) ==> SortedMembers(members) == members
  {
    if Distinct(members) && IsSortedBy(StringLe, members) {
      StringOrder();
      SortByCorrect(StringLe, members);
      SortByMembers(StringLe, members);
      SortedIsUnique(StringLe, SortedMembers(members), members);
    }
  }

  /** No partition is in two different members' lists. */
  ghost predicate Exclusive(a: map<MemberId, seq<u32>>) {
    forall m, k, p :: m in a && k in a && p in a[m] && p in a[k] ==> m == k
  }

  lemma {:induction false} CutMonotone(count: nat, n: nat, i: nat, j: nat)
    requires i <= j <= n && 0 < n
    ensures Cut(count, n, i) <= Cut(count, n, j)
  {
    if i < j {
      CutMonotone(count, n, i, j - 1);
      CutStep(count, n, j - 1);
    }
  }

  /** A partition in two slices is in one. */
  lemma SlicesApart(count: u32, n: nat, i: nat, j: nat, p: u32)
    requires i < n && j < n
    ensures p in Slice(count, n, i) && p in Slice(count, n, j) ==> i == j
  {
    hide Cut, Span;
    SliceMembers(count, n, i, p);
    SliceMembers(count, n, j, p);
    if p in Slice(count, n, i) && p in Slice(count, n, j) {
      if i < j {
        CutMonotone(count, n, i + 1, j);
      } else if j < i {
        CutMonotone(count, n, j + 1, i);
      }
    }
  }

  lemma SliceMembers(count: u32, n: nat, i: nat, p: u32)
    requires i < n
    ensures p in Slice(count, n, i) ==> Cut(count, n, i) <= p < Cut(count, n, i + 1)
  {
    hide Cut;
  }

  lemma RangeIsExclusive(members: seq<MemberId>, count: u32)
    requires Distinct(members)
    ensures Exclusive(RangeOf(members, count))
  {
    hide Cut, Slice, Ranges;
    var sorted, n := SortedMembers(members), |members|;
    StringOrder();
    SortByMembers(StringLe, members);
    RangesOf(sorted, count, n);
    assert sorted[..n] == sorted;
    var a := RangeOf(members, count);
    forall m, k, p | m in a && k in a && p in a[m] && p in a[k] ensures m == k {
      var i :| 0 <= i < n && sorted[i] == m;
      var j :| 0 <= j < n && sorted[j] == k;
      SlicesApart(count, n, i, j, p);
    }
  }

  /** The next count numbers, in 32 bits. */
  method NextNumbers(p: u32, count: nat) returns (parts: seq<u32>, p': u32)
    ensures p + count < TWO_32 ==> p' == p + count && parts == Span(p, p + count)
  {
    parts, p' := [], p;
    var k := 0;
    while k < count
      invariant 0 <= k <= count
      invariant p + count < TWO_32 ==> p' == p + k && parts == Span(p, p + k)
    {
      parts := parts + [p'];
      p' := (p' + 1) % TWO_32;
      k := k + 1;
    }
  }

  /** The slice in place i is the next one of its size. */
  lemma SliceIsNext(count: u32, n: nat, i: nat, p: nat, size: nat)
    requires i < n && p == Cut(count, n, i) && size == count / n + if i < count % n then 1 else 0
    ensures p + size <= count && p + size == Cut(count, n, i + 1) && Slice(count, n, i) == Span(p, p + size)
  {
    CutStep(count, n, i);
    CutInside(count, n, i + 1);
    hide Cut, Span;
  }

  /** The first i members have their slices, and p is the next partition to give away. */
  predicate Dealt(sorted: seq<MemberId>, count: u32, i: nat, p: u32, ranges: map<MemberId, seq<u32>>)
    requires i <= |sorted| && sorted != []
  {
    p == Cut(count, |sorted|, i) && ranges == Ranges(sorted, count, i)
  }

  lemma DealsNone(sorted: seq<MemberId>, count: u32)
    requires sorted != []
    ensures Dealt(sorted, count, 0, 0, map[])
  {
    CutZero(count, |sorted|);
  }

  /** What every member gets, and how many get one more. */
  predicate Shares(count: nat, n: nat, base: nat, extra: nat) {
    0 < n && base == count / n && extra == count % n
  }

  lemma DealsOne(sorted: seq<MemberId>, count: u32, i: nat, p: u32, ranges: map<MemberId, seq<u32>>,
      base: nat, extra: nat, size: nat)
    requires i < |sorted| && Dealt(sorted, count, i, p, ranges)
    requires Shares(count, |sorted|, base, extra) && size == base + if i < extra then 1 else 0
    ensures p + size < TWO_32 && Dealt(sorted, count, i + 1, p + size, ranges[sorted[i] := Span(p, p + size)])
  {
    hide Cut, Span, Slice;
    SliceIsNext(count, |sorted|, i, p, size);
  }

  lemma DealsAll(sorted: seq<MemberId>, count: u32, p: u32, ranges: map<MemberId, seq<u32>>)
    requires sorted != [] && Dealt(sorted, count, |sorted|, p, ranges)
    ensures ranges == Ranges(sorted, count, |sorted|)
  {
  }

  method Divide(count: u32, n: u32) returns (base: nat, extra: nat)
    requires n != 0
    ensures Shares(count, n, base, extra)
  {
    base, extra := count / n, count % n;
  }

  /** A cast to 32 bits. */
  function Low32(n: nat): (m: u32)
    ensures n < TWO_32 ==> m == n
  {
    n % TWO_32
  }

  /**
   * Splits the partitions 0 .. partitionCount - 1 among the members as evenly as
   * possible. The member count is cut to 32 bits: a list of 2^32 members divides
   * by zero, which None stands for.
   */
  method ComputeRangeAssignment(members: seq<MemberId>, partitionCount: u32)
    returns (assignment: Option<map<MemberId, seq<u32>>>)
    ensures assignment == None <==> members != [] && Low32(|members|) == 0
    ensures |members| < TWO_32 ==> assignment == Some(RangeOf(members, partitionCount))
  {
    hide Low32, Dealt, Span, SortedMembers, Shares;
    var sorted := SortedMembers(members);
    var ranges: map<MemberId, seq<u32>> := map[];
    if sorted == [] {
      return Some(ranges);
    }
    var n := |sorted|;
    var n32 := Low32(n);
    if n32 == 0 {
      return None;
    }
    var base, extra := Divide(partitionCount, n32);
    var p, i := 0, 0;
    DealsNone(sorted, partitionCount);
    while i < n
      invariant 0 <= i <= n && 0 <= p < TWO_32
      invariant n < TWO_32 ==> Dealt(sorted, partitionCount, i, p, ranges)
    {
      var count := base + if i < extra then 1 else 0;
      if n < TWO_32 {
        DealsOne(sorted, partitionCount, i, p, ranges, base, extra, count);
      }
      var parts;
      parts, p := NextNumbers(p, count);
      ranges := ranges[sorted[i] := parts];
      i := i + 1;
    }
    if n < TWO_32 {
      DealsAll(sorted, partitionCount, p, ranges);
    }
    return Some(ranges);
  }
}
