/** Linear and binary searches over the first `last` elements of a range. */
module Searching {
  import opened Ordering

  /** Every element ordered before `value` comes before every element that is not. */
  ghost predicate PartitionedBelow<T>(less: (T, T) -> bool, s: seq<T>, value: T) {
    forall i, j :: 0 <= i < j < |s| && less(s[j], value) ==> less(s[i], value)
  }

  /** Every element ordered after `value` comes after every element that is not. */
  ghost predicate PartitionedAbove<T>(less: (T, T) -> bool, s: seq<T>, value: T) {
    forall i, j :: 0 <= i < j < |s| && less(value, s[i]) ==> less(value, s[j])
  }

  lemma SortedIsPartitioned<T(!new)>(less: (T, T) -> bool, s: seq<T>, value: T)
    requires StrictWeakOrder(less) && Sorted(less, s)
    ensures PartitionedBelow(less, s, value) && PartitionedAbove(less, s, value)
  {
    forall i, j | 0 <= i < j < |s|
      ensures less(s[j], value) ==> less(s[i], value)
      ensures less(value, s[i]) ==> less(value, s[j])
    {
      if !less(s[i], value) {
        NotLessTransitive(less, s[j], s[i], value);
      }
      if !less(value, s[j]) {
        NotLessTransitive(less, value, s[j], s[i]);
      }
    }
  }

  method Find<T(==)>(a: array<T>, last: nat, value: T) returns (pos: nat)
    requires last <= a.Length
    ensures pos <= last
    ensures pos < last ==> a[pos] == value
    ensures value !in a[..pos]
  {
    pos := 0;
    while pos != last
      invariant pos <= last
      invariant value !in a[..pos]
    {
      if a[pos] == value {
        return;
      }
      pos := pos + 1;
    }
  }

  /** The position where `value` first fits, found by halving.
      On any input the neighbours of the result straddle `value`; on a partitioned one it is the partition point. */
  method LowerBound<T(!new)>(a: array<T>, last: nat, value: T, less: (T, T) -> bool) returns (first: nat)
    requires last <= a.Length
    ensures first <= last
    ensures 0 < first ==> less(a[first - 1], value)
    ensures first < last ==> !less(a[first], value)
    ensures PartitionedBelow(less, a[..last], value) ==>
              forall i :: 0 <= i < last ==> (less(a[i], value) <==> i < first)
  {
    first := 0;
    var length := last;
    while length > 0
      invariant 0 <= length && first + length <= last
      invariant 0 < first ==> less(a[first - 1], value)
      invariant first + length < last ==> !less(a[first + length], value)
    {
      var half := length / 2;
      var middle := first + half;
      if less(a[middle], value) {
        first := middle + 1;
        length := length - (half + 1);
      } else {
        length := half;
      }
    }
    if PartitionedBelow(less, a[..last], value) {
      forall i | 0 <= i < last
        ensures less(a[i], value) <==> i < first
      {
        assert 0 < first ==> a[..last][first - 1] == a[first - 1];
        assert first < last ==> a[..last][first] == a[first];
        assert a[..last][i] == a[i];
      }
    }
  }

  /** The position where `value` last fits. */
  method UpperBound<T(!new)>(a: array<T>, last: nat, value: T, less: (T, T) -> bool) returns (first: nat)
    requires last <= a.Length
    ensures first <= last
    ensures 0 < first ==> !less(value, a[first - 1])
    ensures first < last ==> less(value, a[first])
    ensures PartitionedAbove(less, a[..last], value) ==>
              forall i :: 0 <= i < last ==> (less(value, a[i]) <==> first <= i)
  {
    first := 0;
    var length := last;
    while length > 0
      invariant 0 <= length && first + length <= last
      invariant 0 < first ==> !less(value, a[first - 1])
      invariant first + length < last ==> less(value, a[first + length])
    {
      var half := length / 2;
      var middle := first + half;
      if !less(value, a[middle]) {
        first := middle + 1;
        length := length - (half + 1);
      } else {
        length := half;
      }
    }
    if PartitionedAbove(less, a[..last], value) {
      forall i | 0 <= i < last
        ensures less(value, a[i]) <==> first <= i
      {
        assert 0 < first ==> a[..last][first - 1] == a[first - 1];
        assert first < last ==> a[..last][first] == a[first];
        assert a[..last][i] == a[i];
      }
    }
  }

  /** On a range partitioned around `value` the search succeeds exactly when some element is equivalent to it. */
  method BinarySearch<T(!new)>(a: array<T>, last: nat, value: T, less: (T, T) -> bool) returns (found: bool)
    requires last <= a.Length
    requires PartitionedBelow(less, a[..last], value) && PartitionedAbove(less, a[..last], value)
    ensures found <==> exists i :: 0 <= i < last && Equivalent(less, a[i], value)
  {
    var position := LowerBound(a, last, value, less);
    found := position != last && !less(value, a[position]);
    if found {
      assert Equivalent(less, a[position], value);
    } else {
      forall i | 0 <= i < last
        ensures !Equivalent(less, a[i], value)
      {
        if position <= i && position != i {
          assert a[..last][position] == a[position] && a[..last][i] == a[i];
          assert PartitionedAbove(less, a[..last], value);
        }
      }
    }
  }

  // ----- counting -----

  method Count<T(==)>(a: array<T>, last: nat, value: T) returns (n: nat)
    requires last <= a.Length
    ensures n == multiset(a[..last])[value]
  {
    n := 0;
    var first := 0;
    while first != last
      invariant first <= last
      invariant n == multiset(a[..first])[value]
    {
      assert a[..first + 1] == a[..first] + [a[first]];
      if a[first] == value {
        n := n + 1;
      }
      first := first + 1;
    }
  }

  lemma {:induction false} BlockOccurrences<T>(s: seq<T>, value: T, lo: nat, hi: nat)
    requires lo <= hi <= |s|
    requires forall i :: 0 <= i < |s| ==> (s[i] == value <==> lo <= i < hi)
    ensures multiset(s)[value] == hi - lo
  {
    if s != [] {
      var n := |s| - 1;
      assert s == s[..n] + [s[n]];
      BlockOccurrences(s[..n], value, if lo <= n then lo else n, if hi <= n then hi else n);
    }
  }

  /** Under a total order consistent with `==`: the two bounds are as far apart as `value` occurs,
      and the halving search agrees with the linear one. */
  method OrderedQueriesAgree<T(==, !new)>(a: array<T>, last: nat, value: T, less: (T, T) -> bool)
    returns (lower: nat, upper: nat, occurrences: nat, found: bool, pos: nat)
    requires last <= a.Length
    requires StrictTotalOrder(less) && Sorted(less, a[..last])
    ensures lower <= upper <= last && upper - lower == occurrences
    ensures forall i :: 0 <= i < last ==> (a[i] == value <==> lower <= i < upper)
    ensures occurrences == multiset(a[..last])[value]
    ensures found <==> pos < last
    ensures found ==> pos == lower
  {
    SortedIsPartitioned(less, a[..last], value);
    lower := LowerBound(a, last, value, less);
    upper := UpperBound(a, last, value, less);
    forall i | 0 <= i < last
      ensures a[i] == value <==> lower <= i < upper
    {
      assert Equivalent(less, a[i], value) ==> a[i] == value;
    }
    occurrences := Count(a, last, value);
    if upper < last {
      Asymmetric(less, value, a[upper]);
    }
    assert lower <= upper;
    BlockOccurrences(a[..last], value, lower, upper);
    found := BinarySearch(a, last, value, less);
    pos := Find(a, last, value);
    if pos < last {
      assert Equivalent(less, a[pos], value);
      assert lower <= pos ==> lower < upper;
      assert a[lower] in a[..pos] || lower == pos;
    }
  }
}
