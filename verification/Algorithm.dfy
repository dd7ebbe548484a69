/** The comparison contract every ordered algorithm of the library relies on. */
module Ordering {

  /** Neither value precedes the other. */
  predicate Equivalent<T>(less: (T, T) -> bool, x: T, y: T) {
    !less(x, y) && !less(y, x)
  }

  /** A strict weak order: a strict partial order whose incomparability is transitive. */
  ghost predicate StrictWeakOrder<T(!new)>(less: (T, T) -> bool) {
    && (forall x :: !less(x, x))
    && (forall x, y, z :: less(x, y) && less(y, z) ==> less(x, z))
    && (forall x, y, z :: Equivalent(less, x, y) && Equivalent(less, y, z) ==> Equivalent(less, x, z))
  }

  /** A strict weak order whose equivalence is equality: what `<` is on the built-in types. */
  ghost predicate StrictTotalOrder<T(!new)>(less: (T, T) -> bool) {
    StrictWeakOrder(less) && forall x, y :: Equivalent(less, x, y) ==> x == y
  }

  /** No later element precedes an earlier one. */
  ghost predicate Sorted<T>(less: (T, T) -> bool, s: seq<T>) {
    forall i, j :: 0 <= i < j < |s| ==> !less(s[j], s[i])
  }

  ghost predicate StrictlyIncreasing<T>(less: (T, T) -> bool, s: seq<T>) {
    forall i, j :: 0 <= i < j < |s| ==> less(s[i], s[j])
  }

  lemma Asymmetric<T(!new)>(less: (T, T) -> bool, x: T, y: T)
    requires StrictWeakOrder(less) && less(x, y)
    ensures !less(y, x)
  {
    assert less(x, y) && less(y, x) ==> less(x, x);
  }

  /** "Does not precede" composes. */
  lemma NotLessTransitive<T(!new)>(less: (T, T) -> bool, x: T, y: T, z: T)
    requires StrictWeakOrder(less)
    requires !less(x, y) && !less(y, z)
    ensures !less(x, z)
  {
    assert less(x, z) && less(z, y) ==> less(x, y);
    assert less(y, x) && less(x, z) ==> less(y, z);
    assert Equivalent(less, x, y) && Equivalent(less, y, z) ==> Equivalent(less, x, z);
  }
}

/** In-place heapsort, the ordered searches and the compacting algorithms over a contiguous range. */
module Algorithm {
  import opened Ordering
  import opened Words
  import opened PowersOfTwo

  // ----- heap shape -----

  function Parent(c: nat): (p: nat)
    requires c > 0
    ensures p < c && (c == 2 * p + 1 || c == 2 * p + 2)
  {
    (c - 1) / 2
  }

  /** Every node at or below index `from` dominates its children among the first `count` elements. */
  ghost predicate HeapFrom<T>(less: (T, T) -> bool, s: seq<T>, from: nat, count: nat)
    requires count <= |s|
  {
    forall c :: 0 < c < count && from <= Parent(c) ==> !less(s[Parent(c)], s[c])
  }

  /** As HeapFrom, but node `hole` may be too small; its parent still dominates its children. */
  ghost predicate HeapExcept<T>(less: (T, T) -> bool, s: seq<T>, from: nat, count: nat, hole: nat)
    requires count <= |s|
  {
    && (forall c :: 0 < c < count && from <= Parent(c) != hole ==> !less(s[Parent(c)], s[c]))
    && (forall c :: 0 < hole && 0 < c < count && Parent(c) == hole && from <= Parent(hole)
          ==> !less(s[Parent(hole)], s[c]))
  }

  ghost predicate Permutation<T>(s: seq<T>, t: seq<T>) {
    multiset(s) == multiset(t)
  }

  function Swapped<T>(s: seq<T>, i: nat, j: nat): (t: seq<T>)
    requires i < |s| && j < |s|
    ensures |t| == |s|
  {
    s[i := s[j]][j := s[i]]
  }

  /** `t` rearranges positions `start..count` of `s` and agrees with it everywhere else. */
  ghost predicate Rearranged<T>(s: seq<T>, t: seq<T>, start: nat, count: nat) {
    && start <= count <= |s| == |t|
    && t[..start] == s[..start]
    && t[count..] == s[count..]
    && Permutation(t[..count], s[..count])
  }

  lemma SwapRearranges<T>(s: seq<T>, t: seq<T>, start: nat, count: nat, i: nat, j: nat)
    requires Rearranged(s, t, start, count)
    requires start <= i < count && start <= j < count
    ensures Rearranged(s, Swapped(t, i, j), start, count)
  {
    var u := t[..count];
    assert Swapped(t, i, j)[..count] == u[i := u[j]][j := u[i]];
  }

  lemma RearrangedPermutes<T>(s: seq<T>, t: seq<T>, start: nat, count: nat)
    requires Rearranged(s, t, start, count)
    ensures Permutation(t, s)
  {
    assert s == s[..count] + s[count..] && t == t[..count] + t[count..];
  }

  method Swap<T>(a: array<T>, i: nat, j: nat)
    requires i < a.Length && j < a.Length
    modifies a
    ensures a[..] == Swapped(old(a[..]), i, j)
  {
    a[i], a[j] := a[j], a[i];
  }

  /** One level of sifting: exchanging the hole with its larger child moves the hole down. */
  lemma SiftStep<T(!new)>(less: (T, T) -> bool, s: seq<T>, from: nat, count: nat, root: nat, child: nat)
    requires StrictWeakOrder(less)
    requires root < child < count <= |s| && from <= root && Parent(child) == root
    requires HeapExcept(less, s, from, count, root)
    requires forall c :: 0 < c < count && Parent(c) == root ==> !less(s[child], s[c])
    requires less(s[root], s[child])
    ensures HeapExcept(less, Swapped(s, root, child), from, count, child)
  {
    var t := Swapped(s, root, child);
    forall c | 0 < c < count && from <= Parent(c) != child
      ensures !less(t[Parent(c)], t[c])
    {
      if Parent(c) == root {
        if c == child {
          assert t[c] == s[root];
        } else {
          assert t[c] == s[c];
        }
      } else if c == root {
        assert t[Parent(c)] == s[Parent(root)];
        assert !less(s[Parent(root)], s[child]);
      } else {
        assert t[Parent(c)] == s[Parent(c)] && t[c] == s[c];
      }
    }
    forall c | 0 < c < count && Parent(c) == child && from <= Parent(child)
      ensures !less(t[Parent(child)], t[c])
    {
      assert t[Parent(child)] == s[child] && t[c] == s[c];
    }
  }

  /** The child picked by the sift is not preceded by either child of `root`. */
  lemma LargerChild<T(!new)>(less: (T, T) -> bool, s: seq<T>, root: nat, count: nat, child: nat)
    requires StrictWeakOrder(less)
    requires 2 * root + 1 <= child < count <= |s|
    requires
      if 2 * root + 2 < count && less(s[2 * root + 1], s[2 * root + 2])
      then child == 2 * root + 2 else child == 2 * root + 1
    ensures forall c :: 0 < c < count && Parent(c) == root ==> !less(s[child], s[c])
  {
    forall c | 0 < c < count && Parent(c) == root
      ensures !less(s[child], s[c])
    {
      assert c == 2 * root + 1 || c == 2 * root + 2;
    }
  }

  /** Where the sift stops, no node is too small any more. */
  lemma SiftDone<T(!new)>(less: (T, T) -> bool, s: seq<T>, from: nat, count: nat, root: nat, child: nat)
    requires StrictWeakOrder(less)
    requires from <= root && child < count <= |s|
    requires HeapExcept(less, s, from, count, root)
    requires forall c :: 0 < c < count && Parent(c) == root ==> !less(s[child], s[c])
    requires root < |s| && !less(s[root], s[child])
    ensures HeapFrom(less, s, from, count)
  {
    forall c | 0 < c < count && from <= Parent(c)
      ensures !less(s[Parent(c)], s[c])
    {
      if Parent(c) == root {
        NotLessTransitive(less, s[root], s[child], s[c]);
      }
    }
  }

  lemma SiftBegins<T>(less: (T, T) -> bool, s: seq<T>, start: nat, count: nat)
    requires start <= count <= |s| && HeapFrom(less, s, start + 1, count)
    ensures HeapExcept(less, s, start, count, start)
    ensures Rearranged(s, s, start, count)
  {
  }

  /** A childless hole is no exception. */
  lemma LeafDone<T>(less: (T, T) -> bool, s: seq<T>, start: nat, count: nat, root: nat)
    requires count <= |s| && HeapExcept(less, s, start, count, root)
    requires count <= 2 * root + 1
    ensures HeapFrom(less, s, start, count)
  {
  }

  // ----- how far a sift can go -----

  /** The levels below position `root` in a heap of `count` elements. */
  function Levels(root: nat, count: nat): nat {
    if root < count / 2 then 1 + Levels(root, count / 2) else 0
  }

  /** A node with a child has one level more than its left child. */
  lemma {:induction false} LevelsBelow(root: nat, count: nat)
    requires 2 * root + 1 < count
    ensures Levels(root, count) == 1 + Levels(2 * root + 1, count)
  {
    if 2 * root + 1 < count / 2 {
      LevelsBelow(root, count / 2);
    }
  }

  lemma {:induction false} LevelsShrink(root: nat, further: nat, count: nat)
    requires root <= further
    ensures Levels(further, count) <= Levels(root, count)
  {
    if root < count / 2 {
      LevelsShrink(root, further, count / 2);
    }
  }

  /** The root has as many levels below it as the size has binary digits after the first. */
  lemma {:induction false} LevelsOfRoot(count: nat)
    requires count > 0
    ensures Levels(0, count) == Log2(count)
  {
    if count > 1 {
      LevelsOfRoot(count / 2);
    }
  }

  /** The levels below the first `n` positions, added up. */
  function LevelSum(n: nat, count: nat): nat {
    if n == 0 then 0 else Levels(n - 1, count) + LevelSum(n - 1, count)
  }

  lemma {:induction false} LevelSumHalves(n: nat, count: nat)
    requires n <= count / 2
    ensures LevelSum(n, count) == n + LevelSum(n, count / 2)
  {
    if n > 0 {
      LevelSumHalves(n - 1, count);
    }
  }

  lemma {:induction false} LeavesAddNothing(n: nat, m: nat, count: nat)
    requires count / 2 <= m <= n
    ensures LevelSum(n, count) == LevelSum(m, count)
  {
    if m < n {
      LeavesAddNothing(n - 1, m, count);
    }
  }

  /** All the levels of a heap together are no more than its elements: building it takes linear work. */
  lemma {:induction false} LevelSumIsLinear(count: nat)
    ensures LevelSum(count / 2, count) <= count
  {
    if count > 0 {
      LevelSumHalves(count / 2, count);
      LeavesAddNothing(count / 2, count / 2 / 2, count / 2);
      LevelSumIsLinear(count / 2);
    }
  }

  /** Restores the heap at `start`, rearranging only the positions from `start` to `count`. */
  method HeapSiftDown<T(!new)>(a: array<T>, start: nat, count: nat, less: (T, T) -> bool)
    returns (ghost comparisons: nat)
    requires start <= count <= a.Length
    requires StrictWeakOrder(less)
    requires HeapFrom(less, a[..], start + 1, count)
    modifies a
    ensures HeapFrom(less, a[..], start, count)
    ensures Rearranged(old(a[..]), a[..], start, count)
    ensures comparisons <= 2 * Levels(start, count)
  {
    hide HeapFrom, HeapExcept, Rearranged, StrictWeakOrder, Levels;
    comparisons := 0;
    SiftBegins(less, a[..], start, count);
    var root := start;
    while count > 1 && root <= (count - 2) / 2
      invariant start <= root
      invariant HeapExcept(less, a[..], start, count, root)
      invariant Rearranged(old(a[..]), a[..], start, count)
      invariant comparisons + 2 * Levels(root, count) <= 2 * Levels(start, count)
      decreases count - root
    {
      var child := root * 2 + 1;
      LevelsBelow(root, count);
      comparisons := comparisons + if child + 1 < count then 2 else 1;
      if child + 1 < count && less(a[child], a[child + 1]) {
        child := child + 1;
      }
      LargerChild(less, a[..], root, count, child);
      if !less(a[root], a[child]) {
        SiftDone(less, a[..], start, count, root, child);
        return;
      }
      SiftStep(less, a[..], start, count, root, child);
      SwapRearranges(old(a[..]), a[..], start, count, root, child);
      Swap(a, root, child);
      LevelsShrink(2 * root + 1, child, count);
      root := child;
    }
    LeafDone(less, a[..], start, count, root);
  }

  // ----- sorting -----

  /** The root of a heap is not preceded by any of its elements. */
  lemma {:induction false} RootIsGreatest<T(!new)>(less: (T, T) -> bool, s: seq<T>, count: nat, c: nat)
    requires StrictWeakOrder(less)
    requires c < count <= |s| && HeapFrom(less, s, 0, count)
    ensures !less(s[0], s[c])
  {
    if c > 0 {
      RootIsGreatest(less, s, count, Parent(c));
      NotLessTransitive(less, s[0], s[Parent(c)], s[c]);
    }
  }

  /** The last `|s| - end` elements are in final position: sorted, and preceded by no earlier element. */
  ghost predicate TailInPlace<T>(less: (T, T) -> bool, s: seq<T>, end: nat) {
    forall i, j :: 0 <= i < j < |s| && end <= j ==> !less(s[j], s[i])
  }

  /** Rearranging the part before `end` keeps the tail in place. */
  lemma TailSurvives<T>(less: (T, T) -> bool, s: seq<T>, t: seq<T>, end: nat)
    requires TailInPlace(less, s, end) && Rearranged(s, t, 0, end)
    ensures TailInPlace(less, t, end) && Permutation(t, s)
  {
    RearrangedPermutes(s, t, 0, end);
    forall i, j | 0 <= i < j < |t| && end <= j
      ensures !less(t[j], t[i])
    {
      assert t[j] == t[end..][j - end] == s[j];
      if i < end {
        assert t[i] in multiset(t[..end]);
        assert t[i] in s[..end];
        var k :| 0 <= k < end && s[k] == t[i];
      } else {
        assert t[i] == t[end..][i - end] == s[i];
      }
    }
  }

  /** Exchanging the root with the last heap element leaves a heap below the new root. */
  lemma ExtractHeap<T>(less: (T, T) -> bool, s: seq<T>, end: nat)
    requires 1 < end <= |s| && HeapFrom(less, s, 0, end)
    ensures HeapFrom(less, Swapped(s, 0, end - 1), 1, end - 1)
  {
    var t := Swapped(s, 0, end - 1);
    forall c | 0 < c < end - 1 && 1 <= Parent(c)
      ensures !less(t[Parent(c)], t[c])
    {
      assert t[Parent(c)] == s[Parent(c)] && t[c] == s[c];
    }
  }

  lemma ExtractRearranges<T>(s: seq<T>, end: nat)
    requires 1 < end <= |s|
    ensures Rearranged(s, Swapped(s, 0, end - 1), 0, end)
  {
    assert Rearranged(s, s, 0, end);
    SwapRearranges(s, s, 0, end, 0, end - 1);
  }

  /** It also puts one more element in place. */
  lemma ExtractTail<T(!new)>(less: (T, T) -> bool, s: seq<T>, end: nat)
    requires StrictWeakOrder(less)
    requires 1 < end <= |s|
    requires HeapFrom(less, s, 0, end) && TailInPlace(less, s, end)
    ensures TailInPlace(less, Swapped(s, 0, end - 1), end - 1)
    ensures Permutation(Swapped(s, 0, end - 1), s)
  {
    hide HeapFrom, StrictWeakOrder, Rearranged, Permutation;
    var t := Swapped(s, 0, end - 1);
    ExtractRearranges(s, end);
    TailSurvives(less, s, t, end);
    forall i | 0 <= i < end - 1
      ensures !less(t[end - 1], t[i])
    {
      RootIsGreatest(less, s, end, if i == 0 then end - 1 else i);
    }
  }

  lemma LeavesFormHeap<T>(less: (T, T) -> bool, s: seq<T>)
    ensures HeapFrom(less, s, |s| / 2, |s|)
    ensures TailInPlace(less, s, |s|)
  {
  }

  lemma AllInPlace<T>(less: (T, T) -> bool, s: seq<T>, end: nat)
    requires end <= 1 && TailInPlace(less, s, end)
    ensures Sorted(less, s)
  {
  }

  /** The comparisons of sifting down from the root of ever smaller heaps. */
  lemma ExtractionsCost(end: nat, count: nat)
    requires 1 < end <= count
    ensures Levels(0, end - 1) <= Log2(count)
    ensures (count - end) * Log2(count) + Log2(count) == (count - (end - 1)) * Log2(count)
  {
    LevelsOfRoot(end - 1);
    Log2Grows(end - 1, count);
  }

  lemma TotalCost(count: nat, end: nat)
    requires 1 <= end <= count
    ensures 2 * count + 2 * ((count - end) * Log2(count)) <= 2 * (count * (Log2(count) + 1))
  {
    assert (count - end) * Log2(count) <= count * Log2(count);
    assert count * (Log2(count) + 1) == count * Log2(count) + count;
  }

  lemma {:induction false} Log2Grows(m: nat, n: nat)
    requires 0 < m <= n
    ensures Log2(m) <= Log2(n)
  {
    if m > 1 {
      Log2Grows(m / 2, n / 2);
    }
  }

  /** Heapsort: a sorted rearrangement of the input, for every strict weak order, with at most 2 * N * (log2 N + 1)
      comparisons in the worst case. */
  method Sort<T(!new)>(a: array<T>, less: (T, T) -> bool) returns (ghost comparisons: nat)
    requires StrictWeakOrder(less)
    modifies a
    ensures Sorted(less, a[..])
    ensures Permutation(a[..], old(a[..]))
    ensures a.Length <= 1 ==> comparisons == 0
    ensures a.Length > 0 ==> comparisons <= 2 * (a.Length * (Log2(a.Length) + 1))
  {
    hide HeapFrom, TailInPlace, StrictWeakOrder, Rearranged, Swapped, Levels, Log2;
    comparisons := 0;
    var countValue := a.Length;
    if countValue <= 1 {
      return;
    }
    var start := countValue / 2;
    LeavesFormHeap(less, a[..]);
    LevelSumIsLinear(countValue);
    while start > 0
      invariant 0 <= start <= countValue
      invariant HeapFrom(less, a[..], start, countValue)
      invariant Permutation(a[..], old(a[..]))
      invariant comparisons + 2 * LevelSum(start, countValue) <= 2 * countValue
    {
      ghost var before := a[..];
      ghost var used := HeapSiftDown(a, start - 1, countValue, less);
      comparisons := comparisons + used;
      RearrangedPermutes(before, a[..], start - 1, countValue);
      start := start - 1;
    }
    var end := countValue;
    LeavesFormHeap(less, a[..]);
    while end > 1
      invariant 1 <= end <= countValue
      invariant HeapFrom(less, a[..], 0, end)
      invariant TailInPlace(less, a[..], end)
      invariant Permutation(a[..], old(a[..]))
      invariant comparisons <= 2 * countValue + 2 * ((countValue - end) * Log2(countValue))
    {
      ExtractionsCost(end, countValue);
      ExtractHeap(less, a[..], end);
      ExtractTail(less, a[..], end);
      Swap(a, 0, end - 1);
      ghost var extracted := a[..];
      ghost var used := HeapSiftDown(a, 0, end - 1, less);
      comparisons := comparisons + used;
      TailSurvives(less, extracted, a[..], end - 1);
      end := end - 1;
    }
    AllInPlace(less, a[..], end);
    TotalCost(countValue, end);
  }
}
