/** The algorithms that compact a range in place and return its new logical end. */
module Compaction {
  import opened Ordering

  // ----- remove_if -----

  /** The elements that survive `remove`, in their original order. */
  function Kept<T>(remove: T -> bool, s: seq<T>): (r: seq<T>)
    ensures |r| <= |s|
  {
    if s == [] then []
    else
      var rest := Kept(remove, s[..|s| - 1]);
      if remove(s[|s| - 1]) then rest else rest + [s[|s| - 1]]
  }

  lemma KeptExtend<T>(remove: T -> bool, s: seq<T>, n: nat)
    requires n < |s|
    ensures Kept(remove, s[..n + 1]) == if remove(s[n]) then Kept(remove, s[..n]) else Kept(remove, s[..n]) + [s[n]]
  {
    assert s[..n + 1][..n] == s[..n];
  }

  /** `at` lists, in increasing order, exactly the positions of `s` that survive. */
  ghost predicate SurvivorPositions<T>(remove: T -> bool, s: seq<T>, at: seq<nat>) {
    && (forall k :: 0 <= k < |at| ==> at[k] < |s| && !remove(s[at[k]]))
    && (forall j, k :: 0 <= j < k < |at| ==> at[j] < at[k])
    && (forall i :: 0 <= i < |s| && !remove(s[i]) ==> i in at)
  }

  /** Stability: the result is the input read at the surviving positions, in order. */
  lemma {:induction false} KeptIsStableFilter<T>(remove: T -> bool, s: seq<T>) returns (at: seq<nat>)
    ensures SurvivorPositions(remove, s, at)
    ensures |at| == |Kept(remove, s)|
    ensures forall k :: 0 <= k < |at| ==> at[k] < |s| && Kept(remove, s)[k] == s[at[k]]
  {
    if s == [] {
      at := [];
    } else {
      var n := |s| - 1;
      at := KeptIsStableFilter(remove, s[..n]);
      assert forall i :: 0 <= i < n ==> s[..n][i] == s[i];
      if !remove(s[n]) {
        at := at + [n];
      }
    }
  }

  method FindIf<T>(a: array<T>, matches: T -> bool) returns (pos: nat)
    ensures pos <= a.Length
    ensures pos < a.Length ==> matches(a[pos])
    ensures forall i :: 0 <= i < pos ==> !matches(a[i])
  {
    pos := 0;
    while pos != a.Length
      invariant pos <= a.Length
      invariant forall i :: 0 <= i < pos ==> !matches(a[i])
    {
      if matches(a[pos]) {
        return;
      }
      pos := pos + 1;
    }
  }

  lemma {:induction false} NothingRemoved<T>(remove: T -> bool, s: seq<T>)
    requires forall i :: 0 <= i < |s| ==> !remove(s[i])
    ensures Kept(remove, s) == s
  {
    if s != [] {
      NothingRemoved(remove, s[..|s| - 1]);
    }
  }

  /** Leaves the stable filter of the input before the returned end. */
  method RemoveIf<T>(a: array<T>, remove: T -> bool) returns (result: nat)
    modifies a
    ensures result <= a.Length
    ensures a[..result] == Kept(remove, old(a[..]))
  {
    ghost var s := a[..];
    var first := FindIf(a, remove);
    NothingRemoved(remove, s[..first]);
    if first == a.Length {
      assert s[..first] == s;
      return a.Length;
    }
    result := first;
    KeptExtend(remove, s, first);
    first := first + 1;
    while first != a.Length
      invariant result < first <= a.Length
      invariant a[..result] == Kept(remove, s[..first])
      invariant forall i :: first <= i < a.Length ==> a[i] == s[i]
    {
      KeptExtend(remove, s, first);
      var x := a[first];
      if !remove(x) {
        a[result] := x;
        assert a[..result + 1] == a[..result] + [x];
        result := result + 1;
      }
      first := first + 1;
    }
    assert s[..first] == s;
  }

  // ----- unique -----

  /** Drops every element equivalent to the last one kept. */
  function Deduped<T>(same: (T, T) -> bool, s: seq<T>): (r: seq<T>)
    ensures |r| <= |s| && (s != [] ==> r != [])
  {
    if s == [] then []
    else
      var rest := Deduped(same, s[..|s| - 1]);
      if rest != [] && same(rest[|rest| - 1], s[|s| - 1]) then rest else rest + [s[|s| - 1]]
  }

  lemma DedupedExtend<T>(same: (T, T) -> bool, s: seq<T>, n: nat)
    requires 0 < n < |s|
    ensures var rest := Deduped(same, s[..n]);
            Deduped(same, s[..n + 1]) == if same(rest[|rest| - 1], s[n]) then rest else rest + [s[n]]
  {
    assert s[..n + 1][..n] == s[..n];
  }

  /** No two neighbours of the result are equivalent, and what `==` identifies loses no value. */
  lemma {:induction false} DedupedNeighbours<T>(same: (T, T) -> bool, s: seq<T>)
    ensures forall k :: 0 < k < |Deduped(same, s)| ==> !same(Deduped(same, s)[k - 1], Deduped(same, s)[k])
    ensures forall x :: x in Deduped(same, s) ==> x in s
    ensures s != [] && (forall x, y :: same(x, y) ==> x == y) ==>
              Deduped(same, s)[|Deduped(same, s)| - 1] == s[|s| - 1]
    ensures (forall x, y :: same(x, y) ==> x == y) ==> forall x :: x in s ==> x in Deduped(same, s)
  {
    if s != [] {
      DedupedNeighbours(same, s[..|s| - 1]);
      assert s == s[..|s| - 1] + [s[|s| - 1]];
    }
  }

  /** Everything after position `p` up to `q` is equivalent to what is kept at `p`. */
  predicate Absorbs<T>(same: (T, T) -> bool, s: seq<T>, p: nat, q: nat)
    requires p < q <= |s|
  {
    forall i :: p < i < q ==> same(s[p], s[i])
  }

  /** `at` lists the positions kept: the first one, and after each the next that is not equivalent to it. */
  ghost predicate KeptPositions<T>(same: (T, T) -> bool, s: seq<T>, at: seq<nat>) {
    && (s == [] <==> at == []) && (at != [] ==> at[0] == 0)
    && (forall k :: 0 <= k < |at| ==> at[k] < |s|)
    && (forall k :: 0 < k < |at| ==>
          at[k - 1] < at[k] && !same(s[at[k - 1]], s[at[k]]) && Absorbs(same, s, at[k - 1], at[k]))
    && (at != [] ==> Absorbs(same, s, at[|at| - 1], |s|))
  }

  lemma AbsorbsInPrefix<T>(same: (T, T) -> bool, s: seq<T>, n: nat, p: nat, q: nat)
    requires p < q <= n <= |s|
    ensures Absorbs(same, s[..n], p, q) <==> Absorbs(same, s, p, q)
  {
    if Absorbs(same, s[..n], p, q) {
      forall i | p < i < q
        ensures same(s[p], s[i])
      {
        assert same(s[..n][p], s[..n][i]);
      }
    }
  }

  lemma KeptInPrefix<T>(same: (T, T) -> bool, s: seq<T>, at: seq<nat>)
    requires s != [] && KeptPositions(same, s[..|s| - 1], at)
    ensures (at != [] ==> at[0] == 0) && (at == [] ==> |s| == 1)
    ensures forall k :: 0 <= k < |at| ==> at[k] < |s| - 1
    ensures forall k :: 0 < k < |at| ==>
              at[k - 1] < at[k] && !same(s[at[k - 1]], s[at[k]]) && Absorbs(same, s, at[k - 1], at[k])
    ensures at != [] ==> Absorbs(same, s, at[|at| - 1], |s| - 1)
  {
    var n := |s| - 1;
    forall k | 0 < k < |at|
      ensures at[k - 1] < at[k] && !same(s[at[k - 1]], s[at[k]]) && Absorbs(same, s, at[k - 1], at[k])
    {
      AbsorbsInPrefix(same, s, n, at[k - 1], at[k]);
    }
    if at != [] {
      AbsorbsInPrefix(same, s, n, at[|at| - 1], n);
    }
  }

  lemma NextIsKept<T>(same: (T, T) -> bool, s: seq<T>, at: seq<nat>)
    requires s != [] && KeptPositions(same, s[..|s| - 1], at)
    requires at != [] ==> at[|at| - 1] < |s| && !same(s[at[|at| - 1]], s[|s| - 1])
    ensures KeptPositions(same, s, at + [|s| - 1])
  {
    KeptInPrefix(same, s, at);
    assert Absorbs(same, s, |s| - 1, |s|);
    hide Absorbs;
  }

  lemma NextIsDropped<T>(same: (T, T) -> bool, s: seq<T>, at: seq<nat>)
    requires s != [] && KeptPositions(same, s[..|s| - 1], at) && at != []
    requires at[|at| - 1] < |s| && same(s[at[|at| - 1]], s[|s| - 1])
    ensures KeptPositions(same, s, at)
  {
    KeptInPrefix(same, s, at);
    assert Absorbs(same, s, at[|at| - 1], |s|);
    hide Absorbs;
  }

  lemma InRange<T>(same: (T, T) -> bool, s: seq<T>, at: seq<nat>)
    requires KeptPositions(same, s, at)
    ensures s == [] <==> at == []
    ensures forall k :: 0 <= k < |at| ==> at[k] < |s|
  {
  }

  /** For any binary predicate the result reads the input at exactly these positions. */
  lemma {:induction false} DedupedReadsKept<T>(same: (T, T) -> bool, s: seq<T>) returns (at: seq<nat>)
    ensures KeptPositions(same, s, at) && |at| == |Deduped(same, s)|
    ensures forall k :: 0 <= k < |at| ==> at[k] < |s| && Deduped(same, s)[k] == s[at[k]]
  {
    at := [];
    if s != [] {
      var n := |s| - 1;
      at := DedupedReadsKept(same, s[..n]);
      var rest := Deduped(same, s[..n]);
      InRange(same, s[..n], at);
      if rest != [] && same(rest[|rest| - 1], s[n]) {
        NextIsDropped(same, s, at);
        hide KeptPositions;
      } else {
        NextIsKept(same, s, at);
        hide KeptPositions;
        at := at + [n];
      }
    }
  }

  /** Leaves the deduplicated input before the returned end, for any binary predicate. */
  method Unique<T>(a: array<T>, same: (T, T) -> bool) returns (end: nat)
    modifies a
    ensures end <= a.Length
    ensures a[..end] == Deduped(same, old(a[..]))
  {
    ghost var s := a[..];
    if a.Length == 0 {
      return 0;
    }
    var result, first := 0, 1;
    assert s[..1][..0] == [];
    while first != a.Length
      invariant result < first <= a.Length
      invariant a[..result + 1] == Deduped(same, s[..first])
      invariant forall i :: first <= i < a.Length ==> a[i] == s[i]
    {
      DedupedExtend(same, s, first);
      ghost var rest := a[..result + 1];
      assert rest[result] == a[result];
      if !same(a[result], a[first]) {
        result := result + 1;
        a[result] := a[first];
        assert a[..result] == rest;
        assert a[..result + 1] == rest + [s[first]];
      }
      first := first + 1;
    }
    assert s[..first] == s;
    return result + 1;
  }

  /** Deduplicating a sorted sequence gives its strictly increasing list of values. */
  lemma {:induction false} SortedDedupedIncreases<T(!new)>(less: (T, T) -> bool, same: (T, T) -> bool, s: seq<T>)
    requires StrictTotalOrder(less) && Sorted(less, s)
    requires forall x, y :: same(x, y) <==> x == y
    ensures StrictlyIncreasing(less, Deduped(same, s))
    ensures forall x :: x in Deduped(same, s) <==> x in s
  {
    DedupedNeighbours(same, s);
    if s != [] {
      var front, x := s[..|s| - 1], s[|s| - 1];
      var rest := Deduped(same, front);
      SortedDedupedIncreases(less, same, front);
      DedupedNeighbours(same, front);
      forall y | y in rest && y != x
        ensures less(y, x)
      {
        var i :| 0 <= i < |front| && front[i] == y;
        assert s[i] == y && !less(s[|s| - 1], s[i]);
        assert Equivalent(less, x, y) ==> x == y;
      }
      if rest != [] && !same(rest[|rest| - 1], x) {
        forall i | 0 <= i < |rest|
          ensures rest[i] != x
        {
          assert less(rest[|rest| - 1], x);
          if i < |rest| - 1 {
            assert less(rest[i], rest[|rest| - 1]);
            assert less(rest[i], x);
          }
        }
      }
    }
  }

  /** The last element of a strictly increasing list is its greatest, and the others are the rest. */
  lemma LastIsGreatest<T(!new)>(less: (T, T) -> bool, s: seq<T>)
    requires StrictWeakOrder(less) && StrictlyIncreasing(less, s) && s != []
    ensures forall z :: z in s[..|s| - 1] <==> z in s && z != s[|s| - 1]
    ensures forall z :: z in s && z != s[|s| - 1] ==> less(z, s[|s| - 1])
  {
    assert s == s[..|s| - 1] + [s[|s| - 1]];
  }

  lemma SameLast<T(!new)>(less: (T, T) -> bool, s: seq<T>, t: seq<T>)
    requires StrictWeakOrder(less)
    requires StrictlyIncreasing(less, s) && StrictlyIncreasing(less, t)
    requires s != [] && t != [] && forall x :: x in s <==> x in t
    ensures s[|s| - 1] == t[|t| - 1]
  {
    var x, y := s[|s| - 1], t[|t| - 1];
    LastIsGreatest(less, s);
    LastIsGreatest(less, t);
    hide StrictlyIncreasing;
    assert x in t && y in s;
    assert x != y ==> less(x, y) && less(y, x);
  }

  /** There is only one strictly increasing listing of a set of values. */
  lemma {:induction false} IncreasingListIsUnique<T(!new)>(less: (T, T) -> bool, s: seq<T>, t: seq<T>)
    requires StrictWeakOrder(less)
    requires StrictlyIncreasing(less, s) && StrictlyIncreasing(less, t)
    requires forall x :: x in s <==> x in t
    ensures s == t
  {
    assert s != [] ==> s[0] in t;
    assert t != [] ==> t[0] in s;
    if s != [] {
      var s', t' := s[..|s| - 1], t[..|t| - 1];
      SameLast(less, s, t);
      LastIsGreatest(less, s);
      LastIsGreatest(less, t);
      forall x
        ensures x in s' <==> x in t'
      {
        assert x in s' <==> x in s && x != s[|s| - 1];
      }
      IncreasingListIsUnique(less, s', t');
      assert s == s' + [s[|s| - 1]] && t == t' + [t[|t| - 1]];
    }
  }
}
