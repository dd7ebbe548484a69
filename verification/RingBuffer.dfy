/** What a ring buffer is for: a bounded queue, its operations on plain sequences, and laws over whole runs. */
module BoundedQueues {
  import opened Numbers

  datatype Op<T> =
    | Push(value: T)
    | ForcePush(value: T)
    | Pop
    | PushBulk(values: seq<T>)
    | PopBulk(max: nat)
    | Clear

  /** The queue, with the history of what it accepted and what left it, by delivery or by being dropped. */
  datatype Queue<T> = Queue(items: seq<T>, accepted: seq<T>, departed: seq<T>, delivered: seq<T>)

  /** The newest `n` elements. */
  function Newest<T>(s: seq<T>, n: nat): (r: seq<T>)
    ensures |r| == Min(|s|, n)
  {
    if |s| <= n then s else s[|s| - n..]
  }

  /** The longest prefix of `values` that fits. */
  function Fitting<T>(capacity: nat, items: seq<T>, values: seq<T>): seq<T> {
    if |items| <= capacity then values[..Min(|values|, capacity - |items|)] else []
  }

  function Apply<T>(capacity: nat, q: Queue<T>, op: Op<T>): Queue<T> {
    match op
    case Push(v) =>
      if |q.items| == capacity then q
      else q.(items := q.items + [v], accepted := q.accepted + [v])
    case ForcePush(v) =>
      if |q.items| == capacity && capacity > 0
      then q.(items := q.items[1..] + [v], accepted := q.accepted + [v], departed := q.departed + [q.items[0]])
      else q.(items := q.items + [v], accepted := q.accepted + [v])
    case Pop =>
      if q.items == [] then q
      else Queue(q.items[1..], q.accepted, q.departed + [q.items[0]], q.delivered + [q.items[0]])
    case PushBulk(values) =>
      var written := Fitting(capacity, q.items, values);
      q.(items := q.items + written, accepted := q.accepted + written)
    case PopBulk(max) =>
      var n := Min(|q.items|, max);
      Queue(q.items[n..], q.accepted, q.departed + q.items[..n], q.delivered + q.items[..n])
    case Clear => q.(items := [], departed := q.departed + q.items)
  }

  function Run<T>(capacity: nat, q: Queue<T>, ops: seq<Op<T>>): Queue<T> {
    if ops == [] then q else Apply(capacity, Run(capacity, q, ops[..|ops| - 1]), ops[|ops| - 1])
  }

  function Empty<T>(): Queue<T> {
    Queue([], [], [], [])
  }

  predicate DropsNothing<T>(op: Op<T>) {
    !op.ForcePush? && !op.Clear?
  }

  /** Over every run nothing is lost, duplicated or reordered: what has left, followed by what is held, is exactly what
      was accepted, and without overwriting or clearing everything that has left was delivered. */
  lemma {:induction false} QueueIsFifo<T>(capacity: nat, ops: seq<Op<T>>)
    requires capacity > 0
    ensures var q := Run(capacity, Empty(), ops);
            && q.departed + q.items == q.accepted && |q.items| <= capacity
            && ((forall i :: 0 <= i < |ops| ==> DropsNothing(ops[i])) ==> q.departed == q.delivered)
  {
    if ops != [] {
      QueueIsFifo(capacity, ops[..|ops| - 1]);
      StepIsFifo(capacity, Run(capacity, Empty(), ops[..|ops| - 1]), ops[|ops| - 1]);
    }
  }

  lemma Arrive<T>(departed: seq<T>, items: seq<T>, more: seq<T>)
    ensures departed + (items + more) == (departed + items) + more
  {
  }

  lemma Depart<T>(departed: seq<T>, items: seq<T>, n: nat)
    requires n <= |items|
    ensures (departed + items[..n]) + items[n..] == departed + items
    ensures n == 1 ==> items[..n] == [items[0]]
  {
  }

  lemma StepIsFifo<T>(capacity: nat, q: Queue<T>, op: Op<T>)
    requires capacity > 0 && q.departed + q.items == q.accepted && |q.items| <= capacity
    ensures var r := Apply(capacity, q, op);
            && r.departed + r.items == r.accepted && |r.items| <= capacity
            && (DropsNothing(op) && q.departed == q.delivered ==> r.departed == r.delivered)
  {
    match op {
      case Push(v) => Arrive(q.departed, q.items, [v]);
      case ForcePush(v) =>
        if |q.items| == capacity {
          Depart(q.departed, q.items, 1);
          Arrive(q.departed + [q.items[0]], q.items[1..], [v]);
        } else {
          Arrive(q.departed, q.items, [v]);
        }
      case Pop =>
        if q.items != [] {
          Depart(q.departed, q.items, 1);
        }
      case PushBulk(values) => Arrive(q.departed, q.items, Fitting(capacity, q.items, values));
      case PopBulk(max) => Depart(q.departed, q.items, Min(|q.items|, max));
      case Clear => assert (q.departed + q.items) + [] == q.departed + q.items;
    }
  }

  function ForcePushes<T>(values: seq<T>): (ops: seq<Op<T>>)
    ensures |ops| == |values|
  {
    if values == [] then [] else ForcePushes(values[..|values| - 1]) + [ForcePush(values[|values| - 1])]
  }

  /** A run of overwriting pushes keeps exactly the newest items, in order, whatever was there before. */
  lemma {:induction false} NewestSurvive<T>(capacity: nat, q: Queue<T>, values: seq<T>)
    requires capacity > 0 && |q.items| <= capacity
    ensures Run(capacity, q, ForcePushes(values)).items == Newest(q.items + values, capacity)
  {
    if values == [] {
      assert q.items + values == q.items;
    } else {
      var front, v := values[..|values| - 1], values[|values| - 1];
      var ops := ForcePushes(values);
      NewestSurvive(capacity, q, front);
      assert ops[..|ops| - 1] == ForcePushes(front);
      assert q.items + values == (q.items + front) + [v];
      NewestExtend(capacity, q.items + front, v);
    }
  }

  lemma NewestExtend<T>(capacity: nat, s: seq<T>, v: T)
    requires capacity > 0
    ensures var kept := Newest(s, capacity);
            Newest(s + [v], capacity) == if |kept| == capacity then kept[1..] + [v] else kept + [v]
  {
  }
}

/** The fixed-capacity circular buffer. */
module RingBuffers {
  import opened Numbers
  import opened Options
  import opened BoundedQueues
  import opened Words
  import PowersOfTwo

  // ----- index arithmetic -----

  /** A mask when the capacity is a power of two, a remainder otherwise. */
  function Wrap(n: nat, i: nat): nat
    requires n > 0
  {
    if PowersOfTwo.HasSingleBit(n) then And(i, n - 1) else i % n
  }

  /** The two ways of wrapping are the same. */
  lemma WrapIsModulo(n: nat, i: nat)
    requires n > 0
    ensures Wrap(n, i) == i % n
  {
    if PowersOfTwo.HasSingleBit(n) {
      PowersOfTwo.SingleBit(n);
      MaskIsModulo(i, PowersOfTwo.Log2(n));
    }
  }

  /** The position `k` places after `head`. */
  function Slot(n: nat, head: nat, k: nat): (p: nat)
    requires head < n && k <= n
    ensures p < n
  {
    if head + k < n then head + k else head + k - n
  }

  lemma WrapIsSlot(n: nat, head: nat, k: nat)
    requires head < n && k <= n
    ensures Wrap(n, head + k) == Slot(n, head, k)
  {
    WrapIsModulo(n, head + k);
    if head + k < n {
      QuotientIs(head + k, n, 0, head + k);
    } else {
      QuotientIs(head + k, n, 1, head + k - n);
    }
  }

  lemma WrapBack(n: nat, tail: nat)
    requires tail < n
    ensures Wrap(n, tail + n - 1) == Slot(n, tail, n - 1)
  {
    WrapIsSlot(n, tail, n - 1);
  }

  /** The `size` elements from `head` on, around the end. */
  function Window<T>(s: seq<T>, head: nat, size: nat): (w: seq<T>)
    requires head < |s| && size <= |s|
    ensures |w| == size
    ensures forall k :: 0 <= k < size ==> w[k] == s[Slot(|s|, head, k)]
  {
    if head + size <= |s| then s[head..head + size] else s[head..] + s[..head + size - |s|]
  }

  lemma WindowPush<T>(s: seq<T>, head: nat, size: nat, v: T)
    requires head < |s| && size < |s|
    ensures Window(s[Slot(|s|, head, size) := v], head, size + 1) == Window(s, head, size) + [v]
  {
    var t := s[Slot(|s|, head, size) := v];
    assert forall k :: 0 <= k < size ==> Slot(|s|, head, k) != Slot(|s|, head, size);
    assert forall k :: 0 <= k < size ==> Window(t, head, size + 1)[k] == Window(s, head, size)[k];
  }

  lemma WindowPop<T>(s: seq<T>, head: nat, size: nat)
    requires head < |s| && 0 < size <= |s|
    ensures Window(s, Slot(|s|, head, 1), size - 1) == Window(s, head, size)[1..]
    ensures Window(s, head, size)[0] == s[head]
    ensures Slot(|s|, Slot(|s|, head, 1), size - 1) == Slot(|s|, head, size)
  {
    assert forall k :: 0 <= k < size - 1 ==> Slot(|s|, Slot(|s|, head, 1), k) == Slot(|s|, head, k + 1);
  }

  class RingBuffer<T(0)> {
    const data: array<T>
    var head: nat
    var tail: nat
    var size: nat

    ghost predicate Valid()
      reads this
    {
      && data.Length > 0 && head < data.Length && tail < data.Length && size <= data.Length
      && tail == Slot(data.Length, head, size)
    }

    /** The elements held, oldest first. */
    ghost function Contents(): (s: seq<T>)
      reads this, data
      requires Valid()
      ensures |s| == size
    {
      Window(data[..], head, size)
    }

    constructor (n: nat)
      requires n > 0
      ensures Valid() && fresh(data) && data.Length == n && Contents() == []
    {
      data := new T[n];
      head, tail, size := 0, 0, 0;
    }

    method ClearAll()
      requires Valid()
      modifies this
      ensures Valid() && Contents() == []
    {
      head, tail, size := 0, 0, 0;
    }

    /** Stores at the tail of a buffer that is not full. */
    method Append(v: T)
      requires Valid() && size < data.Length
      modifies this, data
      ensures Valid() && Contents() == old(Contents()) + [v]
    {
      WindowPush(data[..], head, size, v);
      WrapIsSlot(data.Length, tail, 1);
      data[tail] := v;
      tail := Wrap(data.Length, tail + 1);
      size := size + 1;
    }

    /** Removes the head of a buffer that is not empty. */
    method TakeHead() returns (v: T)
      requires Valid() && size > 0
      modifies this
      ensures Valid() && Contents() == old(Contents())[1..] && v == old(Contents())[0]
    {
      WindowPop(data[..], head, size);
      WrapIsSlot(data.Length, head, 1);
      v := data[head];
      head := Wrap(data.Length, head + 1);
      size := size - 1;
    }

    method TryPush(v: T) returns (ok: bool)
      requires Valid()
      modifies this, data
      ensures Valid() && ok == (|old(Contents())| < data.Length)
      ensures Contents() == if ok then old(Contents()) + [v] else old(Contents())
    {
      if size == data.Length {
        return false;
      }
      Append(v);
      return true;
    }

    method OverwritingPush(v: T) returns (evicted: bool)
      requires Valid()
      modifies this, data
      ensures Valid() && evicted == (|old(Contents())| == data.Length)
      ensures Contents() == Newest(old(Contents()) + [v], data.Length)
    {
      NewestExtend(data.Length, Contents(), v);
      evicted := size == data.Length;
      if evicted {
        var _ := TakeHead();
      }
      Append(v);
    }

    method TryPop() returns (r: Option<T>)
      requires Valid()
      modifies this
      ensures Valid()
      ensures r == if old(Contents()) == [] then None else Some(old(Contents())[0])
      ensures Contents() == if r.None? then old(Contents()) else old(Contents())[1..]
    {
      if size == 0 {
        return None;
      }
      var v := TakeHead();
      r := Some(v);
    }

    method Peek(index: nat) returns (r: Option<T>)
      requires Valid()
      ensures r == if index < |Contents()| then Some(Contents()[index]) else None
    {
      if index >= size {
        return None;
      }
      WrapIsSlot(data.Length, head, index);
      return Some(data[Wrap(data.Length, head + index)]);
    }

    method Front() returns (v: T)
      requires Valid() && Contents() != []
      ensures v == Contents()[0]
    {
      WindowPop(data[..], head, size);
      return data[head];
    }

    method Back() returns (v: T)
      requires Valid() && Contents() != []
      ensures v == Contents()[|Contents()| - 1]
    {
      WrapBack(data.Length, tail);
      assert Slot(data.Length, tail, data.Length - 1) == Slot(data.Length, head, size - 1);
      return data[Wrap(data.Length, tail + data.Length - 1)];
    }

    /** Appends exactly the longest prefix of the source that fits. */
    method PushAll(src: array?<T>, max: nat) returns (written: nat)
      requires Valid() && (src != null ==> max <= src.Length && src != data)
      modifies this, data
      ensures Valid()
      ensures written == if src == null then 0 else Min(max, data.Length - |old(Contents())|)
      ensures Contents() == old(Contents()) + if src == null then [] else src[..written]
    {
      written := 0;
      if src == null {
        return;
      }
      while written < max && size < data.Length
        invariant Valid() && written <= max
        invariant size == old(size) + written
        invariant Contents() == old(Contents()) + src[..written]
      {
        assert src[..written + 1] == src[..written] + [src[written]];
        Append(src[written]);
        written := written + 1;
      }
    }

    /** Moves exactly the oldest items out, in order. */
    method PopAll(dst: array?<T>, max: nat) returns (read: nat)
      requires Valid() && (dst != null ==> max <= dst.Length && dst != data)
      modifies this, dst
      ensures Valid()
      ensures read == if dst == null then 0 else Min(max, |old(Contents())|)
      ensures Contents() == old(Contents())[read..]
      ensures dst != null ==> dst[..read] == old(Contents())[..read] && dst[read..] == old(dst[..])[read..]
    {
      hide Contents, Slot;
      read := 0;
      if dst == null {
        return;
      }
      ghost var held, was := Contents(), dst[..];
      while read < max && size > 0
        invariant Valid() && read <= max && read <= |held|
        invariant Contents() == held[read..]
        invariant forall k :: 0 <= k < read ==> dst[k] == held[k]
        invariant forall k :: read <= k < dst.Length ==> dst[k] == was[k]
      {
        dst[read] := TakeHead();
        read := read + 1;
      }
    }
  }

  /** The buffer refines the bounded queue: any run leaves the same contents and delivers the same items. */
  method Drive<T(0)>(b: RingBuffer<T>, ops: seq<Op<T>>) returns (delivered: seq<T>)
    requires b.Valid()
    modifies b, b.data
    ensures b.Valid()
    ensures var q := Run(b.data.Length, Queue(old(b.Contents()), [], [], []), ops);
            b.Contents() == q.items && delivered == q.delivered
  {
    hide Apply;
    delivered := [];
    var i := 0;
    ghost var n := b.data.Length;
    ghost var start := Queue(b.Contents(), [], [], []);
    ghost var q := start;
    while i < |ops|
      invariant 0 <= i <= |ops| && b.Valid() && b.data.Length == n
      invariant q == Run(n, start, ops[..i])
      invariant b.Contents() == q.items && delivered == q.delivered
    {
      var out := Perform(b, ops[i], q);
      delivered := delivered + out;
      assert ops[..i + 1][..i] == ops[..i];
      q := Apply(n, q, ops[i]);
      i := i + 1;
    }
    assert ops[..i] == ops;
  }

  method Perform<T(0)>(b: RingBuffer<T>, op: Op<T>, ghost q: Queue<T>) returns (out: seq<T>)
    requires b.Valid() && q.items == b.Contents()
    modifies b, b.data
    ensures b.Valid()
    ensures b.Contents() == Apply(b.data.Length, q, op).items
    ensures q.delivered + out == Apply(b.data.Length, q, op).delivered
  {
    out := [];
    match op {
      case Push(v) =>
        var _ := b.TryPush(v);
      case ForcePush(v) =>
        NewestExtend(b.data.Length, b.Contents(), v);
        var _ := b.OverwritingPush(v);
      case Pop =>
        var r := b.TryPop();
        if r.Some? {
          out := [r.value];
        }
      case PushBulk(values) =>
        PerformPushBulk(b, values);
      case PopBulk(max) =>
        out := PerformPopBulk(b, max);
      case Clear =>
        b.ClearAll();
    }
  }

  method PerformPushBulk<T(0)>(b: RingBuffer<T>, values: seq<T>)
    requires b.Valid()
    modifies b, b.data
    ensures b.Valid()
    ensures b.Contents() == old(b.Contents()) + Fitting(b.data.Length, old(b.Contents()), values)
  {
    var src := new T[|values|](i requires 0 <= i < |values| => values[i]);
    assert src[..] == values;
    var written := b.PushAll(src, |values|);
  }

  method PerformPopBulk<T(0)>(b: RingBuffer<T>, max: nat) returns (out: seq<T>)
    requires b.Valid()
    modifies b
    ensures b.Valid()
    ensures |out| == Min(|old(b.Contents())|, max)
    ensures b.Contents() == old(b.Contents())[|out|..] && out == old(b.Contents())[..|out|]
  {
    var dst := new T[max];
    var read := b.PopAll(dst, max);
    out := dst[..read];
  }
}
