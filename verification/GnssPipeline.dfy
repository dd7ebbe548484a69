/** Splitting the GNSS byte stream into lines. */
module GnssFraming {

  const DOLLAR: bv8 := 0x24
  const LF: bv8 := 0x0A
  const LINE_BUF_SIZE := 256

  /** The line being collected (empty when no '$' is open) and the lines logged so far. */
  datatype Framer = Framer(line: seq<bv8>, logged: seq<seq<bv8>>)

  const IDLE := Framer([], [])

  function FrameByte(f: Framer, b: bv8): Framer {
    if b == DOLLAR then Framer([b], f.logged)
    else if b == LF && |f.line| > 0 then Framer([], f.logged + [f.line])
    else if |f.line| > 0 && |f.line| < LINE_BUF_SIZE - 1 then Framer(f.line + [b], f.logged)
    else f
  }

  function FrameAll(s: seq<bv8>): Framer {
    if s == [] then IDLE else FrameByte(FrameAll(s[..|s| - 1]), s[|s| - 1])
  }

  /** The thread's line buffer. */
  class LineFramer {
    const lineBuf: array<bv8>
    var linePos: nat
    var logged: seq<seq<bv8>>
    var sentenceParsed: bv32

    ghost predicate Valid()
      reads this
    {
      lineBuf.Length == LINE_BUF_SIZE && linePos < LINE_BUF_SIZE
    }

    ghost function Abs(): Framer
      reads this, lineBuf
      requires Valid()
    {
      Framer(lineBuf[..linePos], logged)
    }

    constructor ()
      ensures Valid() && fresh(lineBuf) && Abs() == IDLE && sentenceParsed == 0
    {
      lineBuf := new bv8[LINE_BUF_SIZE];
      linePos, logged, sentenceParsed := 0, [], 0;
    }

    method Process(byte: bv8)
      requires Valid()
      modifies this, lineBuf
      ensures Valid() && Abs() == FrameByte(old(Abs()), byte)
      ensures sentenceParsed == if logged == old(logged) then old(sentenceParsed) else old(sentenceParsed) + 1
    {
      if byte == DOLLAR {
        linePos := 0;
        lineBuf[linePos] := byte;
        linePos := linePos + 1;
      } else if byte == LF && linePos > 0 {
        lineBuf[linePos] := 0;
        logged := logged + [lineBuf[..linePos]];
        sentenceParsed := sentenceParsed + 1;
        linePos := 0;
      } else if linePos > 0 && linePos < LINE_BUF_SIZE - 1 {
        ghost var before := lineBuf[..linePos];
        lineBuf[linePos] := byte;
        linePos := linePos + 1;
        assert lineBuf[..linePos] == before + [byte];
      }
    }
  }

  // ----- what the lines are, in terms of the stream alone -----

  /** A line opened by the '$' at `p` is still open at the end of `s`. */
  ghost predicate OpenAt(s: seq<bv8>, p: nat) {
    p < |s| && s[p] == DOLLAR && forall k :: p < k < |s| ==> s[k] != DOLLAR && s[k] != LF
  }

  function Truncated(line: seq<bv8>): seq<bv8> {
    if |line| < LINE_BUF_SIZE then line else line[..LINE_BUF_SIZE - 1]
  }

  /** One line for every line feed that closes an open '$': the bytes from that '$' on, cut at 255. */
  ghost function ExpectedLines(s: seq<bv8>): seq<seq<bv8>> {
    if s == [] then []
    else
      var front := s[..|s| - 1];
      if s[|s| - 1] == LF && exists p: nat :: OpenAt(front, p) then
        var p: nat :| OpenAt(front, p);
        ExpectedLines(front) + [Truncated(front[p..])]
      else ExpectedLines(front)
  }

  /** A byte other than '$' and line feed keeps the same line open; '$' opens one; line feed leaves none. */
  lemma OpenAfter(s: seq<bv8>, b: bv8, p: nat)
    ensures OpenAt(s + [b], p) <==> if b == DOLLAR then p == |s| else b != LF && OpenAt(s, p)
  {
    var s' := s + [b];
    assert forall k :: 0 <= k < |s| ==> s'[k] == s[k];
    assert s'[|s|] == b;
  }

  lemma OpenLineFrom(s: seq<bv8>, b: bv8, p: nat)
    requires OpenAt(s + [b], p)
    requires OpenAt(s, p) ==> FrameAll(s).line == Truncated(s[p..])
    ensures FrameByte(FrameAll(s), b).line == Truncated((s + [b])[p..])
  {
    OpenAfter(s, b, p);
    if b == DOLLAR {
      assert (s + [b])[p..] == [DOLLAR];
    } else {
      assert (s + [b])[p..] == s[p..] + [b];
    }
  }

  /** The collected line is the open part of the stream, cut at 255 bytes; it is empty when nothing is open. */
  lemma {:induction false} OpenLine(s: seq<bv8>)
    ensures forall p: nat :: OpenAt(s, p) ==> FrameAll(s).line == Truncated(s[p..])
    ensures FrameAll(s).line != [] <==> exists p: nat :: OpenAt(s, p)
  {
    if s != [] {
      var front, b := s[..|s| - 1], s[|s| - 1];
      OpenLine(front);
      assert s == front + [b];
      forall p: nat | OpenAt(s, p)
        ensures FrameAll(s).line == Truncated(s[p..])
      {
        OpenLineFrom(front, b, p);
      }
      OpenOrEmpty(front, b);
    }
  }

  lemma OpenOrEmpty(s: seq<bv8>, b: bv8)
    requires FrameAll(s).line != [] <==> exists p: nat :: OpenAt(s, p)
    ensures FrameByte(FrameAll(s), b).line != [] <==> exists p: nat :: OpenAt(s + [b], p)
  {
    hide OpenAt, FrameAll;
    forall p: nat
      ensures OpenAt(s + [b], p) <==> if b == DOLLAR then p == |s| else b != LF && OpenAt(s, p)
    {
      OpenAfter(s, b, p);
    }
    if b == DOLLAR {
      assert OpenAt(s + [b], |s|);
    } else if b != LF && FrameAll(s).line != [] {
      var p: nat :| OpenAt(s, p);
      assert OpenAt(s + [b], p);
    }
  }

  /** The framer logs exactly the lines of the stream, in order. */
  lemma {:induction false} FramerLogsExpectedLines(s: seq<bv8>)
    ensures FrameAll(s).logged == ExpectedLines(s)
  {
    if s != [] {
      var front := s[..|s| - 1];
      FramerLogsExpectedLines(front);
      OpenLine(front);
    }
  }

  /** A well-formed line: '$' first, no other '$', no line feed, at most 255 bytes. */
  predicate WellFormedLine(line: seq<bv8>) {
    && 1 <= |line| < LINE_BUF_SIZE && line[0] == DOLLAR
    && forall k :: 0 < k < |line| ==> line[k] != DOLLAR && line[k] != LF
  }

  lemma {:induction false} LoggedLinesAreWellFormed(s: seq<bv8>)
    ensures FrameAll(s).line == [] || WellFormedLine(FrameAll(s).line)
    ensures forall i :: 0 <= i < |FrameAll(s).logged| ==> WellFormedLine(FrameAll(s).logged[i])
  {
    if s != [] {
      LoggedLinesAreWellFormed(s[..|s| - 1]);
    }
  }

  /** More bytes only add lines. */
  lemma {:induction false} LogOnlyGrows(s: seq<bv8>, t: seq<bv8>)
    ensures FrameAll(s).logged <= FrameAll(s + t).logged
  {
    if t == [] {
      assert s + t == s;
    } else {
      LogOnlyGrows(s, t[..|t| - 1]);
      assert (s + t)[..|s + t| - 1] == s + t[..|t| - 1];
    }
  }
}

/** Interrupt handler, semaphore, ring buffer and parser thread as one step system. */
module GnssPipeline {
  import opened GnssFraming
  import opened Numbers

  const RING_SIZE := 512
  const FIFO_CHUNK := 128
  const COUNTER_MODULUS := 0x1_0000_0000

  datatype IsrPc = IsrIdle | IsrGive
  datatype ThreadPc = Take | Drain

  /** `InterruptDriven` counts the bytes read from the FIFO, `Dma` the bytes the ring accepted. */
  datatype Variant = InterruptDriven | Dma

  datatype State = State(
    ring: seq<bv8>,
    sem: nat,
    isr: IsrPc,
    thread: ThreadPc,
    framer: Framer,
    bytesReceived: nat,
    offered: seq<bv8>,     // history: every byte handed to the callback
    accepted: seq<bv8>)    // history: every byte the ring took

  const START := State([], 0, IsrIdle, Take, IDLE, 0, [], [])

  datatype Action = Receive(data: seq<bv8>) | Give | TakeSem | Get | FoundEmpty

  predicate Enabled(v: Variant, s: State, a: Action) {
    match a
    case Receive(data) => s.isr == IsrIdle && |data| > 0 && (v == InterruptDriven ==> |data| <= FIFO_CHUNK)
    case Give => s.isr == IsrGive
    case TakeSem => s.thread == Take && s.sem > 0
    case Get => s.thread == Drain && |s.ring| > 0
    case FoundEmpty => s.thread == Drain && s.ring == []
  }

  /** How many of the bytes still fit into the ring. */
  function Written(ring: seq<bv8>, data: seq<bv8>): (n: nat)
    ensures n <= |data| && (|ring| <= RING_SIZE ==> |ring| + n <= RING_SIZE)
    ensures n < |data| ==> |ring| + n >= RING_SIZE
  {
    Min(|data|, if |ring| < RING_SIZE then RING_SIZE - |ring| else 0)
  }

  /** A 32-bit counter after `n` increments. */
  function Counter(n: nat): nat {
    n % COUNTER_MODULUS
  }

  function Apply(v: Variant, s: State, a: Action): State
    requires Enabled(v, s, a)
  {
    match a
    case Receive(data) =>
      var written := Written(s.ring, data);
      s.(ring := s.ring + data[..written],
         accepted := s.accepted + data[..written],
         offered := s.offered + data,
         bytesReceived := Counter(s.bytesReceived + if v == Dma then written else |data|),
         isr := IsrGive)
    case Give => s.(sem := Min(s.sem + 1, 1), isr := IsrIdle)
    case TakeSem => s.(sem := s.sem - 1, thread := Drain)
    case Get => s.(ring := s.ring[1..], framer := FrameByte(s.framer, s.ring[0]))
    case FoundEmpty => s.(thread := Take)
  }

  /** Every interleaving: a sequence of enabled actions. */
  ghost predicate Execution(v: Variant, s: State, actions: seq<Action>, t: State)
    decreases |actions|
  {
    if actions == [] then s == t
    else
      var front := actions[..|actions| - 1];
      exists m :: Execution(v, s, front, m) && Enabled(v, m, actions[|actions| - 1])
               && t == Apply(v, m, actions[|actions| - 1])
  }

  /** Bytes the thread has taken out of the ring. */
  function Consumed(s: State): seq<bv8> {
    if |s.ring| <= |s.accepted| then s.accepted[..|s.accepted| - |s.ring|] else []
  }

  /** The ring is the accepted stream without its consumed part, which the framer has seen. */
  ghost predicate StreamInv(s: State) {
    && |s.ring| <= RING_SIZE && |s.ring| <= |s.accepted|
    && s.accepted == Consumed(s) + s.ring
    && s.framer == FrameAll(Consumed(s))
  }

  /** While the thread sleeps on a ring that is not empty, a wake-up is on its way. */
  predicate WakeInv(s: State) {
    s.sem <= 1 && (s.thread == Take && s.ring != [] ==> s.sem == 1 || s.isr == IsrGive)
  }

  predicate CountInv(v: Variant, s: State) {
    s.bytesReceived == Counter(|if v == Dma then s.accepted else s.offered|)
  }

  ghost predicate Inv(v: Variant, s: State) {
    StreamInv(s) && WakeInv(s) && CountInv(v, s)
  }

  lemma CounterSum(a: nat, b: nat)
    ensures Counter(Counter(a) + b) == Counter(a + b)
  {
  }

  lemma ReceiveKeepsInv(v: Variant, s: State, data: seq<bv8>)
    requires Inv(v, s) && Enabled(v, s, Receive(data))
    ensures Inv(v, Apply(v, s, Receive(data)))
  {
    var t := Apply(v, s, Receive(data));
    var taken := data[..Written(s.ring, data)];
    AcceptedKeepsStream(s, t, taken);
    hide Counter, StreamInv, Written;
    CounterSum(|s.offered|, |data|);
    CounterSum(|s.accepted|, |taken|);
  }

  lemma AcceptedKeepsStream(s: State, t: State, taken: seq<bv8>)
    requires StreamInv(s) && |s.ring| + |taken| <= RING_SIZE
    requires t.accepted == s.accepted + taken && t.ring == s.ring + taken && t.framer == s.framer
    ensures StreamInv(t)
  {
    hide FrameAll;
    assert Consumed(t) == (s.accepted + taken)[..|s.accepted| - |s.ring|] == Consumed(s);
  }

  lemma TakenKeepsStream(s: State, t: State)
    requires StreamInv(s) && |s.ring| > 0
    requires t.accepted == s.accepted && t.ring == s.ring[1..] && t.framer == FrameByte(s.framer, s.ring[0])
    ensures StreamInv(t)
  {
    hide FrameAll;
    var before, b := Consumed(s), s.ring[0];
    assert s.ring == [b] + s.ring[1..];
    assert s.accepted == before + [b] + s.ring[1..];
    assert Consumed(t) == before + [b];
    FrameOneMore(before, b);
  }

  lemma FrameOneMore(s: seq<bv8>, b: bv8)
    ensures FrameAll(s + [b]) == FrameByte(FrameAll(s), b)
  {
    assert (s + [b])[..|s|] == s;
  }

  lemma StreamUntouched(s: State, t: State)
    requires StreamInv(s) && t.accepted == s.accepted && t.ring == s.ring && t.framer == s.framer
    ensures StreamInv(t)
  {
  }

  lemma StepKeepsInv(v: Variant, s: State, a: Action)
    requires Inv(v, s) && Enabled(v, s, a)
    ensures Inv(v, Apply(v, s, a))
  {
    var t := Apply(v, s, a);
    match a {
      case Receive(data) => ReceiveKeepsInv(v, s, data);
      case Get => TakenKeepsStream(s, t);
      case Give => StreamUntouched(s, t);
      case TakeSem => StreamUntouched(s, t);
      case FoundEmpty => StreamUntouched(s, t);
    }
    hide StreamInv, Counter;
  }

  lemma {:induction false} ExecutionKeepsInv(v: Variant, actions: seq<Action>, t: State)
    requires Execution(v, START, actions, t)
    ensures Inv(v, t)
    decreases |actions|
  {
    if actions != [] {
      var front, a := actions[..|actions| - 1], actions[|actions| - 1];
      var m :| Execution(v, START, front, m) && Enabled(v, m, a) && t == Apply(v, m, a);
      ExecutionKeepsInv(v, front, m);
      StepKeepsInv(v, m, a);
    }
  }

  /** The thread is blocked on the semaphore and no interrupt is being served. */
  predicate Quiescent(s: State) {
    s.thread == Take && s.sem == 0 && s.isr == IsrIdle
  }

  /** No byte is stranded: in every quiescent state of every interleaving the ring is empty, and the lines logged
      are exactly the lines of the accepted stream. */
  lemma NoByteIsStranded(v: Variant, actions: seq<Action>, s: State)
    requires Execution(v, START, actions, s) && Quiescent(s)
    ensures s.ring == []
    ensures s.framer.logged == ExpectedLines(s.accepted)
  {
    ExecutionKeepsInv(v, actions, s);
    assert Consumed(s) == s.accepted;
    FramerLogsExpectedLines(s.accepted);
  }

  /** In every state the log is a function of the consumed part of the accepted stream, and a prefix of its lines. */
  lemma LogFollowsAcceptedStream(v: Variant, actions: seq<Action>, s: State)
    requires Execution(v, START, actions, s)
    ensures s.framer.logged == ExpectedLines(Consumed(s)) && Consumed(s) <= s.accepted
    ensures s.framer.logged <= ExpectedLines(s.accepted)
    ensures forall i :: 0 <= i < |s.framer.logged| ==> WellFormedLine(s.framer.logged[i])
  {
    ExecutionKeepsInv(v, actions, s);
    LogOnlyGrows(Consumed(s), s.ring);
    FramerLogsExpectedLines(Consumed(s));
    FramerLogsExpectedLines(s.accepted);
    LoggedLinesAreWellFormed(Consumed(s));
  }

  /** The byte counters: the DMA build counts accepted bytes, the interrupt build all bytes read, both modulo 2^32. */
  lemma ByteCounterIsExact(v: Variant, actions: seq<Action>, s: State)
    requires Execution(v, START, actions, s)
    ensures v == Dma ==> s.bytesReceived == (|Consumed(s)| + |s.ring|) % COUNTER_MODULUS
    ensures v == InterruptDriven ==> s.bytesReceived == |s.offered| % COUNTER_MODULUS
  {
    ExecutionKeepsInv(v, actions, s);
  }

  // ----- nothing is dropped while there is room -----

  /** The interrupt offers all its data, and the ring takes a prefix of it: everything, or enough to be full. */
  lemma ReceiveTakesWhatFits(v: Variant, s: State, data: seq<bv8>) returns (n: nat)
    requires Inv(v, s) && Enabled(v, s, Receive(data))
    ensures n <= |data|
    ensures var t := Apply(v, s, Receive(data));
            && t.offered == s.offered + data && t.accepted == s.accepted + data[..n] && t.ring == s.ring + data[..n]
            && (n == |data| || |t.ring| == RING_SIZE)
            && (n == |data| <==> |s.ring| + |data| <= RING_SIZE)
  {
    n := Written(s.ring, data);
  }

  /** Every burst of the run finds room for all its bytes. */
  ghost predicate EveryBurstFits(v: Variant, s: State, actions: seq<Action>)
    decreases |actions|
  {
    actions != [] ==>
      var front, a := actions[..|actions| - 1], actions[|actions| - 1];
      && EveryBurstFits(v, s, front)
      && (a.Receive? ==> forall m :: Execution(v, s, front, m) ==> |m.ring| + |a.data| <= RING_SIZE)
  }

  /** The actions determine the state they lead to. */
  lemma {:induction false} ExecutionIsDeterministic(v: Variant, s: State, actions: seq<Action>, t: State, u: State)
    requires Execution(v, s, actions, t) && Execution(v, s, actions, u)
    ensures t == u
    decreases |actions|
  {
    if actions != [] {
      var front, a := actions[..|actions| - 1], actions[|actions| - 1];
      var m :| Execution(v, s, front, m) && Enabled(v, m, a) && t == Apply(v, m, a);
      var n :| Execution(v, s, front, n) && Enabled(v, n, a) && u == Apply(v, n, a);
      ExecutionIsDeterministic(v, s, front, m, n);
    }
  }

  lemma StepDrops(v: Variant, s: State, a: Action)
    requires Inv(v, s) && Enabled(v, s, a) && |s.accepted| <= |s.offered|
    ensures var t := Apply(v, s, a);
            && |t.accepted| <= |t.offered|
            && (|t.accepted| == |t.offered| <==>
                  |s.accepted| == |s.offered| && (a.Receive? ==> |s.ring| + |a.data| <= RING_SIZE))
            && (s.accepted == s.offered && |t.accepted| == |t.offered| ==> t.accepted == t.offered)
  {
    if a.Receive? {
      var n := ReceiveTakesWhatFits(v, s, a.data);
      assert n == |a.data| ==> a.data[..n] == a.data;
    }
  }

  /** Exactly when no byte is dropped: every byte offered has been accepted if and only if every burst found room. */
  lemma {:induction false} NothingDroppedIff(v: Variant, actions: seq<Action>, t: State)
    requires Execution(v, START, actions, t)
    ensures |t.accepted| <= |t.offered|
    ensures t.accepted == t.offered <==> |t.accepted| == |t.offered|
    ensures t.accepted == t.offered <==> EveryBurstFits(v, START, actions)
    decreases |actions|
  {
    if actions != [] {
      var front, a := actions[..|actions| - 1], actions[|actions| - 1];
      var m :| Execution(v, START, front, m) && Enabled(v, m, a) && t == Apply(v, m, a);
      NothingDroppedIff(v, front, m);
      ExecutionKeepsInv(v, front, m);
      StepDrops(v, m, a);
      forall u | Execution(v, START, front, u)
        ensures u == m
      {
        ExecutionIsDeterministic(v, START, front, m, u);
      }
      hide Inv, Apply;
    }
  }

  /** The bytes the callback was handed over a run. */
  function Bursts(actions: seq<Action>): seq<bv8> {
    if actions == [] then []
    else
      var last := actions[|actions| - 1];
      Bursts(actions[..|actions| - 1]) + if last.Receive? then last.data else []
  }

  lemma {:induction false} OfferedIsBursts(v: Variant, actions: seq<Action>, t: State)
    requires Execution(v, START, actions, t)
    ensures t.offered == Bursts(actions)
    decreases |actions|
  {
    if actions != [] {
      var front, a := actions[..|actions| - 1], actions[|actions| - 1];
      var m :| Execution(v, START, front, m) && Enabled(v, m, a) && t == Apply(v, m, a);
      OfferedIsBursts(v, front, m);
    }
  }

  /** So the whole pipeline, whenever it has come to rest after bursts that fitted, has logged exactly the lines of what
      the hardware delivered. */
  lemma EveryLineIsLogged(v: Variant, actions: seq<Action>, t: State)
    requires Execution(v, START, actions, t) && EveryBurstFits(v, START, actions) && Quiescent(t)
    ensures t.framer.logged == ExpectedLines(Bursts(actions))
  {
    NothingDroppedIff(v, actions, t);
    OfferedIsBursts(v, actions, t);
    NoByteIsStranded(v, actions, t);
  }

  predicate ThreadAction(a: Action) {
    a == TakeSem || a == Get || a == FoundEmpty
  }

  lemma NothingToDo(v: Variant, s: State)
    requires Inv(v, s) && Quiescent(s)
    ensures s.ring == [] && Execution(v, s, [], s)
  {
  }

  /** Left alone, the thread always gets back to blocking, and by then it has consumed every accepted byte. */
  lemma {:induction false} ThreadSettles(v: Variant, s: State) returns (actions: seq<Action>, t: State)
    requires Inv(v, s) && s.isr == IsrIdle
    ensures Execution(v, s, actions, t) && Quiescent(t) && Inv(v, t)
    ensures t.accepted == s.accepted && t.ring == []
    ensures forall i :: 0 <= i < |actions| ==> ThreadAction(actions[i])
    decreases s.sem, |s.ring|, s.thread == Drain
  {
    hide Inv, FrameByte, Execution;
    if Quiescent(s) {
      NothingToDo(v, s);
      actions, t := [], s;
    } else {
      var a := if s.thread == Take then TakeSem else if s.ring == [] then FoundEmpty else Get;
      StepKeepsInv(v, s, a);
      var rest;
      rest, t := ThreadSettles(v, Apply(v, s, a));
      actions := [a] + rest;
      PrependStep(v, s, a, rest, t);
    }
  }

  lemma {:induction false} PrependStep(v: Variant, s: State, a: Action, rest: seq<Action>, t: State)
    requires Enabled(v, s, a) && Execution(v, Apply(v, s, a), rest, t)
    ensures Execution(v, s, [a] + rest, t)
    decreases |rest|
  {
    var all := [a] + rest;
    if rest == [] {
      assert all[..0] == [];
      assert Execution(v, s, all[..0], s);
    } else {
      var front, b := rest[..|rest| - 1], rest[|rest| - 1];
      var m :| Execution(v, Apply(v, s, a), front, m) && Enabled(v, m, b) && t == Apply(v, m, b);
      PrependStep(v, s, a, front, m);
      assert all[..|all| - 1] == [a] + front;
    }
  }
}
