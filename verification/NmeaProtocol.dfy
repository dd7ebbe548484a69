/** NMEA 0183 sentence framing: the byte-level state machine as a function, and what it recognises. */
module NmeaProtocol {
  import opened Options

  const NMEA_BUFFER_LEN := 256

  const DOLLAR: bv8 := 0x24
  const STAR: bv8 := 0x2A
  const CR: bv8 := 0x0D
  const LF: bv8 := 0x0A

  datatype ParseState = WaitDollar | AccumulateSentence | WaitChecksumHi | WaitChecksumLo | WaitLf

  datatype ErrorCode = ChecksumMismatch | SentenceTooLong | UnexpectedStart

  /** What the parser reports to its dispatcher. */
  datatype Event =
    | Dispatched(body: seq<bv8>, checksumPresent: bool, checksum: bv8, checksumValid: bool)
    | Discarded(code: ErrorCode)

  datatype Context = Context(
    state: ParseState, buf: seq<bv8>, running: bv8, csHi: bv8, received: bv8, checksumPresent: bool)

  const FRESH := Context(WaitDollar, [], 0, 0, 0, false)

  datatype Machine = Machine(ctx: Context, decoded: nat, discarded: nat, events: seq<Event>)

  const INITIAL := Machine(FRESH, 0, 0, [])

  // ----- checksum text -----

  function HexValue(c: bv8): (v: Option<bv8>)
    ensures v.Some? ==> v.value < 16
  {
    if 0x30 <= c <= 0x39 then Some(c - 0x30)
    else if 0x41 <= c <= 0x46 then Some(c - 0x37)
    else if 0x61 <= c <= 0x66 then Some(c - 0x57)
    else None
  }

  function ParseHexByte(hi: bv8, lo: bv8): Option<bv8> {
    match (HexValue(hi), HexValue(lo))
    case (Some(h), Some(l)) => Some((h << 4) | l)
    case _ => None
  }

  /** Sixteen values, each spelt by its digit, the last six by a letter of either case. */
  lemma HexDigitsSpell(c: bv8, v: bv8)
    requires v < 16
    ensures HexValue(c) == Some(v) <==> c == HexDigit(v) || (v >= 10 && c == HexDigit(v) + 0x20)
  {
  }

  function HexDigit(v: bv8): (c: bv8)
    requires v < 16
    ensures HexValue(c) == Some(v)
  {
    if v < 10 then 0x30 + v else 0x37 + v
  }

  function Xor(s: seq<bv8>): bv8 {
    if s == [] then 0 else Xor(s[..|s| - 1]) ^ s[|s| - 1]
  }

  // ----- the state machine -----

  function DiscardWithError(m: Machine, code: ErrorCode): Machine {
    Machine(FRESH, m.decoded, m.discarded + 1, m.events + [Discarded(code)])
  }

  function OnSentenceComplete(m: Machine): Machine {
    if m.ctx.checksumPresent && m.ctx.running != m.ctx.received then DiscardWithError(m, ChecksumMismatch)
    else
      var sentence := Dispatched(m.ctx.buf, m.ctx.checksumPresent, m.ctx.received, m.ctx.checksumPresent);
      Machine(FRESH, m.decoded + 1, m.discarded, m.events + [sentence])
  }

  function Step(m: Machine, c: bv8): Machine {
    match m.ctx.state
    case WaitDollar =>
      if c == DOLLAR then m.(ctx := FRESH.(state := AccumulateSentence)) else m
    case AccumulateSentence =>
      if c == DOLLAR then
        var d := DiscardWithError(m, UnexpectedStart);
        d.(ctx := d.ctx.(buf := [], state := AccumulateSentence))
      else if c == STAR then m.(ctx := m.ctx.(checksumPresent := true, state := WaitChecksumHi))
      else if c == CR then m.(ctx := m.ctx.(checksumPresent := false, state := WaitLf))
      else if c == LF then OnSentenceComplete(m.(ctx := m.ctx.(checksumPresent := false)))
      else if |m.ctx.buf| >= NMEA_BUFFER_LEN then DiscardWithError(m, SentenceTooLong)
      else m.(ctx := m.ctx.(buf := m.ctx.buf + [c], running := m.ctx.running ^ c))
    case WaitChecksumHi => m.(ctx := m.ctx.(csHi := c, state := WaitChecksumLo))
    case WaitChecksumLo =>
      (match ParseHexByte(m.ctx.csHi, c)
       case None => DiscardWithError(m, ChecksumMismatch)
       case Some(parsed) => m.(ctx := m.ctx.(received := parsed, state := WaitLf)))
    case WaitLf =>
      if c == CR then m
      else if c == LF then OnSentenceComplete(m)
      else if c == DOLLAR then
        var d := DiscardWithError(m, UnexpectedStart);
        d.(ctx := FRESH.(state := AccumulateSentence))
      else m
  }

  function Run(m: Machine, s: seq<bv8>): Machine {
    if s == [] then m else Step(Run(m, s[..|s| - 1]), s[|s| - 1])
  }

  // ----- chunking -----

  lemma {:induction false} RunAppend(m: Machine, s: seq<bv8>, t: seq<bv8>)
    ensures Run(m, s + t) == Run(Run(m, s), t)
  {
    hide Step;
    if t == [] {
      assert s + t == s;
    } else {
      RunAppend(m, s, t[..|t| - 1]);
      assert (s + t)[..|s + t| - 1] == s + t[..|t| - 1];
    }
  }

  function Flatten(chunks: seq<seq<bv8>>): seq<bv8> {
    if chunks == [] then [] else Flatten(chunks[..|chunks| - 1]) + chunks[|chunks| - 1]
  }

  /** Successive `feed` calls. */
  function FeedAll(m: Machine, chunks: seq<seq<bv8>>): Machine {
    if chunks == [] then m else Run(FeedAll(m, chunks[..|chunks| - 1]), chunks[|chunks| - 1])
  }

  /** How the bytes are split across `feed` calls is unobservable. */
  lemma {:induction false} ChunkingIsInvisible(m: Machine, chunks: seq<seq<bv8>>)
    ensures FeedAll(m, chunks) == Run(m, Flatten(chunks))
  {
    if chunks != [] {
      ChunkingIsInvisible(m, chunks[..|chunks| - 1]);
      RunAppend(m, Flatten(chunks[..|chunks| - 1]), chunks[|chunks| - 1]);
    }
  }

  // ----- sentences and what happens to them -----

  /** A sentence body: no delimiter byte. */
  predicate Clean(body: seq<bv8>) {
    forall i :: 0 <= i < |body| ==> body[i] != DOLLAR && body[i] != STAR && body[i] != CR && body[i] != LF
  }

  /** Bytes ignored while waiting for the end of the line. */
  predicate Filler(t: seq<bv8>) {
    forall i :: 0 <= i < |t| ==> t[i] != DOLLAR && t[i] != LF
  }

  /** The two states in which '$' is taken for a checksum digit. */
  predicate ReadingChecksum(m: Machine) {
    m.ctx.state == WaitChecksumHi || m.ctx.state == WaitChecksumLo
  }

  predicate InProgress(m: Machine) {
    m.ctx.state != WaitDollar
  }

  /** The machine after a '$' that starts a sentence: what was in progress has been reported as cut short. */
  function Started(m: Machine): Machine {
    var ctx := FRESH.(state := AccumulateSentence);
    if InProgress(m) then Machine(ctx, m.decoded, m.discarded + 1, m.events + [Discarded(UnexpectedStart)])
    else Machine(ctx, m.decoded, m.discarded, m.events)
  }

  /** The machine after a sentence that was rejected for the reason `code`. */
  function Rejected(m: Machine, code: ErrorCode): Machine {
    Machine(FRESH, m.decoded, Started(m).discarded + 1, Started(m).events + [Discarded(code)])
  }

  lemma {:induction false} RunBody(m: Machine, body: seq<bv8>)
    requires m.ctx.state == AccumulateSentence && Clean(body)
    requires |m.ctx.buf| + |body| <= NMEA_BUFFER_LEN
    ensures Run(m, body) == m.(ctx := m.ctx.(buf := m.ctx.buf + body, running := m.ctx.running ^ Xor(body)))
  {
    if body == [] {
      assert m.ctx.buf + body == m.ctx.buf;
    } else {
      var front, c := body[..|body| - 1], body[|body| - 1];
      RunBody(m, front);
      assert m.ctx.buf + front + [c] == m.ctx.buf + body;
      assert (m.ctx.running ^ Xor(front)) ^ c == m.ctx.running ^ (Xor(front) ^ c);
    }
  }

  lemma {:induction false} RunFiller(m: Machine, t: seq<bv8>)
    requires m.ctx.state == WaitLf && Filler(t)
    ensures Run(m, t) == m
  {
    if t != [] {
      RunFiller(m, t[..|t| - 1]);
    }
  }

  lemma RunOne(m: Machine, c: bv8)
    ensures Run(m, [c]) == Step(m, c)
  {
    assert [c][..0] == [];
  }

  lemma RunDollar(m: Machine)
    requires !ReadingChecksum(m)
    ensures Run(m, [DOLLAR]) == Started(m)
  {
    RunOne(m, DOLLAR);
    hide Run;
  }

  lemma RunOpening(m: Machine, body: seq<bv8>)
    requires !ReadingChecksum(m) && Clean(body) && |body| <= NMEA_BUFFER_LEN
    ensures var s := Started(m);
            Run(m, [DOLLAR] + body) == s.(ctx := s.ctx.(buf := body, running := Xor(body)))
  {
    RunAppend(m, [DOLLAR], body);
    RunDollar(m);
    RunBody(Started(m), body);
    hide Run, Step, Xor, Clean;
    assert [] + body == body;
  }

  /** Fate of any sentence with a checksum field, whatever follows the digits on the line:
      it is dispatched exactly when the digits are hexadecimal and spell the XOR of the body. */
  lemma ChecksummedSentence(m: Machine, body: seq<bv8>, hi: bv8, lo: bv8, t: seq<bv8>)
    requires !ReadingChecksum(m) && Clean(body) && |body| <= NMEA_BUFFER_LEN && Filler(t)
    ensures var r := Run(m, [DOLLAR] + body + [STAR, hi, lo] + t + [LF]);
            ParseHexByte(hi, lo) == Some(Xor(body)) ==>
              r == Machine(FRESH, m.decoded + 1, Started(m).discarded,
                           Started(m).events + [Dispatched(body, true, Xor(body), true)])
    ensures var r := Run(m, [DOLLAR] + body + [STAR, hi, lo] + t + [LF]);
            ParseHexByte(hi, lo) != Some(Xor(body)) ==>
              r == Rejected(m, ChecksumMismatch)
  {
    var digits := RunDigits(m, body, hi, lo);
    var prefix := [DOLLAR] + body + [STAR, hi, lo];
    RunAppend(m, prefix, t);
    RunAppend(m, prefix + t, [LF]);
    RunOne(Run(digits, t), LF);
    if ParseHexByte(hi, lo).Some? {
      RunFiller(digits, t);
    } else {
      RunNoise(digits, t);
    }
  }

  lemma RunDigits(m: Machine, body: seq<bv8>, hi: bv8, lo: bv8) returns (r: Machine)
    requires !ReadingChecksum(m) && Clean(body) && |body| <= NMEA_BUFFER_LEN
    ensures r == Run(m, [DOLLAR] + body + [STAR, hi, lo])
    ensures
      match ParseHexByte(hi, lo)
      case None => r == Rejected(m, ChecksumMismatch)
      case Some(v) => r == Started(m).(ctx := Context(WaitLf, body, Xor(body), hi, v, true))
  {
    RunOpening(m, body);
    var s := Run(m, [DOLLAR] + body);
    r := Step(Step(Step(s, STAR), hi), lo);
    RunAppend(m, [DOLLAR] + body, [STAR, hi, lo]);
    RunThree(s, STAR, hi, lo);
  }

  lemma RunThree(m: Machine, a: bv8, b: bv8, c: bv8)
    ensures Run(m, [a, b, c]) == Step(Step(Step(m, a), b), c)
  {
    assert [a, b, c] == [a] + [b] + [c];
    RunAppend(m, [a] + [b], [c]);
    RunAppend(m, [a], [b]);
    RunOne(m, a);
    RunOne(Step(m, a), b);
    RunOne(Step(Step(m, a), b), c);
  }

  lemma {:induction false} RunNoise(m: Machine, t: seq<bv8>)
    requires m.ctx.state == WaitDollar && forall i :: 0 <= i < |t| ==> t[i] != DOLLAR
    ensures Run(m, t) == m
  {
    if t != [] {
      RunNoise(m, t[..|t| - 1]);
    }
  }

  lemma RunLineTail(m: Machine, t: seq<bv8>)
    requires m.ctx.state == AccumulateSentence
    requires t != [] && t[0] == CR && Filler(t[1..])
    ensures Run(m, t) == m.(ctx := m.ctx.(checksumPresent := false, state := WaitLf))
  {
    assert t == [CR] + t[1..];
    RunAppend(m, [CR], t[1..]);
    RunOne(m, CR);
    RunFiller(Step(m, CR), t[1..]);
  }

  /** The end of a sentence without a checksum field: an optional CR with anything ignorable after it, then LF. */
  lemma RunBareEnding(m: Machine, t: seq<bv8>)
    requires m.ctx.state == AccumulateSentence
    requires t == [] || (t[0] == CR && Filler(t[1..]))
    ensures Run(m, t + [LF]) == OnSentenceComplete(m.(ctx := m.ctx.(checksumPresent := false)))
  {
    RunAppend(m, t, [LF]);
    RunOne(Run(m, t), LF);
    if t != [] {
      RunLineTail(m, t);
    }
  }

  /** A sentence without a checksum field is always dispatched, marked as unchecked. */
  lemma BareSentence(m: Machine, body: seq<bv8>, t: seq<bv8>)
    requires !ReadingChecksum(m) && Clean(body) && |body| <= NMEA_BUFFER_LEN
    requires t == [] || (t[0] == CR && Filler(t[1..]))
    ensures Run(m, [DOLLAR] + body + t + [LF])
         == Machine(FRESH, m.decoded + 1, Started(m).discarded, Started(m).events + [Dispatched(body, false, 0, false)])
  {
    hide Run, Step, Xor, Clean, Filler;
    RunOpening(m, body);
    assert [DOLLAR] + body + t + [LF] == ([DOLLAR] + body) + (t + [LF]);
    RunAppend(m, [DOLLAR] + body, t + [LF]);
    RunBareEnding(Run(m, [DOLLAR] + body), t);
  }

  // ----- round trip -----

  function MakeSentence(body: seq<bv8>): seq<bv8> {
    [DOLLAR] + body + [STAR, HexDigit(Xor(body) >> 4), HexDigit(Xor(body) & 0xF)] + [CR] + [LF]
  }

  lemma HexRoundTrip(v: bv8)
    ensures ParseHexByte(HexDigit(v >> 4), HexDigit(v & 0xF)) == Some(v)
  {
    assert ((v >> 4) << 4) | (v & 0xF) == v;
  }

  /** The parser reads back what the printer wrote: however it is chunked, a printed body is dispatched exactly
      once, with a valid checksum, and the machine is ready again. */
  lemma RoundTrip(m: Machine, body: seq<bv8>, chunks: seq<seq<bv8>>)
    requires !ReadingChecksum(m) && Clean(body) && |body| <= NMEA_BUFFER_LEN
    requires Flatten(chunks) == MakeSentence(body)
    ensures FeedAll(m, chunks)
         == Machine(FRESH, m.decoded + 1, Started(m).discarded,
                    Started(m).events + [Dispatched(body, true, Xor(body), true)])
  {
    ChunkingIsInvisible(m, chunks);
    HexRoundTrip(Xor(body));
    ChecksummedSentence(m, body, HexDigit(Xor(body) >> 4), HexDigit(Xor(body) & 0xF), [CR]);
  }

  /** A longer body is never dispatched: the byte that overflows discards the sentence and the rest is noise. */
  lemma TooLongIsDiscarded(m: Machine, body: seq<bv8>)
    requires !ReadingChecksum(m) && Clean(body) && |body| > NMEA_BUFFER_LEN
    ensures Run(m, MakeSentence(body)) == Rejected(m, SentenceTooLong)
  {
    var hi, lo := HexDigit(Xor(body) >> 4), HexDigit(Xor(body) & 0xF);
    NotDollar(Xor(body) >> 4);
    NotDollar(Xor(body) & 0xF);
    SplitLong(body, hi, lo);
    var front, tail := body[..NMEA_BUFFER_LEN + 1], body[NMEA_BUFFER_LEN + 1..] + [STAR, hi, lo, CR, LF];
    OverflowDiscards(m, front);
    hide *;
    RunAppend(m, [DOLLAR] + front, tail);
    RunNoise(Run(m, [DOLLAR] + front), tail);
  }

  lemma SplitLong(body: seq<bv8>, hi: bv8, lo: bv8)
    requires Clean(body) && |body| > NMEA_BUFFER_LEN && hi != DOLLAR && lo != DOLLAR
    ensures var tail := body[NMEA_BUFFER_LEN + 1..] + [STAR, hi, lo, CR, LF];
            && [DOLLAR] + body + [STAR, hi, lo] + [CR] + [LF] == ([DOLLAR] + body[..NMEA_BUFFER_LEN + 1]) + tail
            && forall k :: 0 <= k < |tail| ==> tail[k] != DOLLAR
  {
    var rest := body[NMEA_BUFFER_LEN + 1..];
    assert forall k :: 0 <= k < |rest| ==> rest[k] == body[NMEA_BUFFER_LEN + 1 + k];
  }

  lemma OverflowDiscards(m: Machine, body: seq<bv8>)
    requires !ReadingChecksum(m) && Clean(body) && |body| == NMEA_BUFFER_LEN + 1
    ensures Run(m, [DOLLAR] + body) == Rejected(m, SentenceTooLong)
  {
    var front, c := body[..NMEA_BUFFER_LEN], body[NMEA_BUFFER_LEN];
    assert [DOLLAR] + body == ([DOLLAR] + front) + [c];
    RunAppend(m, [DOLLAR] + front, [c]);
    RunOpening(m, front);
    RunOne(Run(m, [DOLLAR] + front), c);
  }

  lemma NotDollar(v: bv8)
    requires v < 16
    ensures HexDigit(v) != DOLLAR
  {
  }

  // ----- error detection -----

  lemma {:induction false} XorReplace(body: seq<bv8>, i: nat, b: bv8)
    requires i < |body|
    ensures Xor(body[i := b]) == Xor(body) ^ body[i] ^ b
  {
    var front, c := body[..|body| - 1], body[|body| - 1];
    var changed := body[i := b];
    if i == |body| - 1 {
      assert changed[..|body| - 1] == front;
      assert Xor(front) ^ b == Xor(front) ^ c ^ c ^ b;
    } else {
      XorReplace(front, i, b);
      assert changed[..|body| - 1] == front[i := b];
      assert (Xor(front) ^ body[i] ^ b) ^ c == (Xor(front) ^ c) ^ body[i] ^ b;
    }
  }

  /** Replacing any one body byte of a correctly checksummed sentence by another non-delimiter byte always ends in a
      discard, however its digits are written and whatever follows them on the line. */
  lemma SingleByteCorruptionIsCaught(m: Machine, body: seq<bv8>, hi: bv8, lo: bv8, t: seq<bv8>, i: nat, b: bv8)
    requires !ReadingChecksum(m) && Clean(body) && |body| <= NMEA_BUFFER_LEN && Filler(t)
    requires ParseHexByte(hi, lo) == Some(Xor(body))
    requires i < |body| && b != body[i] && Clean([b])
    ensures Run(m, ([DOLLAR] + body + [STAR, hi, lo] + t + [LF])[i + 1 := b])
         == Rejected(m, ChecksumMismatch)
  {
    hide Run, Step, Xor, Clean, Filler, ReadingChecksum, Started, ParseHexByte;
    ReplaceInside(body, [STAR, hi, lo], t, i, b);
    ChecksumDiffers(body, i, b);
    CleanReplace(body, i, b);
    ChecksummedSentence(m, body[i := b], hi, lo, t);
  }

  /** In particular what the printer wrote. */
  lemma PrintedCorruptionIsCaught(m: Machine, body: seq<bv8>, i: nat, b: bv8)
    requires !ReadingChecksum(m) && Clean(body) && |body| <= NMEA_BUFFER_LEN
    requires i < |body| && b != body[i] && Clean([b])
    ensures Run(m, MakeSentence(body)[i + 1 := b]) == Rejected(m, ChecksumMismatch)
  {
    HexRoundTrip(Xor(body));
    CarriageReturnIsFiller();
    hide Run, Step, Xor, Clean, Filler, ReadingChecksum, Started, ParseHexByte, HexDigit;
    SingleByteCorruptionIsCaught(m, body, HexDigit(Xor(body) >> 4), HexDigit(Xor(body) & 0xF), [CR], i, b);
  }

  lemma CarriageReturnIsFiller()
    ensures Filler([CR])
  {
  }

  lemma ReplaceInside(body: seq<bv8>, digits: seq<bv8>, t: seq<bv8>, i: nat, b: bv8)
    requires i < |body|
    ensures ([DOLLAR] + body + digits + t + [LF])[i + 1 := b] == [DOLLAR] + body[i := b] + digits + t + [LF]
  {
  }

  lemma ChecksumDiffers(body: seq<bv8>, i: nat, b: bv8)
    requires i < |body| && b != body[i]
    ensures Xor(body) != Xor(body[i := b])
  {
    XorReplace(body, i, b);
    DifferentXor(Xor(body), body[i], b);
  }

  lemma CleanReplace(body: seq<bv8>, i: nat, b: bv8)
    requires i < |body| && Clean(body) && Clean([b])
    ensures Clean(body[i := b])
  {
    assert [b][0] == b;
  }

  lemma DifferentXor(x: bv8, a: bv8, b: bv8)
    requires a != b
    ensures x ^ a ^ b != x
  {
  }

  // ----- accounting -----

  /** The bytes at which a sentence is opened. */
  predicate Opens(m: Machine, c: bv8) {
    c == DOLLAR && !ReadingChecksum(m)
  }

  function OpenedCount(m: Machine, s: seq<bv8>): nat {
    if s == [] then 0
    else OpenedCount(m, s[..|s| - 1]) + if Opens(Run(m, s[..|s| - 1]), s[|s| - 1]) then 1 else 0
  }

  function Pending(m: Machine): nat {
    if InProgress(m) then 1 else 0
  }

  /** Over every byte stream no sentence is lost or invented: opened = decoded + discarded + in progress. */
  lemma {:induction false} SentencesAreConserved(m: Machine, s: seq<bv8>)
    ensures var r := Run(m, s);
            Pending(m) + OpenedCount(m, s) == (r.decoded - m.decoded) + (r.discarded - m.discarded) + Pending(r)
  {
    if s != [] {
      SentencesAreConserved(m, s[..|s| - 1]);
    }
  }

  function CountDispatched(events: seq<Event>): nat {
    if events == [] then 0
    else CountDispatched(events[..|events| - 1]) + if events[|events| - 1].Dispatched? then 1 else 0
  }

  /** One byte reports at most one event, and counts it in the matching statistic. */
  lemma StepReports(m: Machine, c: bv8)
    ensures var r := Step(m, c);
            || (r.events == m.events && r.decoded == m.decoded && r.discarded == m.discarded)
            || exists e :: && r.events == m.events + [e]
                           && r.decoded == m.decoded + (if e.Dispatched? then 1 else 0)
                           && r.discarded == m.discarded + if e.Dispatched? then 0 else 1
  {
    var r := Step(m, c);
    if r.events != m.events {
      assert r.events == m.events + [r.events[|m.events|]];
    }
  }

  /** The statistics count exactly the events reported. */
  lemma {:induction false} StatisticsMatchEvents(s: seq<bv8>)
    ensures var r := Run(INITIAL, s);
            r.decoded == CountDispatched(r.events) && r.decoded + r.discarded == |r.events|
  {
    hide Step;
    if s != [] {
      var before := Run(INITIAL, s[..|s| - 1]);
      var after := Run(INITIAL, s);
      StatisticsMatchEvents(s[..|s| - 1]);
      StepReports(before, s[|s| - 1]);
      assert after.events != before.events ==> after.events[..|after.events| - 1] == before.events;
    }
  }

  // ----- soundness: nothing is dispatched that was not framed in the stream -----

  /** `s[p..]` is what the context has accumulated since the '$' at `p`. */
  ghost predicate Accumulated(s: seq<bv8>, ctx: Context, p: nat) {
    && p < |s| && s[p] == DOLLAR
    && Clean(ctx.buf) && |ctx.buf| <= NMEA_BUFFER_LEN && ctx.running == Xor(ctx.buf)
    && match ctx.state {
         case WaitDollar => false
         case AccumulateSentence => s[p + 1..] == ctx.buf && ctx.received == 0
         case WaitChecksumHi => s[p + 1..] == ctx.buf + [STAR] && ctx.checksumPresent
         case WaitChecksumLo => s[p + 1..] == ctx.buf + [STAR, ctx.csHi] && ctx.checksumPresent
         case WaitLf => exists tail :: s[p + 1..] == ctx.buf + tail && LineTail(ctx, tail)
       }
  }

  /** What may stand between the body and the line feed. */
  ghost predicate LineTail(ctx: Context, tail: seq<bv8>) {
    if ctx.checksumPresent then
      |tail| >= 3 && tail[0] == STAR && ParseHexByte(tail[1], tail[2]) == Some(ctx.received) && Filler(tail[3..])
    else
      ctx.received == 0 && |tail| >= 1 && tail[0] == CR && Filler(tail[1..])
  }

  /** `e` reports the sentence that starts at the '$' at `p` and ends at the line feed at `q`. */
  ghost predicate FramedAt(s: seq<bv8>, e: Event, p: nat, q: nat) {
    && e.Dispatched?
    && p < q < |s| && s[p] == DOLLAR && s[q] == LF
    && Clean(e.body) && |e.body| <= NMEA_BUFFER_LEN
    && |e.body| <= q - p - 1 && s[p + 1..p + 1 + |e.body|] == e.body
    && var tail := s[p + 1 + |e.body|..q];
       if e.checksumPresent then
         && |tail| >= 3 && tail[0] == STAR && Filler(tail[3..])
         && ParseHexByte(tail[1], tail[2]) == Some(e.checksum) && e.checksum == Xor(e.body) && e.checksumValid
       else
         (tail == [] || (tail[0] == CR && Filler(tail[1..]))) && !e.checksumValid && e.checksum == 0
  }

  ghost predicate Framed(s: seq<bv8>, e: Event) {
    exists p: nat, q: nat :: FramedAt(s, e, p, q)
  }

  lemma FramedExtend(s: seq<bv8>, t: seq<bv8>, e: Event)
    requires Framed(s, e)
    ensures Framed(s + t, e)
  {
    var p: nat, q: nat :| FramedAt(s, e, p, q);
    assert (s + t)[p + 1 + |e.body|..q] == s[p + 1 + |e.body|..q];
    assert (s + t)[p + 1..p + 1 + |e.body|] == s[p + 1..p + 1 + |e.body|];
    assert FramedAt(s + t, e, p, q);
  }

  /** Where the open sentence started, if one is open. */
  lemma {:induction false} OpenSentence(s: seq<bv8>) returns (p: nat)
    ensures InProgress(Run(INITIAL, s)) ==> Accumulated(s, Run(INITIAL, s).ctx, p)
    ensures InProgress(Run(INITIAL, s)) ==> p < |s| && s[p] == DOLLAR && !ReadingChecksum(Run(INITIAL, s[..p]))
    ensures !InProgress(Run(INITIAL, s)) ==> Run(INITIAL, s).ctx == FRESH
  {
    hide Step, Accumulated;
    p := 0;
    if s != [] {
      var front, c := s[..|s| - 1], s[|s| - 1];
      p := OpenSentence(front);
      var m := Run(INITIAL, front);
      assert s == front + [c];
      assert forall q :: 0 <= q < |front| ==> s[..q] == front[..q];
      if Opens(m, c) {
        p := |s| - 1;
        OpeningByte(front, m);
      } else if InProgress(Step(m, c)) {
        StaysOpen(m, c);
        OpenSentenceStep(front, c, m, p);
      } else {
        ClosesFresh(m, c);
      }
    }
  }

  lemma OpeningByte(s: seq<bv8>, m: Machine)
    requires Opens(m, DOLLAR)
    ensures Accumulated(s + [DOLLAR], Step(m, DOLLAR).ctx, |s|)
  {
    assert (s + [DOLLAR])[|s| + 1..] == [];
  }

  lemma StaysOpen(m: Machine, c: bv8)
    requires !Opens(m, c) && InProgress(Step(m, c))
    ensures InProgress(m)
  {
  }

  lemma ClosesFresh(m: Machine, c: bv8)
    requires !InProgress(Step(m, c)) && (InProgress(m) || m.ctx == FRESH)
    ensures Step(m, c).ctx == FRESH
  {
  }

  lemma OpenSentenceStep(s: seq<bv8>, c: bv8, m: Machine, p: nat)
    requires InProgress(m) && Accumulated(s, m.ctx, p)
    requires !Opens(m, c) && InProgress(Step(m, c))
    ensures Accumulated(s + [c], Step(m, c).ctx, p)
  {
    assert (s + [c])[p + 1..] == s[p + 1..] + [c];
    match m.ctx.state {
      case AccumulateSentence => BodyByte(s, c, m, p);
      case WaitChecksumHi => assert m.ctx.buf + [STAR] + [c] == m.ctx.buf + [STAR, c];
      case WaitChecksumLo => LastDigit(s, c, m, p);
      case WaitLf => LineByte(s, c, m, p);
    }
  }

  lemma BodyByte(s: seq<bv8>, c: bv8, m: Machine, p: nat)
    requires m.ctx.state == AccumulateSentence && Accumulated(s, m.ctx, p)
    requires c != DOLLAR && InProgress(Step(m, c))
    ensures Accumulated(s + [c], Step(m, c).ctx, p)
  {
    if c == CR {
      BodyEndsInCr(s, m, p);
    } else if c == STAR {
      assert (s + [STAR])[p + 1..] == s[p + 1..] + [STAR];
    } else {
      OrdinaryByte(s, c, m, p);
    }
  }

  lemma BodyEndsInCr(s: seq<bv8>, m: Machine, p: nat)
    requires m.ctx.state == AccumulateSentence && Accumulated(s, m.ctx, p)
    ensures Accumulated(s + [CR], Step(m, CR).ctx, p)
  {
    assert (s + [CR])[p + 1..] == s[p + 1..] + [CR] == m.ctx.buf + [CR];
    assert [CR][1..] == [];
    assert LineTail(Step(m, CR).ctx, [CR]);
  }

  lemma OrdinaryByte(s: seq<bv8>, c: bv8, m: Machine, p: nat)
    requires m.ctx.state == AccumulateSentence && Accumulated(s, m.ctx, p)
    requires c != DOLLAR && c != STAR && c != CR && InProgress(Step(m, c))
    ensures Accumulated(s + [c], Step(m, c).ctx, p)
  {
    assert c != LF && |m.ctx.buf| < NMEA_BUFFER_LEN;
    assert Step(m, c).ctx == Longer(m.ctx, c);
    hide Step, Accumulated;
    LongerAccumulates(s, c, m.ctx, p);
  }

  function Longer(ctx: Context, c: bv8): Context {
    ctx.(buf := ctx.buf + [c], running := ctx.running ^ c)
  }

  lemma LongerAccumulates(s: seq<bv8>, c: bv8, ctx: Context, p: nat)
    requires ctx.state == AccumulateSentence && Accumulated(s, ctx, p) && |ctx.buf| < NMEA_BUFFER_LEN
    requires c != DOLLAR && c != STAR && c != CR && c != LF
    ensures Accumulated(s + [c], Longer(ctx, c), p)
  {
    CleanExtend(ctx.buf, c);
    assert (s + [c])[p + 1..] == s[p + 1..] + [c];
    hide Clean, Xor;
  }

  lemma CleanExtend(body: seq<bv8>, c: bv8)
    requires Clean(body) && c != DOLLAR && c != STAR && c != CR && c != LF
    ensures Clean(body + [c]) && Xor(body + [c]) == Xor(body) ^ c
  {
    assert (body + [c])[..|body|] == body;
  }

  lemma LastDigit(s: seq<bv8>, c: bv8, m: Machine, p: nat)
    requires m.ctx.state == WaitChecksumLo && Accumulated(s, m.ctx, p)
    requires InProgress(Step(m, c))
    ensures Accumulated(s + [c], Step(m, c).ctx, p)
  {
    var ctx, ctx' := m.ctx, Step(m, c).ctx;
    var tail := [STAR, ctx.csHi, c];
    assert (s + [c])[p + 1..] == s[p + 1..] + [c] == ctx.buf + tail;
    assert tail[3..] == [];
    assert LineTail(ctx', tail);
  }

  lemma LineByte(s: seq<bv8>, c: bv8, m: Machine, p: nat)
    requires m.ctx.state == WaitLf && Accumulated(s, m.ctx, p)
    requires c != DOLLAR && c != LF
    ensures Accumulated(s + [c], Step(m, c).ctx, p)
  {
    var tail :| s[p + 1..] == m.ctx.buf + tail && LineTail(m.ctx, tail);
    LineTailExtend(m.ctx, tail, c);
    assert (s + [c])[p + 1..] == s[p + 1..] + [c] == m.ctx.buf + (tail + [c]);
  }

  lemma LineTailExtend(ctx: Context, tail: seq<bv8>, c: bv8)
    requires LineTail(ctx, tail) && c != DOLLAR && c != LF
    ensures LineTail(ctx, tail + [c])
  {
    var k := if ctx.checksumPresent then 3 else 1;
    assert (tail + [c])[k..] == tail[k..] + [c];
  }

  /** Completing a sentence reports exactly the bytes framed in the stream. */
  lemma CompletionIsFramed(s: seq<bv8>, m: Machine, p: nat)
    requires InProgress(m) && Accumulated(s, m.ctx, p)
    requires Step(m, LF).decoded == m.decoded + 1
    ensures var r := Step(m, LF);
            exists e :: r.events == m.events + [e] && FramedAt(s + [LF], e, p, |s|)
  {
    var e := Dispatched(m.ctx.buf, m.ctx.state == WaitLf && m.ctx.checksumPresent, m.ctx.received,
                        m.ctx.state == WaitLf && m.ctx.checksumPresent);
    assert Step(m, LF).events == m.events + [e];
    var s' := s + [LF];
    var tail :| s[p + 1..] == m.ctx.buf + tail && if m.ctx.state == WaitLf then LineTail(m.ctx, tail) else tail == [];
    Slices(s, p, m.ctx.buf, tail);
    assert FramedAt(s', e, p, |s|);
  }

  lemma Slices(s: seq<bv8>, p: nat, body: seq<bv8>, tail: seq<bv8>)
    requires p < |s| && s[p + 1..] == body + tail
    ensures (s + [LF])[p + 1..p + 1 + |body|] == body
    ensures (s + [LF])[p + 1 + |body|..|s|] == tail
  {
    assert (s + [LF])[p + 1..|s|] == s[p + 1..];
  }

  lemma OnlyCompletionDecodes(m: Machine, c: bv8)
    requires Step(m, c).decoded == m.decoded + 1
    ensures c == LF && InProgress(m)
  {
  }

  /** Over every byte stream, every dispatched sentence is framed in the stream with a matching checksum. */
  lemma {:induction false} DispatchesAreFramed(s: seq<bv8>)
    ensures forall e :: e in Run(INITIAL, s).events && e.Dispatched? ==> Framed(s, e)
  {
    if s != [] {
      var front, c := s[..|s| - 1], s[|s| - 1];
      hide Step, Accumulated, Framed;
      var m, m' := Run(INITIAL, front), Run(INITIAL, s);
      DispatchesAreFramed(front);
      assert s == front + [c];
      forall e | e in m.events && e.Dispatched?
        ensures Framed(s, e)
      {
        FramedExtend(front, [c], e);
      }
      StepReports(m, c);
      if m'.decoded == m.decoded + 1 {
        var p := OpenSentence(front);
        OnlyCompletionDecodes(m, c);
        CompletionIsFramed(front, m, p);
      }
    }
  }
}
