/** Which sentences a byte stream contains, without reference to the state machine, and that exactly those are
    dispatched. */
module NmeaFraming {
  import opened Options
  import opened NmeaProtocol

  /** A sentence opened at `q` would take the byte at `p` for one of its checksum digits. */
  ghost predicate TakesAsDigit(s: seq<bv8>, q: nat, p: nat) {
    exists n: nat :: n <= NMEA_BUFFER_LEN && DigitAfter(s, q, n, p)
  }

  predicate DigitAfter(s: seq<bv8>, q: nat, n: nat, p: nat) {
    && (p == q + n + 2 || p == q + n + 3) && p <= |s|
    && s[q] == DOLLAR && Clean(s[q + 1..q + 1 + n]) && s[q + 1 + n] == STAR
  }

  /** The '$' at `p` opens a sentence: it is not a checksum digit of one opened earlier. */
  ghost predicate Opening(s: seq<bv8>, p: nat)
    decreases p
  {
    p < |s| && s[p] == DOLLAR && !exists q: nat :: q < p && Opening(s, q) && TakesAsDigit(s, q, p)
  }

  /** The line feed that ends the stream completes sentence `e`, opened at `p`. */
  ghost predicate Completes(s: seq<bv8>, e: Event, p: nat) {
    s != [] && Opening(s[..|s| - 1], p) && FramedAt(s, e, p, |s| - 1)
  }

  /** The sentences of a stream, one for each line feed that completes one. */
  ghost function ExpectedSentences(s: seq<bv8>): seq<Event> {
    if s == [] then []
    else
      var before := ExpectedSentences(s[..|s| - 1]);
      if exists e, p: nat :: Completes(s, e, p) then
        var e, p: nat :| Completes(s, e, p);
        before + [e]
      else before
  }

  function DispatchedOf(events: seq<Event>): seq<Event> {
    if events == [] then []
    else
      var before, e := DispatchedOf(events[..|events| - 1]), events[|events| - 1];
      if e.Dispatched? then before + [e] else before
  }

  // ----- which '$' opens a sentence -----

  /** The machine after the body and the '*' of a sentence opened at `q`. */
  lemma AtStar(s: seq<bv8>, q: nat, n: nat)
    requires n <= NMEA_BUFFER_LEN && DigitAfter(s, q, n, q + n + 2) && !ReadingChecksum(Run(INITIAL, s[..q]))
    ensures Run(INITIAL, s[..q + n + 2]).ctx.state == WaitChecksumHi
  {
    var m, body := Run(INITIAL, s[..q]), s[q + 1..q + 1 + n];
    PrefixAtStar(s, q, n);
    StarEndsBody(m, body);
    hide *;
    RunAppend(INITIAL, s[..q], [DOLLAR] + body + [STAR]);
  }

  lemma PrefixAtStar(s: seq<bv8>, q: nat, n: nat)
    requires DigitAfter(s, q, n, q + n + 2)
    ensures s[..q + n + 2] == s[..q] + ([DOLLAR] + s[q + 1..q + 1 + n] + [STAR])
  {
    hide Clean;
  }

  lemma StarEndsBody(m: Machine, body: seq<bv8>)
    requires !ReadingChecksum(m) && Clean(body) && |body| <= NMEA_BUFFER_LEN
    ensures Run(m, [DOLLAR] + body + [STAR]).ctx.state == WaitChecksumHi
  {
    hide Run, Clean, Xor;
    RunOpening(m, body);
    RunAppend(m, [DOLLAR] + body, [STAR]);
    RunOne(Run(m, [DOLLAR] + body), STAR);
  }

  /** One byte further, both digits are still to be read or one is. */
  lemma AfterStar(s: seq<bv8>, q: nat, n: nat, p: nat)
    requires n <= NMEA_BUFFER_LEN && DigitAfter(s, q, n, p) && !ReadingChecksum(Run(INITIAL, s[..q]))
    ensures ReadingChecksum(Run(INITIAL, s[..p]))
  {
    hide Run, Clean;
    AtStar(s, q, n);
    if p == q + n + 3 {
      var m, c := Run(INITIAL, s[..q + n + 2]), s[q + n + 2];
      assert s[..p] == s[..q + n + 2] + [c];
      RunAppend(INITIAL, s[..q + n + 2], [c]);
      RunOne(m, c);
    }
  }

  lemma ReadingMeansDigit(s: seq<bv8>, p: nat, q: nat)
    requires p <= |s| && Accumulated(s[..p], Run(INITIAL, s[..p]).ctx, q) && ReadingChecksum(Run(INITIAL, s[..p]))
    ensures q < p && TakesAsDigit(s, q, p)
  {
    var ctx := Run(INITIAL, s[..p]).ctx;
    var n := |ctx.buf|;
    assert s[..p][q + 1..] == s[q + 1..p];
    assert s[q + 1..q + 1 + n] == s[q + 1..p][..n] == ctx.buf;
    assert s[q + 1 + n] == s[q + 1..p][n];
    assert DigitAfter(s, q, n, p);
  }

  /** The machine is reading checksum digits exactly where the stream says so. */
  lemma {:induction false} ReadingIff(s: seq<bv8>, p: nat)
    requires p <= |s|
    ensures ReadingChecksum(Run(INITIAL, s[..p])) <==> exists q: nat :: q < p && Opening(s, q) && TakesAsDigit(s, q, p)
    decreases p, 0
  {
    hide Run, Step, Accumulated, Opening, TakesAsDigit;
    if ReadingChecksum(Run(INITIAL, s[..p])) {
      var q := OpenSentence(s[..p]);
      ReadingMeansDigit(s, p, q);
      assert s[..p][..q] == s[..q];
      OpeningIff(s, q);
    }
    forall q: nat | q < p && Opening(s, q) && TakesAsDigit(s, q, p)
      ensures ReadingChecksum(Run(INITIAL, s[..p]))
    {
      OpeningIff(s, q);
      DigitsAreRead(s, q, p);
    }
  }

  lemma DigitsAreRead(s: seq<bv8>, q: nat, p: nat)
    requires TakesAsDigit(s, q, p) && q <= |s| && !ReadingChecksum(Run(INITIAL, s[..q]))
    ensures p <= |s| && ReadingChecksum(Run(INITIAL, s[..p]))
  {
    var n: nat :| n <= NMEA_BUFFER_LEN && DigitAfter(s, q, n, p);
    AfterStar(s, q, n, p);
  }

  lemma {:induction false} OpeningIff(s: seq<bv8>, p: nat)
    requires p < |s|
    ensures Opening(s, p) <==> s[p] == DOLLAR && !ReadingChecksum(Run(INITIAL, s[..p]))
    decreases p, 1
  {
    hide Run, Step, TakesAsDigit;
    ReadingIff(s, p);
  }

  // ----- what a line feed completes -----

  /** Just before the line feed that completes a sentence, nothing has been reported since it was opened. */
  lemma QuietBeforeLineFeed(m: Machine, body: seq<bv8>, tail: seq<bv8>)
    requires !ReadingChecksum(m) && Clean(body) && |body| <= NMEA_BUFFER_LEN
    requires tail == [] || (tail[0] == CR && Filler(tail[1..]))
          || (|tail| >= 3 && tail[0] == STAR && ParseHexByte(tail[1], tail[2]).Some? && Filler(tail[3..]))
    ensures Run(m, [DOLLAR] + body + tail).events == Started(m).events
  {
    hide Run, Step, Clean, Filler, Xor, ParseHexByte, ReadingChecksum;
    var begun := Run(m, [DOLLAR] + body);
    RunOpening(m, body);
    if tail == [] {
      assert [DOLLAR] + body + tail == [DOLLAR] + body;
    } else if tail[0] == CR && Filler(tail[1..]) {
      RunAppend(m, [DOLLAR] + body, tail);
      RunLineTail(begun, tail);
    } else {
      QuietAfterDigits(m, body, tail[1], tail[2], tail[3..]);
      DigitsFirst([DOLLAR] + body, tail);
    }
  }

  lemma DigitsFirst(begun: seq<bv8>, tail: seq<bv8>)
    requires |tail| >= 3
    ensures begun + tail == begun + [tail[0], tail[1], tail[2]] + tail[3..]
  {
  }

  lemma QuietAfterDigits(m: Machine, body: seq<bv8>, hi: bv8, lo: bv8, t: seq<bv8>)
    requires !ReadingChecksum(m) && Clean(body) && |body| <= NMEA_BUFFER_LEN
    requires ParseHexByte(hi, lo).Some? && Filler(t)
    ensures Run(m, [DOLLAR] + body + [STAR, hi, lo] + t).events == Started(m).events
  {
    hide Run, Step, Clean, Filler, Xor, ParseHexByte, ReadingChecksum;
    var digits := RunDigits(m, body, hi, lo);
    RunAppend(m, [DOLLAR] + body + [STAR, hi, lo], t);
    RunFiller(digits, t);
  }

  lemma FrameParts(s: seq<bv8>, e: Event, p: nat)
    requires s != [] && FramedAt(s, e, p, |s| - 1)
    ensures var tail := s[p + 1 + |e.body|..|s| - 1];
            && s[..|s| - 1] == s[..p] + ([DOLLAR] + e.body + tail)
            && s == s[..p] + ([DOLLAR] + e.body + tail + [LF])
  {
    assert s[p + 1..|s| - 1] == s[p + 1..p + 1 + |e.body|] + s[p + 1 + |e.body|..|s| - 1];
  }

  /** A line feed that completes a sentence of the stream dispatches just that sentence. */
  lemma CompletedIsDispatched(s: seq<bv8>, e: Event, p: nat)
    requires Completes(s, e, p)
    ensures Run(INITIAL, s).events == Run(INITIAL, s[..|s| - 1]).events + [e]
  {
    var m, tail := Run(INITIAL, s[..p]), s[p + 1 + |e.body|..|s| - 1];
    OpeningIff(s[..|s| - 1], p);
    assert s[..|s| - 1][..p] == s[..p];
    FrameParts(s, e, p);
    RunAppend(INITIAL, s[..p], [DOLLAR] + e.body + tail);
    RunAppend(INITIAL, s[..p], [DOLLAR] + e.body + tail + [LF]);
    QuietBeforeLineFeed(m, e.body, tail);
    FrameDispatches(m, e, tail);
  }

  /** The whole frame, from any machine that takes its '$' as an opening. */
  lemma FrameDispatches(m: Machine, e: Event, tail: seq<bv8>)
    requires !ReadingChecksum(m) && e.Dispatched? && Clean(e.body) && |e.body| <= NMEA_BUFFER_LEN
    requires
      if e.checksumPresent then
        && |tail| >= 3 && tail[0] == STAR && Filler(tail[3..])
        && ParseHexByte(tail[1], tail[2]) == Some(e.checksum) && e.checksum == Xor(e.body) && e.checksumValid
      else
        (tail == [] || (tail[0] == CR && Filler(tail[1..]))) && !e.checksumValid && e.checksum == 0
    ensures Run(m, [DOLLAR] + e.body + tail + [LF]).events == Started(m).events + [e]
  {
    hide Run, Step;
    if e.checksumPresent {
      DigitsFirst([DOLLAR] + e.body, tail);
      ChecksummedSentence(m, e.body, tail[1], tail[2], tail[3..]);
    } else {
      BareSentence(m, e.body, tail);
    }
  }

  /** A dispatch happens at a line feed that completes a sentence of the stream. */
  lemma DispatchCompletes(s: seq<bv8>) returns (e: Event, p: nat)
    requires s != [] && Run(INITIAL, s).decoded == Run(INITIAL, s[..|s| - 1]).decoded + 1
    ensures Completes(s, e, p)
  {
    var front, c := s[..|s| - 1], s[|s| - 1];
    var m := Run(INITIAL, front);
    assert Run(INITIAL, s) == Step(m, c);
    hide Step, Accumulated, FramedAt;
    OnlyCompletionDecodes(m, c);
    p := OpenSentence(front);
    CompletionIsFramed(front, m, p);
    assert s == front + [LF];
    e :| Step(m, LF).events == m.events + [e] && FramedAt(front + [LF], e, p, |front|);
    OpeningIff(front, p);
  }

  /** Over every byte stream the parser dispatches exactly the sentences of the stream, in order: none is missed, none
      invented, none reported twice. */
  lemma {:induction false} DispatchesAreTheSentences(s: seq<bv8>)
    ensures DispatchedOf(Run(INITIAL, s).events) == ExpectedSentences(s)
  {
    if s != [] {
      var front, c := s[..|s| - 1], s[|s| - 1];
      DispatchesAreTheSentences(front);
      var m, m' := Run(INITIAL, front), Run(INITIAL, s);
      assert m' == Step(m, c);
      hide Run, Step, Completes;
      StepReports(m, c);
      if exists e, p: nat :: Completes(s, e, p) {
        var e, p: nat :| Completes(s, e, p) && ExpectedSentences(s) == ExpectedSentences(front) + [e];
        CompletedIsDispatched(s, e, p);
        CompletedIsSentence(s, e, p);
        assert m'.events[..|m'.events| - 1] == m.events;
      } else if m'.decoded == m.decoded + 1 {
        var e, p := DispatchCompletes(s);
        assert false;
      } else if m'.events != m.events {
        assert m'.events[..|m'.events| - 1] == m.events;
      }
    }
  }

  lemma CompletedIsSentence(s: seq<bv8>, e: Event, p: nat)
    requires Completes(s, e, p)
    ensures e.Dispatched?
  {
  }

  // ----- what is reported about the sentences that fail -----

  /** The stream ends inside a sentence whose '$' is at `p` and whose body has `n` bytes. */
  ghost predicate UnfinishedAt(s: seq<bv8>, p: nat, n: nat) {
    && p + 1 + n <= |s| && n <= NMEA_BUFFER_LEN && Clean(s[p + 1..p + 1 + n])
    && var tail := s[p + 1 + n..];
       || tail == []
       || (tail[0] == CR && Filler(tail[1..]))
       || (tail[0] == STAR && |tail| >= 3 && ParseHexByte(tail[1], tail[2]).Some? && Filler(tail[3..]))
  }

  ghost predicate Unfinished(s: seq<bv8>, p: nat) {
    exists n: nat :: UnfinishedAt(s, p, n)
  }

  /** The '$' that ends the stream cuts the sentence opened at `p` short. */
  ghost predicate CutShort(s: seq<bv8>, p: nat) {
    && s != [] && Opening(s, |s| - 1) && Opening(s[..|s| - 1], p)
    && Unfinished(s[..|s| - 1], p)
  }

  /** The last byte is one more than the body opened at `p` may have. */
  ghost predicate Overflows(s: seq<bv8>, p: nat) {
    && s != [] && Opening(s[..|s| - 1], p)
    && |s| == p + NMEA_BUFFER_LEN + 2 && Clean(s[p + 1..])
  }

  /** The last byte completes two characters that are not hexadecimal. */
  predicate NotHexAt(s: seq<bv8>, p: nat, n: nat) {
    && |s| == p + n + 4 && n <= NMEA_BUFFER_LEN && Clean(s[p + 1..p + 1 + n]) && s[p + 1 + n] == STAR
    && ParseHexByte(s[p + 2 + n], s[p + 3 + n]).None?
  }

  /** The last byte is the line feed of a sentence whose digits spell something else than the sum of its body. */
  predicate WrongSumAt(s: seq<bv8>, p: nat, n: nat) {
    && p + n + 5 <= |s| && n <= NMEA_BUFFER_LEN && Clean(s[p + 1..p + 1 + n]) && s[|s| - 1] == LF
    && var tail := s[p + 1 + n..|s| - 1];
       && tail[0] == STAR && Filler(tail[3..])
       && ParseHexByte(tail[1], tail[2]).Some?
       && ParseHexByte(tail[1], tail[2]) != Some(Xor(s[p + 1..p + 1 + n]))
  }

  ghost predicate Mismatches(s: seq<bv8>, p: nat) {
    && s != [] && Opening(s[..|s| - 1], p)
    && exists n: nat :: NotHexAt(s, p, n) || WrongSumAt(s, p, n)
  }

  /** The last byte ends the sentence opened at `p` for the reason `code`. */
  ghost predicate Fails(s: seq<bv8>, code: ErrorCode, p: nat) {
    match code
    case UnexpectedStart => CutShort(s, p)
    case SentenceTooLong => Overflows(s, p)
    case ChecksumMismatch => Mismatches(s, p)
  }

  /** Everything that is to be reported about a stream, in order. */
  ghost function ExpectedEvents(s: seq<bv8>): seq<Event> {
    if s == [] then []
    else
      var before := ExpectedEvents(s[..|s| - 1]);
      if exists e, p: nat :: Completes(s, e, p) then
        var e, p: nat :| Completes(s, e, p);
        before + [e]
      else if exists code, p: nat :: Fails(s, code, p) then
        var code, p: nat :| Fails(s, code, p);
        before + [Discarded(code)]
      else before
  }

  // ----- from the stream to the machine -----

  lemma PrefixFrom(s: seq<bv8>, p: nat, n: nat)
    requires p + 1 + n <= |s| && s[p] == DOLLAR
    ensures s == s[..p] + ([DOLLAR] + s[p + 1..p + 1 + n] + s[p + 1 + n..])
  {
  }

  /** The machine at a point of the stream, as a run over the sentence from the machine before its '$'. */
  lemma RunFromOpening(s: seq<bv8>, p: nat, n: nat)
    requires p + 1 + n <= |s| && s[p] == DOLLAR
    ensures Run(INITIAL, s) == Run(Run(INITIAL, s[..p]), [DOLLAR] + s[p + 1..p + 1 + n] + s[p + 1 + n..])
  {
    PrefixFrom(s, p, n);
    RunAppend(INITIAL, s[..p], [DOLLAR] + s[p + 1..p + 1 + n] + s[p + 1 + n..]);
  }

  lemma StillInProgress(m: Machine, body: seq<bv8>, tail: seq<bv8>)
    requires !ReadingChecksum(m) && Clean(body) && |body| <= NMEA_BUFFER_LEN
    requires
      || tail == []
      || (tail[0] == CR && Filler(tail[1..]))
      || (tail[0] == STAR && |tail| >= 3 && ParseHexByte(tail[1], tail[2]).Some? && Filler(tail[3..]))
    ensures InProgress(Run(m, [DOLLAR] + body + tail))
  {
    hide Run, Step, Clean, Filler, Xor, ParseHexByte, ReadingChecksum;
    RunOpening(m, body);
    var begun := Run(m, [DOLLAR] + body);
    if tail == [] {
      assert [DOLLAR] + body + tail == [DOLLAR] + body;
    } else if tail[0] == CR && Filler(tail[1..]) {
      RunAppend(m, [DOLLAR] + body, tail);
      RunLineTail(begun, tail);
    } else {
      var digits := RunDigits(m, body, tail[1], tail[2]);
      DigitsFirst([DOLLAR] + body, tail);
      RunAppend(m, [DOLLAR] + body + [STAR, tail[1], tail[2]], tail[3..]);
      RunFiller(digits, tail[3..]);
    }
  }

  lemma CutShortIsReported(s: seq<bv8>, p: nat)
    requires CutShort(s, p)
    ensures Run(INITIAL, s).events == Run(INITIAL, s[..|s| - 1]).events + [Discarded(UnexpectedStart)]
  {
    hide Run, Opening, Unfinished;
    UnfinishedIsInProgress(s[..|s| - 1], p);
    OpeningIff(s, |s| - 1);
    LastByte(s);
    DollarInProgress(Run(INITIAL, s[..|s| - 1]));
  }

  lemma UnfinishedIsInProgress(s: seq<bv8>, p: nat)
    requires Opening(s, p) && Unfinished(s, p)
    ensures InProgress(Run(INITIAL, s))
  {
    OpeningIff(s, p);
    var n: nat :| UnfinishedAt(s, p, n);
    hide Run, Clean, Filler, ParseHexByte, Opening, ReadingChecksum;
    RunFromOpening(s, p, n);
    StillInProgress(Run(INITIAL, s[..p]), s[p + 1..p + 1 + n], s[p + 1 + n..]);
  }

  lemma LastByte(s: seq<bv8>)
    requires s != []
    ensures Run(INITIAL, s) == Step(Run(INITIAL, s[..|s| - 1]), s[|s| - 1])
  {
  }

  lemma DollarInProgress(m: Machine)
    requires InProgress(m) && !ReadingChecksum(m)
    ensures Step(m, DOLLAR).events == m.events + [Discarded(UnexpectedStart)]
  {
  }

  lemma OverflowIsReported(s: seq<bv8>, p: nat)
    requires Overflows(s, p)
    ensures Run(INITIAL, s).events == Run(INITIAL, s[..|s| - 1]).events + [Discarded(SentenceTooLong)]
  {
    var front, c := s[..|s| - 1], s[|s| - 1];
    OpeningIff(front, p);
    FullBody(s, p);
    hide Run, Opening, Clean, ReadingChecksum;
    AtFullBuffer(front, p);
    LastByte(s);
    ByteTooMany(Run(INITIAL, front), c);
  }

  lemma AtFullBuffer(s: seq<bv8>, p: nat)
    requires p < |s| && s[p] == DOLLAR && !ReadingChecksum(Run(INITIAL, s[..p]))
    requires Clean(s[p + 1..]) && |s[p + 1..]| == NMEA_BUFFER_LEN
    ensures Run(INITIAL, s).ctx.state == AccumulateSentence && |Run(INITIAL, s).ctx.buf| == NMEA_BUFFER_LEN
  {
    hide *;
    assert s == s[..p] + ([DOLLAR] + s[p + 1..]);
    RunAppend(INITIAL, s[..p], [DOLLAR] + s[p + 1..]);
    BufferFull(Run(INITIAL, s[..p]), s[p + 1..]);
  }

  lemma BufferFull(m: Machine, body: seq<bv8>)
    requires !ReadingChecksum(m) && Clean(body) && |body| == NMEA_BUFFER_LEN
    ensures var r := Run(m, [DOLLAR] + body); r.ctx.state == AccumulateSentence && |r.ctx.buf| == NMEA_BUFFER_LEN
  {
    hide Run;
    RunOpening(m, body);
  }

  lemma FullBody(s: seq<bv8>, p: nat)
    requires |s| == p + NMEA_BUFFER_LEN + 2 && Clean(s[p + 1..])
    ensures var front, c := s[..|s| - 1], s[|s| - 1];
            && Clean(front[p + 1..]) && |front[p + 1..]| == NMEA_BUFFER_LEN
            && c != DOLLAR && c != STAR && c != CR && c != LF
  {
    var body := s[p + 1..];
    assert s[..|s| - 1][p + 1..] == body[..NMEA_BUFFER_LEN];
    assert s[|s| - 1] == body[NMEA_BUFFER_LEN];
  }

  lemma ByteTooMany(m: Machine, c: bv8)
    requires m.ctx.state == AccumulateSentence && |m.ctx.buf| == NMEA_BUFFER_LEN
    requires c != DOLLAR && c != STAR && c != CR && c != LF
    ensures Step(m, c).events == m.events + [Discarded(SentenceTooLong)]
  {
  }

  lemma NotHexIsReported(s: seq<bv8>, p: nat, n: nat)
    requires s != [] && Opening(s[..|s| - 1], p) && NotHexAt(s, p, n)
    ensures Run(INITIAL, s).events == Run(INITIAL, s[..|s| - 1]).events + [Discarded(ChecksumMismatch)]
  {
    var front, body := s[..|s| - 1], s[p + 1..p + 1 + n];
    var m := Run(INITIAL, s[..p]);
    OpeningIff(front, p);
    assert front[..p] == s[..p] && front[p + 1..p + 1 + n] == body && front[p + 1 + n..] == [STAR, s[p + 2 + n]];
    assert s[p + 1 + n..] == [STAR, s[p + 2 + n], s[p + 3 + n]];
    RunFromOpening(front, p, n);
    RunFromOpening(s, p, n);
    hide Run, Step, Clean, Xor, ReadingChecksum;
    var r := RunDigits(m, body, s[p + 2 + n], s[p + 3 + n]);
    OneDigitIsQuiet(m, body, s[p + 2 + n]);
  }

  lemma OneDigitIsQuiet(m: Machine, body: seq<bv8>, hi: bv8)
    requires !ReadingChecksum(m) && Clean(body) && |body| <= NMEA_BUFFER_LEN
    ensures Run(m, [DOLLAR] + body + [STAR, hi]).events == Started(m).events
  {
    RunOpening(m, body);
    var begun := Run(m, [DOLLAR] + body);
    RunAppend(m, [DOLLAR] + body, [STAR, hi]);
    assert [STAR, hi] == [STAR] + [hi];
    RunAppend(begun, [STAR], [hi]);
    RunOne(begun, STAR);
    RunOne(Step(begun, STAR), hi);
    hide Run;
  }

  lemma WrongSumIsReported(s: seq<bv8>, p: nat, n: nat)
    requires s != [] && Opening(s[..|s| - 1], p) && WrongSumAt(s, p, n)
    ensures Run(INITIAL, s).events == Run(INITIAL, s[..|s| - 1]).events + [Discarded(ChecksumMismatch)]
  {
    var front, body, tail := s[..|s| - 1], s[p + 1..p + 1 + n], s[p + 1 + n..|s| - 1];
    var m := Run(INITIAL, s[..p]);
    OpeningIff(front, p);
    assert front[..p] == s[..p] && front[p + 1..p + 1 + n] == body && front[p + 1 + n..] == tail;
    assert s[p + 1 + n..] == tail + [LF];
    RunFromOpening(front, p, n);
    RunFromOpening(s, p, n);
    hide Run, Step, Clean, Xor, Filler, ParseHexByte, ReadingChecksum;
    DigitsFirst([DOLLAR] + body, tail);
    assert [DOLLAR] + body + (tail + [LF]) == [DOLLAR] + body + [STAR, tail[1], tail[2]] + tail[3..] + [LF];
    ChecksummedSentence(m, body, tail[1], tail[2], tail[3..]);
    QuietAfterDigits(m, body, tail[1], tail[2], tail[3..]);
  }

  /** A byte that ends a sentence for a reason reports that reason. */
  lemma FailureIsReported(s: seq<bv8>, code: ErrorCode, p: nat)
    requires s != [] && Fails(s, code, p)
    ensures Run(INITIAL, s).events == Run(INITIAL, s[..|s| - 1]).events + [Discarded(code)]
  {
    hide Run, Opening, UnfinishedAt, NotHexAt, WrongSumAt, Overflows, CutShort;
    match code {
      case UnexpectedStart => CutShortIsReported(s, p);
      case SentenceTooLong => OverflowIsReported(s, p);
      case ChecksumMismatch =>
        var n: nat :| NotHexAt(s, p, n) || WrongSumAt(s, p, n);
        if NotHexAt(s, p, n) {
          NotHexIsReported(s, p, n);
        } else {
          WrongSumIsReported(s, p, n);
        }
    }
  }

  // ----- from the machine to the stream -----

  lemma DiscardFails(s: seq<bv8>, code: ErrorCode) returns (p: nat)
    requires s != [] && Run(INITIAL, s).events == Run(INITIAL, s[..|s| - 1]).events + [Discarded(code)]
    ensures Fails(s, code, p)
  {
    var front, c := s[..|s| - 1], s[|s| - 1];
    var m := Run(INITIAL, front);
    LastByte(s);
    hide *;
    QuietWhenWaiting(m, c, code);
    p := OpenSentence(front);
    OpeningIff(front, p);
    match m.ctx.state {
      case WaitDollar => NotWaiting(m);
      case AccumulateSentence => BodyDiscards(s, m, p, code);
      case WaitChecksumHi => HiIsQuiet(m, c, code);
      case WaitChecksumLo => DigitDiscards(s, m, p, code);
      case WaitLf => LineDiscards(s, m, p, code);
    }
  }

  lemma NotWaiting(m: Machine)
    requires InProgress(m)
    ensures m.ctx.state != WaitDollar
  {
  }

  lemma QuietWhenWaiting(m: Machine, c: bv8, code: ErrorCode)
    requires Step(m, c).events == m.events + [Discarded(code)]
    ensures InProgress(m)
  {
  }

  lemma HiIsQuiet(m: Machine, c: bv8, code: ErrorCode)
    requires m.ctx.state == WaitChecksumHi
    ensures Step(m, c).events != m.events + [Discarded(code)]
  {
  }

  lemma LastDollarOpens(s: seq<bv8>, m: Machine)
    requires s != [] && s[|s| - 1] == DOLLAR && m == Run(INITIAL, s[..|s| - 1]) && !ReadingChecksum(m)
    ensures Opening(s, |s| - 1)
  {
    OpeningIff(s, |s| - 1);
  }

  lemma BodyDiscards(s: seq<bv8>, m: Machine, p: nat, code: ErrorCode)
    requires s != [] && m == Run(INITIAL, s[..|s| - 1]) && m.ctx.state == AccumulateSentence
    requires Accumulated(s[..|s| - 1], m.ctx, p) && Opening(s[..|s| - 1], p)
    requires Step(m, s[|s| - 1]).events == m.events + [Discarded(code)]
    ensures Fails(s, code, p)
  {
    CodeOfBodyByte(m, s[|s| - 1], code);
    if s[|s| - 1] == DOLLAR {
      LastDollarOpens(s, m);
      hide Run, Step, Opening;
      OpenBody(s[..|s| - 1], m.ctx, p);
    } else {
      hide Run, Step, Opening;
      TooLongBody(s, m.ctx, p);
    }
  }

  lemma OpenBody(s: seq<bv8>, ctx: Context, p: nat)
    requires Accumulated(s, ctx, p) && ctx.state == AccumulateSentence
    ensures Unfinished(s, p)
  {
    AfterBody(s, p, ctx.buf, []);
    assert UnfinishedAt(s, p, |ctx.buf|);
  }

  lemma TooLongBody(s: seq<bv8>, ctx: Context, p: nat)
    requires s != [] && Accumulated(s[..|s| - 1], ctx, p) && ctx.state == AccumulateSentence
    requires |ctx.buf| >= NMEA_BUFFER_LEN
    requires var c := s[|s| - 1]; c != DOLLAR && c != STAR && c != CR && c != LF
    ensures |s| == p + NMEA_BUFFER_LEN + 2 && Clean(s[p + 1..])
  {
    assert s[p + 1..] == ctx.buf + [s[|s| - 1]];
    CleanExtend(ctx.buf, s[|s| - 1]);
  }

  lemma CodeOfBodyByte(m: Machine, c: bv8, code: ErrorCode)
    requires m.ctx.state == AccumulateSentence && Step(m, c).events == m.events + [Discarded(code)]
    ensures if c == DOLLAR then code == UnexpectedStart
            else code == SentenceTooLong && c != STAR && c != CR && c != LF && |m.ctx.buf| >= NMEA_BUFFER_LEN
  {
    assert Step(m, c).events[|m.events|] == Discarded(code);
  }

  lemma DigitDiscards(s: seq<bv8>, m: Machine, p: nat, code: ErrorCode)
    requires s != [] && m == Run(INITIAL, s[..|s| - 1]) && m.ctx.state == WaitChecksumLo
    requires Accumulated(s[..|s| - 1], m.ctx, p) && Opening(s[..|s| - 1], p)
    requires Step(m, s[|s| - 1]).events == m.events + [Discarded(code)]
    ensures Fails(s, code, p)
  {
    var front, c, n := s[..|s| - 1], s[|s| - 1], |m.ctx.buf|;
    CodeOfDigit(m, c, code);
    var rest := front[p + 1..];
    assert rest == m.ctx.buf + [STAR, m.ctx.csHi];
    assert |front| == p + 1 + n + 2;
    assert s[p + 1..p + 1 + n] == front[p + 1..p + 1 + n] == rest[..n] == m.ctx.buf;
    assert s[p + 1 + n] == rest[n] == STAR && s[p + 2 + n] == rest[n + 1] == m.ctx.csHi;
    assert NotHexAt(s, p, n);
  }

  lemma CodeOfDigit(m: Machine, c: bv8, code: ErrorCode)
    requires m.ctx.state == WaitChecksumLo && Step(m, c).events == m.events + [Discarded(code)]
    ensures code == ChecksumMismatch && ParseHexByte(m.ctx.csHi, c).None?
  {
    assert Step(m, c).events[|m.events|] == Discarded(code);
  }

  lemma LineDiscards(s: seq<bv8>, m: Machine, p: nat, code: ErrorCode)
    requires s != [] && m == Run(INITIAL, s[..|s| - 1]) && m.ctx.state == WaitLf
    requires Accumulated(s[..|s| - 1], m.ctx, p) && Opening(s[..|s| - 1], p)
    requires Step(m, s[|s| - 1]).events == m.events + [Discarded(code)]
    ensures Fails(s, code, p)
  {
    CodeOfLineByte(m, s[|s| - 1], code);
    if s[|s| - 1] == DOLLAR {
      LastDollarOpens(s, m);
      hide Run, Step, Opening;
      OpenLine(s[..|s| - 1], m.ctx, p);
    } else {
      hide Run, Step, Opening;
      WrongSumLine(s, m.ctx, p);
    }
  }

  lemma OpenLine(s: seq<bv8>, ctx: Context, p: nat)
    requires Accumulated(s, ctx, p) && ctx.state == WaitLf
    ensures Unfinished(s, p)
  {
    hide Clean, Filler, ParseHexByte;
    var tail :| s[p + 1..] == ctx.buf + tail && LineTail(ctx, tail);
    AfterBody(s, p, ctx.buf, tail);
    assert UnfinishedAt(s, p, |ctx.buf|);
  }

  lemma WrongSumLine(s: seq<bv8>, ctx: Context, p: nat)
    requires s != [] && s[|s| - 1] == LF && Accumulated(s[..|s| - 1], ctx, p) && ctx.state == WaitLf
    requires ctx.checksumPresent && ctx.running != ctx.received
    ensures WrongSumAt(s, p, |ctx.buf|)
  {
    hide Clean, Filler, ParseHexByte, Xor;
    var tail :| s[..|s| - 1][p + 1..] == ctx.buf + tail && LineTail(ctx, tail);
    AfterBody(s[..|s| - 1], p, ctx.buf, tail);
    AfterBodyMore(s, p, |ctx.buf|);
  }

  lemma AfterBody(s: seq<bv8>, p: nat, body: seq<bv8>, tail: seq<bv8>)
    requires p < |s| && s[p + 1..] == body + tail
    ensures |s| == p + 1 + |body| + |tail|
    ensures s[p + 1..p + 1 + |body|] == body && s[p + 1 + |body|..] == tail
  {
    var rest := s[p + 1..];
    assert s[p + 1..p + 1 + |body|] == rest[..|body|] && s[p + 1 + |body|..] == rest[|body|..];
  }

  lemma AfterBodyMore(s: seq<bv8>, p: nat, n: nat)
    requires p + 1 + n < |s|
    ensures s[p + 1..p + 1 + n] == s[..|s| - 1][p + 1..p + 1 + n]
    ensures s[p + 1 + n..|s| - 1] == s[..|s| - 1][p + 1 + n..]
  {
  }

  lemma CodeOfLineByte(m: Machine, c: bv8, code: ErrorCode)
    requires m.ctx.state == WaitLf && Step(m, c).events == m.events + [Discarded(code)]
    ensures if c == DOLLAR then code == UnexpectedStart
            else code == ChecksumMismatch && c == LF && m.ctx.checksumPresent && m.ctx.running != m.ctx.received
  {
    assert Step(m, c).events[|m.events|] == Discarded(code);
  }

  /** Over every byte stream the parser reports exactly what is to be reported about it, in order: every sentence, and
      for every sentence that fails the reason why. */
  lemma {:induction false} EventsAreExpected(s: seq<bv8>)
    ensures Run(INITIAL, s).events == ExpectedEvents(s)
  {
    if s != [] {
      var front, c := s[..|s| - 1], s[|s| - 1];
      EventsAreExpected(front);
      var m, m' := Run(INITIAL, front), Run(INITIAL, s);
      LastByte(s);
      hide Run, Step, Completes, Fails;
      StepReports(m, c);
      if exists e, p: nat :: Completes(s, e, p) {
        var e, p: nat :| Completes(s, e, p) && ExpectedEvents(s) == ExpectedEvents(front) + [e];
        CompletedIsDispatched(s, e, p);
      } else if exists code, p: nat :: Fails(s, code, p) {
        var code, p: nat :| Fails(s, code, p) && ExpectedEvents(s) == ExpectedEvents(front) + [Discarded(code)];
        FailureIsReported(s, code, p);
      } else if m'.events != m.events {
        var e :| m'.events == m.events + [e] && m'.decoded == m.decoded + if e.Dispatched? then 1 else 0;
        if e.Dispatched? {
          var e', p := DispatchCompletes(s);
        } else {
          var p := DiscardFails(s, e.code);
        }
        assert false;
      }
    }
  }
}
