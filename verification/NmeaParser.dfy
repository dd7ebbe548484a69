/** The parser object: a fixed buffer and a handful of fields updated one byte at a time. */
module NmeaParsing {
  import opened Options
  import opened NmeaProtocol

  class NmeaParser {
    const buf: array<bv8>
    var bufLen: nat
    var state: ParseState
    var running: bv8
    var csHi: bv8
    var received: bv8
    var checksumPresent: bool
    var decoded: nat
    var discarded: nat
    var reported: seq<Event>   // the calls made to the dispatcher, in order

    ghost predicate Valid()
      reads this
    {
      buf.Length == NMEA_BUFFER_LEN + 1 && bufLen <= NMEA_BUFFER_LEN
    }

    ghost function Abs(): Machine
      reads this, buf
      requires Valid()
    {
      Machine(Context(state, buf[..bufLen], running, csHi, received, checksumPresent), decoded, discarded, reported)
    }

    constructor ()
      ensures Valid() && fresh(buf)
      ensures Abs() == INITIAL
    {
      buf := new bv8[NMEA_BUFFER_LEN + 1];
      bufLen, state, running, csHi, received, checksumPresent := 0, WaitDollar, 0, 0, 0, false;
      decoded, discarded, reported := 0, 0, [];
    }

    method ResetContext()
      requires Valid()
      modifies this, buf
      ensures Valid() && Abs() == old(Abs()).(ctx := FRESH)
    {
      buf[0] := 0;
      bufLen, state, running, csHi, received, checksumPresent := 0, WaitDollar, 0, 0, 0, false;
    }

    /** Forgets the sentence in progress and clears the statistics. */
    method Reset()
      requires Valid()
      modifies this, buf
      ensures Valid() && Abs() == INITIAL.(events := old(reported))
    {
      ResetContext();
      decoded, discarded := 0, 0;
    }

    method DiscardSentence(code: ErrorCode)
      requires Valid()
      modifies this, buf
      ensures Valid() && Abs() == DiscardWithError(old(Abs()), code)
      ensures reported == old(reported) + [Discarded(code)]
      ensures discarded == old(discarded) + 1 && decoded == old(decoded) && state == WaitDollar && bufLen == 0
    {
      discarded := discarded + 1;
      reported := reported + [Discarded(code)];
      ResetContext();
    }

    method CompleteSentence()
      requires Valid()
      modifies this, buf
      ensures Valid() && Abs() == OnSentenceComplete(old(Abs()))
    {
      var sentence := Dispatched(buf[..bufLen], checksumPresent, received, false);
      if checksumPresent {
        sentence := sentence.(checksumValid := running == received);
        if !sentence.checksumValid {
          DiscardSentence(ChecksumMismatch);
          return;
        }
      }
      decoded := decoded + 1;
      reported := reported + [sentence];
      ResetContext();
    }

    /** The byte after '$' and before the delimiter. */
    method AccumulateByte(c: bv8)
      requires Valid() && state == AccumulateSentence
      modifies this, buf
      ensures Valid() && Abs() == Step(old(Abs()), c)
    {
      if c == DOLLAR {
        DiscardSentence(UnexpectedStart);
        buf[0] := 0;
        bufLen := 0;
        state := AccumulateSentence;
      } else if c == STAR {
        buf[bufLen] := 0;
        checksumPresent := true;
        state := WaitChecksumHi;
      } else if c == CR {
        buf[bufLen] := 0;
        checksumPresent := false;
        state := WaitLf;
      } else if c == LF {
        buf[bufLen] := 0;
        checksumPresent := false;
        CompleteSentence();
      } else if bufLen >= NMEA_BUFFER_LEN {
        DiscardSentence(SentenceTooLong);
      } else {
        AppendByte(c);
      }
    }

    method AppendByte(c: bv8)
      requires Valid() && bufLen < NMEA_BUFFER_LEN
      modifies this, buf
      ensures Valid()
      ensures Abs() == var m := old(Abs()); m.(ctx := m.ctx.(buf := m.ctx.buf + [c], running := m.ctx.running ^ c))
    {
      ghost var before := buf[..bufLen];
      buf[bufLen] := c;
      bufLen := bufLen + 1;
      running := running ^ c;
      assert buf[..bufLen] == before + [c];
    }

    /** The second checksum digit. */
    method ChecksumByte(c: bv8)
      requires Valid() && state == WaitChecksumLo
      modifies this, buf
      ensures Valid() && Abs() == Step(old(Abs()), c)
    {
      var parsed := ParseHexByte(csHi, c);
      if parsed.None? {
        DiscardSentence(ChecksumMismatch);
      } else {
        received := parsed.value;
        state := WaitLf;
      }
    }

    /** The bytes between the body or the checksum and the line feed. */
    method LineEndByte(c: bv8)
      requires Valid() && state == WaitLf
      modifies this, buf
      ensures Valid() && Abs() == Step(old(Abs()), c)
    {
      if c == CR {
      } else if c == LF {
        CompleteSentence();
      } else if c == DOLLAR {
        DiscardSentence(UnexpectedStart);
        ResetContext();
        state := AccumulateSentence;
      }
    }

    /** One byte of input: one step of the protocol. */
    method ProcessByte(c: bv8)
      requires Valid()
      modifies this, buf
      ensures Valid() && Abs() == Step(old(Abs()), c)
    {
      match state {
        case WaitDollar =>
          if c == DOLLAR {
            ResetContext();
            state := AccumulateSentence;
          }
        case AccumulateSentence => AccumulateByte(c);
        case WaitChecksumHi =>
          csHi := c;
          state := WaitChecksumLo;
        case WaitChecksumLo => ChecksumByte(c);
        case WaitLf => LineEndByte(c);
      }
    }

    /** A chunk of input: the protocol run over its bytes. */
    method Feed(data: seq<bv8>)
      requires Valid()
      modifies this, buf
      ensures Valid() && Abs() == Run(old(Abs()), data)
    {
      var i := 0;
      while i < |data|
        invariant 0 <= i <= |data|
        invariant Valid() && Abs() == Run(old(Abs()), data[..i])
      {
        ProcessByte(data[i]);
        assert data[..i + 1][..i] == data[..i];
        i := i + 1;
      }
      assert data[..i] == data;
    }
  }

  /** The printer used by the demo. */
  method PrintSentence(body: seq<bv8>) returns (full: seq<bv8>)
    ensures full == MakeSentence(body)
  {
    var cs: bv8 := 0;
    var i := 0;
    while i < |body|
      invariant 0 <= i <= |body|
      invariant cs == Xor(body[..i])
    {
      assert body[..i + 1][..i] == body[..i];
      cs := cs ^ body[i];
      i := i + 1;
    }
    assert body[..i] == body;
    full := [DOLLAR] + body + [STAR, HexDigit(cs >> 4), HexDigit(cs & 0xF)] + [CR] + [LF];
  }
}
