/** What the typed layer `RawInputFramer` recovers from the framer's chunks, and runs
    that reach the corners of `FramerFragments`. */
module FramerEvents {
  import opened Wrappers
  import opened Bytes
  import opened Utf8
  import opened EscapeSyntax
  import opened FramerSpec
  import opened FramerFragments
  import opened FramerBookkeeping
  import opened FramerText
  import MouseReport

  predicate IsRepeatedEsc(c: seq<Byte>) {
    |c| >= 2 && AllEsc(c)
  }

  /** Reading a chunk again gives the event the framer recognised in the stream. */
  lemma ChunkYieldsEventIff(t: Tables, b: seq<Byte>)
    requires Extract(t, b).Some?
    ensures var (event, n) := Extract(t, b).value;
            && (EventOf(t, b[..n]).Some? <==> !IsRepeatedEsc(b[..n]))
            && (!AllEsc(b[..n]) ==> EventOf(t, b[..n]) == Some(event))
  {
    ExtractLocal(t, b);
    var n := Extract(t, b).value.1;
    hide Extract;
    if AllEsc(b[..n]) && n == 1 {
      assert b[..n] == [ESC];
    }
  }

  predicate YieldsEventIffNotRepeatedEsc(t: Tables, splitEsc: bool, c: seq<Byte>) {
    && (EventOf(t, c).Some? <==> !IsRepeatedEsc(c))
    && (splitEsc ==> !IsRepeatedEsc(c))
  }

  /** A turn emits nothing, a split-off ESC, or the recognised head of the buffer. */
  lemma TurnShape(t: Tables, s: State)
    ensures DrainTurn(t, s).next.splitEsc == s.splitEsc
    ensures var c := DrainTurn(t, s).chunks;
            || c == [] || c == [[ESC]]
            || (&& Extract(t, s.buffer).Some? && c == [s.buffer[..Extract(t, s.buffer).value.1]]
                && !(s.splitEsc && StartsWith(s.buffer, ESC_ESC)))
  {
    hide Extract, DiscardTail, Terminator, CompleteTailLen, IsIncompleteTail, StartsWith;
  }

  lemma TurnChunks(t: Tables, s: State)
    ensures forall c :: c in DrainTurn(t, s).chunks ==> YieldsEventIffNotRepeatedEsc(t, s.splitEsc, c)
    ensures DrainTurn(t, s).next.splitEsc == s.splitEsc
  {
    var b := s.buffer;
    TurnShape(t, s);
    assert EventOf(t, [ESC]) == Some(Key);
    hide DrainTurn;
    if Extract(t, b).Some? {
      ChunkYieldsEventIff(t, b);
      var n := Extract(t, b).value.1;
      if IsRepeatedEsc(b[..n]) {
        assert b[..2] == b[..n][..2] == [ESC, ESC];
      }
    }
    hide Extract, EventOf;
  }

  /** Every chunk a drain emits yields an event in the typed layer, except a run of two
      or more ESC, which yields none; the policy that splits doubled ESC never emits one. */
  lemma {:induction false} DrainedChunksYieldEvents(t: Tables, s: State)
    ensures forall c :: c in Drain(t, s).1 ==> YieldsEventIffNotRepeatedEsc(t, s.splitEsc, c)
    decreases |s.buffer|, if s.discard.Some? then 1 else 0
  {
    hide DrainTurn, YieldsEventIffNotRepeatedEsc;
    TurnChunks(t, s);
    if DrainTurn(t, s).again {
      DrainedChunksYieldEvents(t, DrainTurn(t, s).next);
    }
  }

  /** Without the splitting policy a mouse report behind three ESC loses an event: the
      chunk `ESC ESC` is emitted, but the typed layer cannot read it back. */
  lemma DoubledEscIsLost(t: Tables, s: State, report: seq<Byte>)
    requires Clean(s) && !s.splitEsc
    requires StartsWith(report, CSI_MOUSE) && CsiEnd(report, IsMouseFinal) == Some(|report|)
    requires Valid(report) && t.isMouse(report)
    requires s.buffer == [ESC, ESC] + report
    ensures DrainTurn(t, s).chunks == [[ESC, ESC]]
    ensures EventsOf(t, [[ESC, ESC]]) == []
  {
    DoubledHead(t, report);
    DoubledAlone(t);
    hide Extract, EventOf;
    var b := s.buffer;
    assert b[..2] == [ESC, ESC];
    hide StartsWith;
  }

  /** The head of the buffer: a doubled ESC of length two. */
  lemma DoubledHead(t: Tables, report: seq<Byte>)
    requires StartsWith(report, CSI_MOUSE) && CsiEnd(report, IsMouseFinal) == Some(|report|)
    requires Valid(report) && t.isMouse(report)
    ensures Extract(t, [ESC, ESC] + report).Some? && Extract(t, [ESC, ESC] + report).value.1 == 2
  {
    hide EscapeLen, Valid, CsiEnd, Extract;
    DoubledReportLen(t, report);
    AsciiIsValid([ESC, ESC]);
    OpenerBytes(report);
    hide StartsWith;
    DoubledHeadOf(t, [ESC, ESC] + report);
  }

  lemma OpenerBytes(report: seq<Byte>)
    requires StartsWith(report, CSI_MOUSE)
    ensures var b := [ESC, ESC] + report;
            StartsWith(b, ESC_ESC) && b[1..] == [ESC] + report && b[..2] == [ESC, ESC] && |b| > 2 && b[2] == ESC
  {
    assert report[0] == report[..3][0];
  }

  lemma DoubledHeadOf(t: Tables, b: seq<Byte>)
    requires StartsWith(b, ESC_ESC) && |b| > 2 && b[2] == ESC && Valid(b[..2])
    requires EscapeLen(t, b[1..]) == Some(1)
    ensures Extract(t, b).Some? && Extract(t, b).value.1 == 2
  {
    hide EscapeLen, Valid, Classify;
    assert b[..2][1] == b[1];
    assert !StartsWith(b, ESC_ESC_MOUSE) && !StartsWith(b, PASTE_START);
    DoubledUnfolds(t, b);
  }

  lemma DoubledAlone(t: Tables)
    ensures EventsOf(t, [[ESC, ESC]]) == []
  {
    assert [ESC, ESC][1..] == [ESC] && [[ESC, ESC]][1..] == [];
    assert EscapeLen(t, [ESC]) == None;
    hide EscapeLen, Valid, Classify, FindFrom;
    DoubledUnfolds(t, [ESC, ESC]);
    assert Extract(t, [ESC, ESC]).None?;
    hide Extract;
  }

  /** With a report behind it, a single ESC is complete by itself. */
  lemma DoubledReportLen(t: Tables, report: seq<Byte>)
    requires StartsWith(report, CSI_MOUSE) && CsiEnd(report, IsMouseFinal) == Some(|report|)
    requires Valid(report) && t.isMouse(report)
    ensures EscapeLen(t, [ESC] + report) == Some(1)
  {
    var c := [ESC] + report;
    assert c[1..] == report && c[1..1 + |report|] == report;
    assert c == ESC_ESC_MOUSE + report[3..];
    hide SingleEscapeLen, Valid;
  }

  /** The chunk an idle timeout emits is read back exactly when it is a lone ESC, or when
      it is the `[` that follows one; every other flushed key sequence yields no event. */
  lemma FlushedChunkYieldsEventIff(t: Tables, s: State)
    requires DrainTurn(t, s) == Turn(s, [], false)
    requires FlushIdle(t, s).1 != []
    ensures FlushIdle(t, s).1 == [s.buffer]
    ensures EventOf(t, s.buffer).Some? <==> s.buffer == [ESC] || s.loneFlushed
  {
    var b := s.buffer;
    assert FlushIdle(t, s).1 == [b];
    if b != [ESC] && s.loneFlushed {
      assert IsIncompleteTail(b) && |b| == 1;
      assert b == [0x5B];
      assert b[..1] == b;
      FirstCharLenIsScalarLen(b);
    }
  }

  /** `ESC [` times out. The framer passes the key on, the typed layer makes nothing of it. */
  lemma FlushedKeyExample(t: Tables)
    requires t.isKey([ESC, 0x5B])
    ensures var chunks := Run(t, Initial(true), [Bytes([ESC, 0x5B]), Idle]).1;
            chunks == [[ESC, 0x5B]] && EventsOf(t, chunks) == []
  {
    var fed := Feed(Initial(true), [ESC, 0x5B]);
    BracketTimesOut(t, fed);
    hide DrainTurn, FlushIdle, Extract;
    RunTwo(t, Initial(true), Bytes([ESC, 0x5B]), Idle);
    FlushedChunkYieldsEventIff(t, fed);
    assert [[ESC, 0x5B]][1..] == [];
  }

  lemma BracketTimesOut(t: Tables, fed: State)
    requires t.isKey([ESC, 0x5B]) && fed == Feed(Initial(true), [ESC, 0x5B])
    ensures fed.buffer == [ESC, 0x5B] && !fed.loneFlushed
    ensures DrainTurn(t, fed) == Turn(fed, [], false) && Drain(t, fed) == (fed, [])
    ensures FlushIdle(t, fed).1 == [[ESC, 0x5B]]
  {
    hide Extract, Valid, FindFrom, DrainTurn, CompleteTailLen, ControlEnd;
    assert fed.buffer == [ESC, 0x5B];
    BracketWaits(t);
    AsciiIsValid([ESC, 0x5B]);
    WaitingTurn(t, fed);
  }

  lemma BracketWaits(t: Tables)
    ensures Extract(t, [ESC, 0x5B]).None?
  {
    var b := [ESC, 0x5B];
    assert PositionFrom(b, IsCsiFinal, 2).None?;
    assert EscapeLen(t, b) == SingleEscapeLen(b);
    hide EscapeLen, PositionFrom, Valid;
  }

  // --- The corners are reachable ---

  const LATE_A: seq<Byte> := [0x5B, 0x3C, 0x31, 0x3B, 0x31, 0x3B, 0x31, 0x3B, 0x78]
  const LATE_B: seq<Byte> := [0x4D]

  lemma LoneEscFlushed(t: Tables)
    ensures var s := Run(t, Initial(true), [Bytes([ESC]), Idle]).0;
            s.loneFlushed && s.buffer == [] && s.discard.None? && Invariant(s)
  {
    var s := Initial(true);
    RunTwo(t, s, Bytes([ESC]), Idle);
    var fed := Feed(s, [ESC]);
    EscDrains(t, fed);
    hide Drain;
    assert FlushIdle(t, fed).0.loneFlushed;
  }

  /** `ESC [ < 1 ; 1 ; 1 ; x M` is a report for the decoder, which reads three fields. */
  lemma LateReport()
    ensures MouseReport.IsSgrMouse([ESC] + LATE_A + LATE_B)
  {
    var one: seq<Byte> := [0x31];
    assert MouseReport.Decimal(one) == 1 by {
      assert one[..0] == [] && MouseReport.Decimal([]) == 0;
    }
    MouseReport.ReportWithTrailer(one, one, one, [0x78], 0x4D);
    hide MouseReport.IsSgrMouse;
    LateBytes();
  }

  lemma LateBytes()
    ensures var one, semicolon := [0x31 as Byte], [MouseReport.SEMICOLON];
            [ESC] + LATE_A + LATE_B
            == CSI_MOUSE + (one + semicolon + (one + semicolon + (one + semicolon + [0x78]))) + [0x4D]
  {
  }

  /** ESC times out, then `[<1;1;1;x` and `M` arrive: in one piece they are swallowed as
      a mouse tail, in two pieces the first is typed into the pane. */
  lemma LateTailExample(isKey: seq<Byte> -> bool, isColorReply: seq<Byte> -> bool)
    ensures var t := Tables(isKey, isColorReply, MouseReport.IsSgrMouse);
            var s := Run(t, Initial(true), [Bytes([ESC]), Idle]).0;
            Run(t, s, [Bytes(LATE_A), Bytes(LATE_B)]) != Run(t, s, [Bytes(LATE_A + LATE_B)])
  {
    var t := Tables(isKey, isColorReply, MouseReport.IsSgrMouse);
    LateReport();
    hide MouseReport.IsSgrMouse;
    var s := Run(t, Initial(true), [Bytes([ESC]), Idle]).0;
    LoneEscFlushed(t);
    hide Run, Drain;
    assert [] + LATE_A == LATE_A;
    LateTailCompletes(t);
    LateTailIsOpen(t);
    hide IsIncompleteTail, CompleteTailLen;
    assert CompletesTailLate(t, Feed(s, LATE_A), LATE_B);
    hide CompletesTailLate;
    FragmentationIsInvisibleIff(t, s, LATE_A, LATE_B);
  }

  lemma LateTailIsOpen(t: Tables)
    ensures !IsIncompleteTail(LATE_A) && CompleteTailLen(t, LATE_A).None?
  {
    assert LATE_A[2..][6] == 0x78;
    assert PositionFrom(LATE_A, IsMouseFinal, 0).None?;
  }

  lemma LateTailCompletes(t: Tables)
    requires t.isMouse([ESC] + LATE_A + LATE_B)
    ensures CompleteTailLen(t, LATE_A + LATE_B) == Some(10)
  {
    var b := LATE_A + LATE_B;
    assert [ESC] + b[..10] == [ESC] + LATE_A + LATE_B;
    assert b[9] == 0x4D && forall i :: 0 <= i < 9 ==> b[i] == LATE_A[i];
    assert PositionFrom(b, IsMouseFinal, 0) == Some(9);
    AsciiIsValid([ESC] + LATE_A + LATE_B);
  }

  lemma {:induction false} AsciiIsValid(b: seq<Byte>)
    requires forall i :: 0 <= i < |b| ==> b[i] < 0x80
    ensures Valid(b)
  {
    if b != [] {
      assert ScalarLen(b) == 1;
      AsciiIsValid(b[1..]);
    }
  }

  /** A mouse report times out half-way; 125 further digits overrun the discard limit.
      The byte behind them is lost if it is in the same read and kept if it is not. */
  lemma OverrunExample(t: Tables)
    ensures var s := Run(t, Initial(true), [Bytes([ESC, 0x5B, 0x3C, 0x31]), Idle]).0;
            var digits: seq<Byte> := seq(125, i => 0x30);
            Run(t, s, [Bytes(digits), Bytes([0x78])]) != Run(t, s, [Bytes(digits + [0x78])])
  {
    var start := Initial(true);
    var b := [ESC, 0x5B, 0x3C, 0x31];
    var fed := Feed(start, b);
    RunTwo(t, start, Bytes(b), Idle);
    HalfReportTimesOut(t, fed);
    hide Drain, FlushIdle;
    var s := FlushIdle(t, fed).0;
    assert Run(t, start, [Bytes(b), Idle]).0 == s;
    hide Run;
    var digits: seq<Byte> := seq(125, i => 0x30);
    assert [] + digits == digits;
    assert OverrunsTail(Feed(s, digits));
    hide OverrunsTail, CompletesTailLate;
    FragmentationIsInvisibleIff(t, s, digits, [0x78]);
  }

  lemma HalfReportTimesOut(t: Tables, fed: State)
    requires fed == Feed(Initial(true), [ESC, 0x5B, 0x3C, 0x31])
    ensures Drain(t, fed) == (fed, [])
    ensures FlushIdle(t, fed) == (fed.(buffer := [], discarded := 4, discard := Some(OrphanedSgrMouseTail)), [])
  {
    var b := fed.buffer;
    assert b == [ESC, 0x5B, 0x3C, 0x31];
    assert IsIncompleteMouse(b) by { assert b[3..] == [0x31]; }
    MouseEscapeLen(t, b);
    hide EscapeLen, Valid, IsOpenPaste, IsOpenColorReply;
    assert DrainTurn(t, fed) == Turn(fed, [], false);
    hide DrainTurn;
  }
}
