/** When the framer stops swallowing and reads again: bytes that end a mouse tail, second
    timeouts, broken reports. */
module FramerRecovery {
  import opened Wrappers
  import opened Bytes
  import opened Utf8
  import opened EscapeSyntax
  import opened FramerSpec
  import opened FramerFragments
  import opened FramerBookkeeping
  import opened FramerText
  import opened FramerEvents
  import opened FramerStream
  import opened FramerDiscard
  import opened FramerTails

  // --- A mouse tail that breaks off ---

  /** Digits and `;` only. */
  predicate AreParameters(w: seq<Byte>) {
    forall i :: 0 <= i < |w| ==> 0x30 <= w[i] <= 0x39 || w[i] == 0x3B
  }

  /** The first byte cannot go on with a mouse report. */
  predicate BreaksOff(x: seq<Byte>) {
    x != [] && !(0x30 <= x[0] <= 0x39) && x[0] != 0x3B && x[0] != 0x4D && x[0] != 0x6D
  }

  lemma BrokenTailTurn(t: Tables, c: State, k: nat, w: seq<Byte>, x: seq<Byte>)
    requires Fresh(c) && AreParameters(w) && BreaksOff(x) && k <= 128
    ensures DrainTurn(t, Feed(SwallowingMouse(c, k), w + x))
            == Turn(c.(buffer := if k + |w| < 128 then x else [], discarded := 0), [], true)
  {
    var b := w + x;
    var n := Inspected(b, k);
    assert forall i :: 0 <= i < |w| ==> b[i] == w[i];
    assert b[|w|] == x[0] && b[|w|..] == x;
    if k + |w| < 128 {
      FirstAt(b[..n], IsNotParameter, 0, |w|);
      assert DiscardTail(b, k) == TailScan(x, k, true);
    } else {
      assert PositionFrom(b[..n], IsNotParameter, 0).None?;
      assert DiscardTail(b, k) == TailScan([], k + n, true);
    }
    hide DiscardTail, CompleteTailLen;
    assert [] + b == b;
  }

  /** The mouse report breaks off behind the timeout: parameters, and then units that cannot
      belong to it. They come out if the break is within the limit, or if the framer had
      given up on the report at the timeout and nothing more of it came. */
  lemma BrokenMouseTailIff(t: Tables, s: State, report: seq<Byte>, cut: nat, w: seq<Byte>, units: seq<seq<Byte>>)
    requires Fresh(s) && IsReport(report) && 3 <= cut < |report|
    requires AreParameters(w) && AreUnits(t, units) && BreaksOff(Concat(units))
    ensures Delivers(Run(t, s, AroundTimeout([report[..cut]], [w + Concat(units)])), units)
            <==> cut + |w| < 128 || (cut > 128 && w == [])
  {
    var early, late := [report[..cut]], [w + Concat(units)];
    OneChunk(report[..cut]);
    OneChunk(w + Concat(units));
    hide Run, Push, Flush, AreUnits, Delivers, IsReport, AroundTimeout, Concat, BreaksOff, AreParameters;
    MouseTimesOut(t, s, report, cut);
    var d := if cut <= 128 then SwallowingMouse(s, cut) else s.(discarded := cut);
    RunAround(t, s, early, late, d, []);
    OnePiece(t, d, late);
    DeliversAfterNothing(Push(t, d, w + Concat(units)), units);
    if cut <= 128 {
      BrokenTailPush(t, s, cut, w, units);
    } else if w == [] {
      assert w + Concat(units) == Concat(units);
      UnitsAfter(t, d, units);
    } else {
      TooManyBytes(t, d, w, units);
    }
  }

  lemma BrokenTailPush(t: Tables, s: State, k: nat, w: seq<Byte>, units: seq<seq<Byte>>)
    requires Fresh(s) && AreParameters(w) && BreaksOff(Concat(units)) && k <= 128 && AreUnits(t, units)
    ensures Delivers(Push(t, SwallowingMouse(s, k), w + Concat(units)), units) <==> k + |w| < 128
  {
    assert Concat(units) != [];
    assert units != [] by { assert units == [] ==> Concat(units) == []; }
    hide Concat, DrainTurn, AreParameters, AreUnits, BreaksOff;
    var fed := Feed(SwallowingMouse(s, k), w + Concat(units));
    var next := DrainTurn(t, fed).next;
    BrokenTailTurn(t, s, k, w, Concat(units));
    DrainAfterTurn(t, fed);
    if k + |w| < 128 {
      UnitsDrain(t, next, units);
    } else {
      EmptyDrains(t, next);
    }
    hide Drain;
    assert [] + Drain(t, next).1 == Drain(t, next).1;
  }

  // --- A second timeout ends a mouse tail ---

  lemma ParametersScanned(w: seq<Byte>, k: nat)
    requires AreParameters(w) && k <= 128
    ensures DiscardTail(w, k)
            == TailScan([], if k + |w| <= 128 then k + |w| else 128, k + |w| > 128)
  {
    var n := Inspected(w, k);
    assert forall i :: 0 <= i < n ==> w[..n][i] == w[i];
    assert PositionFrom(w[..n], IsNotParameter, 0).None?;
    hide PositionFrom;
  }

  lemma ParametersTurn(t: Tables, c: State, k: nat, w: seq<Byte>)
    requires Fresh(c) && AreParameters(w) && k <= 128
    ensures DrainTurn(t, Feed(SwallowingMouse(c, k), w))
            == if k + |w| <= 128 then Turn(SwallowingMouse(c, k + |w|), [], false)
               else Turn(c.(buffer := [], discarded := 0), [], true)
  {
    ParametersScanned(w, k);
    hide DiscardTail, CompleteTailLen, AreParameters;
    assert [] + w == w;
  }

  /** More parameters: swallowed, and swallowing goes on unless they are too many. */
  lemma ParametersSwallowed(t: Tables, c: State, k: nat, w: seq<Byte>)
    requires Fresh(c) && AreParameters(w) && k <= 128
    ensures Push(t, SwallowingMouse(c, k), w)
            == (if k + |w| <= 128 then SwallowingMouse(c, k + |w|) else c.(discarded := 0), [])
  {
    var fed := Feed(SwallowingMouse(c, k), w);
    ParametersTurn(t, c, k, w);
    hide DrainTurn, AreParameters;
    if k + |w| > 128 {
      var next := c.(buffer := [], discarded := 0);
      FreshBuffer(c);
      DrainAfterTurn(t, fed);
      EmptyDrains(t, next);
      hide Drain;
    }
  }

  lemma SwallowingTimesOut(t: Tables, c: State, k: nat)
    requires Fresh(c) && k <= 128
    ensures Flush(t, SwallowingMouse(c, k)) == (c.(discarded := 0), [])
  {
    var d := SwallowingMouse(c, k);
    ParametersSwallowed(t, c, k, []);
    assert Feed(d, []) == d;
    assert Drain(t, d) == (d, []);
    hide Drain;
    var none: seq<seq<Byte>> := [];
    assert none + none == none;
  }

  /** A mouse report whose rest does not come before the second timeout: from then on the
      framer reads what comes as if nothing had been before. */
  lemma SecondTimeoutEndsMouse(t: Tables, s: State, report: seq<Byte>, cut: nat, w: seq<Byte>, ops: seq<Op>)
    returns (c: State)
    requires Fresh(s) && IsReport(report) && 3 <= cut < |report| && cut <= 128 && AreParameters(w)
    ensures Fresh(c) && c.splitEsc == s.splitEsc
    ensures Run(t, s, AroundTimeout([report[..cut]], [w]) + [Idle] + ops) == Run(t, c, ops)
  {
    c := s.(discarded := 0);
    var d := SwallowingMouse(s, cut);
    OneChunk(report[..cut]);
    OneChunk(w);
    assert Fresh(c);
    MouseTimesOut(t, s, report, cut);
    ParametersSwallowed(t, s, cut, w);
    var mid := Push(t, d, w).0;
    if cut + |w| <= 128 {
      SwallowingTimesOut(t, s, cut + |w|);
    } else {
      EmptyDrains(t, c);
    }
    assert Flush(t, mid) == (c, []);
    hide Run, Push, Flush, Fresh, Concat, IsReport, AroundTimeout, AreParameters;
    RunAround(t, s, [report[..cut]], [w], d, []);
    OnePiece(t, d, [w]);
    var start := AroundTimeout([report[..cut]], [w]);
    RunAppend(t, s, start + [Idle], ops);
    RunAppend(t, s, start, [Idle]);
    RunOne(t, mid, Idle);
    NothingBefore(Run(t, c, ops).1);
  }

  lemma NothingBefore(chunks: seq<seq<Byte>>)
    ensures var none: seq<seq<Byte>> := []; none + none + none + chunks == chunks
  {
  }

  // --- A broken report ---

  /** `ESC [ <` and bytes that no mouse report has. */
  predicate IsBrokenReport(b: seq<Byte>) {
    && |b| >= 4 && b[..3] == [0x1B, 0x5B, 0x3C] && !AreParameters(b[3..])
    && forall i :: 3 <= i < |b| ==> b[i] != 0x4D && b[i] != 0x6D
  }

  lemma BrokenReportHead(t: Tables, b: seq<Byte>)
    requires IsBrokenReport(b)
    ensures Extract(t, b).None? && b[1] == 0x5B
    ensures !IsIncompleteMouse(b) && !IsOpenPaste(b) && !IsOpenSchemeReport(b) && !IsOpenControl(b)
    ensures !IsIncompleteScalar(b) && !IsEscapedIncompleteScalar(b)
  {
    assert b[0] == b[..3][0] && b[1] == b[..3][1] && b[2] == b[..3][2];
    assert b[1..][0] == b[1];
    NotPrefix(b, PASTE_START, 2);
    NotPrefix(b, [0x1B, 0x5B, 0x3F], 2);
    assert PositionFrom(b, IsMouseFinal, 2).None?;
    MouseEscapeLen(t, b);
    hide EscapeLen, FindFrom, PositionFrom;
    AllParameters(b[3..]);
  }

  lemma AllParameters(w: seq<Byte>)
    ensures All(w, IsParameter) <==> AreParameters(w)
  {
  }

  lemma BrokenReportTimesOut(t: Tables, s: State, b: seq<Byte>)
    requires Fresh(s) && IsBrokenReport(b)
    ensures Push(t, s, b) == (Feed(s, b), [])
    ensures Flush(t, Feed(s, b)) == (s, if Valid(b) && t.isKey(b) then [b] else [])
  {
    var fed := Feed(s, b);
    BrokenReportHead(t, b);
    hide Extract, IsBrokenReport, IsIncompleteMouse, IsOpenPaste, IsOpenSchemeReport, IsOpenControl, Valid;
    hide IsIncompleteScalar, IsEscapedIncompleteScalar, FlushIdle;
    assert fed.buffer == b;
    WaitingTurn(t, fed);
    hide DrainTurn;
    assert Drain(t, fed) == (fed, []);
    hide Drain;
    PlainIdle(t, fed);
    var out := FlushIdle(t, fed).1;
    assert [] + out == out;
  }

  /** Where no other arm of the timeout applies the buffer goes, as a key or not at all. */
  lemma PlainIdle(t: Tables, s: State)
    requires Clean(s) && |s.buffer| >= 2
    requires var b := s.buffer;
             && !IsIncompleteMouse(b) && !IsOpenPaste(b) && !IsOpenSchemeReport(b) && !IsOpenControl(b)
             && !IsIncompleteScalar(b) && !IsEscapedIncompleteScalar(b)
    ensures FlushIdle(t, s)
            == (s.(buffer := []), if Valid(s.buffer) && t.isKey(s.buffer) then [s.buffer] else [])
  {
    hide IsIncompleteMouse, IsOpenPaste, IsOpenSchemeReport, IsOpenControl, Valid, IsIncompleteScalar;
    hide IsEscapedIncompleteScalar;
  }

  /** The timeout drops it, and nothing else: what comes behind is read, and comes out alone
      exactly if the broken report is not itself a key. */
  lemma BrokenReportIsDroppedIff(t: Tables, s: State, b: seq<Byte>, units: seq<seq<Byte>>,
                                 early: seq<seq<Byte>>, late: seq<seq<Byte>>)
    requires Fresh(s) && IsBrokenReport(b) && AreUnits(t, units) && early != [] && late != []
    requires Concat(early) == b && Concat(late) == Concat(units)
    ensures Delivers(Run(t, s, AroundTimeout(early, late)), units) <==> !(Valid(b) && t.isKey(b))
  {
    hide Run, Push, Flush, Concat, AreUnits, IsBrokenReport, AroundTimeout, Valid, Invariant;
    BrokenReportTimesOut(t, s, b);
    var out := if Valid(b) && t.isKey(b) then [b] else [];
    RunAround(t, s, early, late, s, out);
    AnyFragmentation(t, s, late);
    UnitsAfter(t, s, units);
    assert [] + units == units && |[b] + units| == |units| + 1;
  }

  // --- A second timeout in a colour-scheme report ---

  /** What a timeout may find of a scheme report that is being swallowed and still wait. */
  predicate KeepsWaitingForScheme(middle: seq<Byte>) {
    && |middle| <= 128
    && forall i :: 0 <= i < |middle| ==> 0x30 <= middle[i] <= 0x39 || middle[i] == 0x3B || middle[i] == 0x3F
  }

  predicate HasNoFinal(b: seq<Byte>) {
    forall i :: 0 <= i < |b| ==> b[i] != 0x6E
  }

  function SchemeTimedOutAgain(s: State, middle: seq<Byte>): State {
    if KeepsWaitingForScheme(middle) then Discarding(s, HostColorSchemeCsi).(discarded := |middle|)
    else s.(discarded := 0)
  }

  lemma NoFinalNoEnd(middle: seq<Byte>)
    requires HasNoFinal(middle)
    ensures Terminator(middle, HostColorSchemeCsi).None?
    ensures KeepsWaitingForScheme(middle) <==> PlausibleTail(HostColorSchemeCsi, middle) && |middle| <= 128
    ensures KeepsWaitingForScheme(middle) ==> EscOrNothing(middle) == []
  {
    if PlausibleTail(HostColorSchemeCsi, middle) {
      assert forall i :: 0 <= i < |middle| ==> IsReportByte(middle[i]);
    }
  }

  lemma SchemeSecondTimeout(t: Tables, s: State, middle: seq<Byte>)
    requires Fresh(s) && HasNoFinal(middle)
    ensures Flush(t, Feed(Discarding(s, HostColorSchemeCsi), middle)) == (SchemeTimedOutAgain(s, middle), [])
  {
    hide Terminator, Drain, PlausibleTail, KeepsWaitingForScheme, HasNoFinal;
    var fed := Feed(Discarding(s, HostColorSchemeCsi), middle);
    NoFinalNoEnd(middle);
    StillDiscarding(t, s, HostColorSchemeCsi, middle);
    DiscardingIdle(t, fed, HostColorSchemeCsi);
    hide FlushIdle;
    SchemeFlushed(s, middle);
    assert |Flush(t, fed).1| == 0;
  }

  lemma DiscardingIdle(t: Tables, s: State, family: Family)
    requires s.discard == Some(family)
    ensures FlushIdle(t, s) == (FlushDiscard(s, family), [])
  {
  }

  lemma SchemeFlushed(s: State, middle: seq<Byte>)
    requires Fresh(s) && HasNoFinal(middle)
    ensures FlushDiscard(Feed(Discarding(s, HostColorSchemeCsi), middle), HostColorSchemeCsi)
            == SchemeTimedOutAgain(s, middle)
  {
    NoFinalNoEnd(middle);
    hide PlausibleTail, KeepsWaitingForScheme, HasNoFinal, Terminator;
    assert [] + middle == middle;
  }

  lemma SchemeRest(t: Tables, s: State, middle: seq<Byte>, w: seq<Byte>, units: seq<seq<Byte>>)
    requires Fresh(s) && HasNoFinal(w) && AreUnits(t, units)
    ensures Delivers(Push(t, SchemeTimedOutAgain(s, middle), w + [0x6E] + Concat(units)), units)
            <==> KeepsWaitingForScheme(middle)
  {
    var tail := w + [0x6E];
    var d := SchemeTimedOutAgain(s, middle);
    if KeepsWaitingForScheme(middle) {
      FirstAt(tail + Concat(units), IsReportFinal, 0, |w|);
      assert Terminator(tail + Concat(units), HostColorSchemeCsi) == Some(|tail|);
      hide Terminator, Concat, AreUnits, Delivers, Drain, KeepsWaitingForScheme;
      assert Feed(d, tail + Concat(units)).buffer == tail + Concat(units);
      SwallowedThenUnits(t, Feed(d, tail + Concat(units)), tail, units);
    } else {
      hide Concat, Delivers, Push, KeepsWaitingForScheme;
      TooManyBytes(t, d, tail, units);
    }
  }

  /** A second timeout while a scheme report is being swallowed: all bytes up to the final
      `n` are still swallowed if and only if what came in between looks like such a report. */
  lemma TwiceLateReportIsSwallowedIff(t: Tables, s: State, report: seq<Byte>, cut: nat, middle: seq<Byte>, w: seq<Byte>,
                                      units: seq<seq<Byte>>, early: seq<seq<Byte>>, between: seq<seq<Byte>>,
                                      late: seq<seq<Byte>>)
    requires Fresh(s) && IsSchemeReport(report) && 3 <= cut < |report| && HasNoFinal(middle) && HasNoFinal(w)
    requires AreUnits(t, units) && early != [] && between != [] && late != []
    requires Concat(early) == report[..cut] && Concat(between) == middle
    requires Concat(late) == w + [0x6E] + Concat(units)
    ensures Delivers(Run(t, s, AroundTimeout(early, between) + [Idle] + Pieces(late)), units)
            <==> KeepsWaitingForScheme(middle)
  {
    var d, d2 := Discarding(s, HostColorSchemeCsi), SchemeTimedOutAgain(s, middle);
    hide Run, Push, Flush, Concat, AreUnits, Delivers, IsSchemeReport, KeepsWaitingForScheme, Terminator, HasNoFinal;
    hide Drain, Invariant, CutInsensitive, AroundTimeout, Fresh;
    ReportTimesOut(t, s, report, cut);
    RunAround(t, s, early, between, d, []);
    DiscardingIsInsensitive(s, HostColorSchemeCsi);
    AnyFragmentation(t, d, between);
    NoFinalNoEnd(middle);
    StillDiscarding(t, s, HostColorSchemeCsi, middle);
    SchemeSecondTimeout(t, s, middle);
    var none: seq<seq<Byte>> := [];
    assert none + none == none;
    RunOnAndTimeOut(t, s, AroundTimeout(early, between), late, Feed(d, middle), [], d2);
    SchemeAgainIsInsensitive(s, middle);
    AnyFragmentation(t, d2, late);
    DeliversAfterNothing(Push(t, d2, Concat(late)), units);
    SchemeRest(t, s, middle, w, units);
  }

  lemma SchemeAgainIsInsensitive(s: State, middle: seq<Byte>)
    requires Fresh(s)
    ensures Invariant(SchemeTimedOutAgain(s, middle)) && CutInsensitive(SchemeTimedOutAgain(s, middle))
  {
  }

  // --- The window behind a delivered ESC ---

  /** What the framer keeps in the window is the head of a short mouse tail. */
  predicate ShortWindow(s: State) {
    var b := s.buffer;
    s.loneFlushed ==>
      && |b| <= 32 && (|b| >= 1 ==> b[0] == 0x5B) && (|b| >= 2 ==> b[1] == 0x3C && AreParameters(b[2..]))
  }

  lemma {:induction false} DrainKeepsWindow(t: Tables, s: State)
    ensures ShortWindow(Drain(t, s).0)
    decreases |s.buffer|, if s.discard.Some? then 1 else 0
  {
    TurnKeepsWindow(t, s);
    hide DrainTurn, ShortWindow;
    if DrainTurn(t, s).again {
      DrainKeepsWindow(t, DrainTurn(t, s).next);
    }
  }

  lemma TurnKeepsWindow(t: Tables, s: State)
    ensures !DrainTurn(t, s).again ==> ShortWindow(DrainTurn(t, s).next)
  {
    hide Extract, Terminator, DiscardTail, CompleteTailLen, IsIncompleteTail;
    if IsIncompleteTail(s.buffer) {
      IncompleteTailIsShort(s.buffer);
    }
  }

  lemma IncompleteTailIsShort(b: seq<Byte>)
    requires IsIncompleteTail(b)
    ensures |b| <= 32 && (|b| >= 1 ==> b[0] == 0x5B) && (|b| >= 2 ==> b[1] == 0x3C && AreParameters(b[2..]))
  {
    if |b| >= 2 {
      AllParameters(b[2..]);
      assert StartsWith(b, MOUSE_TAIL);
      assert b[0] == b[..2][0] && b[1] == b[..2][1];
    }
  }

  lemma FlushKeepsWindow(t: Tables, s: State)
    ensures ShortWindow(Flush(t, s).0)
  {
    DrainKeepsWindow(t, s);
    IdleKeepsWindow(t, Drain(t, s).0);
    hide Drain, FlushIdle, ShortWindow;
  }

  /** A timeout keeps the buffer, empties it, or closes the window. */
  lemma IdleKeepsWindow(t: Tables, s: State)
    requires ShortWindow(s)
    ensures ShortWindow(FlushIdle(t, s).0)
  {
    if s.loneFlushed && s.buffer != [] {
      NoEscInWindow(s);
    }
    hide Extract, CompleteTailLen, Valid, AreParameters, IsIncompleteMouse, IsOpenPaste, IsOpenColorReply,
      IsOpenSchemeReport, IsOpenControl, IsIncompleteScalar, IsEscapedIncompleteScalar, PlausibleTail, StartsWith;
    var next := FlushIdle(t, s).0;
    assert next.loneFlushed ==> next.buffer == [] || (s.loneFlushed && next.buffer == s.buffer);
    hide FlushIdle;
  }

  lemma NoEscInWindow(s: State)
    requires ShortWindow(s) && s.loneFlushed && s.buffer != []
    ensures s.buffer[|s.buffer| - 1] != ESC
  {
    if |s.buffer| > 2 {
      assert s.buffer[|s.buffer| - 1] == s.buffer[2..][|s.buffer| - 3];
    }
  }

  /** After any run, with any timeouts, no more than that waits behind a delivered ESC. */
  lemma {:induction false} RunKeepsWindow(t: Tables, s: State, ops: seq<Op>)
    requires ShortWindow(s)
    ensures ShortWindow(Run(t, s, ops).0)
    decreases |ops|
  {
    if ops != [] {
      RunStep(t, s, ops);
      match ops[0] {
        case Bytes(data) => DrainKeepsWindow(t, Feed(s, data));
        case Idle => FlushKeepsWindow(t, s);
        case QuerySent =>
        case TrackSchemes =>
      }
      hide Run, Drain, Flush, ShortWindow;
      RunKeepsWindow(t, Apply(t, s, ops[0]).0, ops[1..]);
    }
  }

  /** A timeout that finds something in the window closes it, unless that is a bracket that
      it delivers as a key. */
  lemma WindowClosesIff(t: Tables, s: State)
    requires s.loneFlushed && s.discard.None? && s.buffer != [] && Drain(t, s) == (s, [])
    ensures Flush(t, s).0.loneFlushed <==> s.buffer == [0x5B] && t.isKey([0x5B])
    ensures Flush(t, s).1 == if s.buffer == [0x5B] && t.isKey([0x5B]) then [[0x5B]] else []
  {
    DrainKeepsWindow(t, s);
    hide Drain, Extract, CompleteTailLen, Valid, ControlEnd, FindFrom;
    BracketIsValid();
    var out := FlushIdle(t, s).1;
    assert [] + out == out;
    if s.buffer == [0x5B] {
      BracketIsOnlyAKey();
    }
  }

  lemma BracketIsValid()
    ensures Valid([0x5B])
  {
    assert ScalarLen([0x5B]) == 1 by { assert [0x5B][..1] == [0x5B]; }
    assert [0x5B][1..] == [] && Valid([]);
  }

  lemma BracketIsOnlyAKey()
    ensures !StartsWith([0x5B], MOUSE_TAIL) && !IsIncompleteMouse([0x5B]) && !IsOpenPaste([0x5B])
    ensures !IsOpenColorReply([0x5B]) && !IsOpenSchemeReport([0x5B]) && !IsOpenControl([0x5B])
    ensures !IsIncompleteScalar([0x5B]) && !IsEscapedIncompleteScalar([0x5B])
  {
  }
}
