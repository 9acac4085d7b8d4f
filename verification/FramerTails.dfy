/** Swallowing over many pieces and several timeouts: mouse reports, a report whose ESC was
    already flushed, and timeouts while a control string is being swallowed. */
module FramerTails {
  import opened Wrappers
  import opened Bytes
  import opened Utf8
  import opened EscapeSyntax
  import opened FramerSpec
  import opened FramerFragments
  import opened FramerBookkeeping
  import opened FramerText
  import opened FramerEvents
  import opened FramerStream
  import opened FramerDiscard

  // --- Pieces of a mouse tail ---

  /** `[ <` and the rest of a report the decoder knows, not longer than the framer waits. */
  predicate IsOrphanedTail(t: Tables, b: seq<Byte>) {
    |b| <= 32 && |b| >= 3 && b[..2] == [0x5B, 0x3C] && IsMouseRest(b[2..]) && t.isMouse([0x1B] + b)
  }

  /** The state after a lone ESC was flushed, with the head of a tail behind it. */
  function AfterLoneEsc(c: State, b: seq<Byte>): State {
    c.(buffer := b, loneFlushed := true)
  }

  /** `d` swallows exactly `w`, and is `c` afterwards. */
  ghost predicate Swallows(t: Tables, d: State, w: seq<Byte>, c: State) {
    && Fresh(c) && w != []
    && (|| (exists k: nat :: k + |w| <= 128 && d == SwallowingMouse(c, k) && IsMouseRest(w))
        || (exists b: seq<Byte> :: d == AfterLoneEsc(c, b) && IsOrphanedTail(t, b + w)))
  }

  /** What the framer is once the tail is gone. */
  function Rested(d: State, c: State): State {
    if d.discard.Some? then c.(discarded := 0) else c
  }

  lemma RestedIsFresh(d: State, c: State)
    requires Fresh(c)
    ensures Fresh(Rested(d, c))
  {
  }

  lemma TailParts(t: Tables, b: seq<Byte>, n: nat)
    requires IsOrphanedTail(t, b) && n < |b|
    ensures IsIncompleteTail(b[..n])
  {
    var p := b[..n];
    if n < 3 {
      assert p == b[..2][..n];
    } else {
      assert p[..2] == b[..2];
      assert forall i :: 0 <= i < |p[2..]| ==> p[2..][i] == b[2..][i];
    }
  }

  lemma TailIsComplete(t: Tables, b: seq<Byte>, x: seq<Byte>)
    requires IsOrphanedTail(t, b)
    ensures CompleteTailLen(t, b + x) == Some(|b|) && !IsIncompleteTail(b + x)
  {
    var whole := b + x;
    assert b[0] == b[..2][0] && b[1] == b[..2][1];
    assert forall i :: 2 <= i < |b| ==> b[i] == b[2..][i - 2];
    assert forall i :: 0 <= i < |b| ==> whole[i] == b[i];
    FirstAt(whole, IsMouseFinal, 0, |b| - 1);
    assert whole[..|b|] == b;
    AsciiIsValid([ESC] + b);
    hide Valid;
    CompleteTailIsNotIncomplete(t, whole);
  }

  lemma OrphanTurn(t: Tables, c: State, b: seq<Byte>, w: seq<Byte>, x: seq<Byte>)
    requires Fresh(c) && IsOrphanedTail(t, b + w)
    ensures DrainTurn(t, Feed(AfterLoneEsc(c, b), w + x)) == Turn(c.(buffer := x), [], true)
  {
    TailIsComplete(t, b + w, x);
    assert b + (w + x) == b + w + x && (b + w + x)[|b + w|..] == x;
    hide CompleteTailLen, IsIncompleteTail, IsOrphanedTail, SettledTurn;
  }

  lemma OrphanPart(t: Tables, c: State, b: seq<Byte>, w: seq<Byte>, a: seq<Byte>)
    requires Fresh(c) && IsOrphanedTail(t, b + w) && |a| < |w| && a == w[..|a|]
    ensures Push(t, AfterLoneEsc(c, b), a) == (AfterLoneEsc(c, b + a), [])
  {
    assert (b + w)[..|b + a|] == b + a;
    TailParts(t, b + w, |b + a|);
    hide IsIncompleteTail, IsOrphanedTail, SettledTurn;
  }

  /** All of the tail in one piece, with whatever follows. */
  lemma SwallowAll(t: Tables, d: State, w: seq<Byte>, c: State, x: seq<Byte>)
    requires Swallows(t, d, w, c)
    ensures Push(t, d, w + x) == Push(t, Rested(d, c), x)
  {
    hide DrainTurn, IsMouseRest, IsOrphanedTail, Fresh;
    if k: nat :| k + |w| <= 128 && d == SwallowingMouse(c, k) && IsMouseRest(w) {
      MouseTailTurn(t, c, k, w, x);
    } else {
      var b: seq<Byte> :| d == AfterLoneEsc(c, b) && IsOrphanedTail(t, b + w);
      OrphanTurn(t, c, b, w, x);
    }
    var fed := Feed(d, w + x);
    DrainAfterTurn(t, fed);
    assert DrainTurn(t, fed).next == Feed(Rested(d, c), x) by {
      FreshBuffer(c);
      assert [] + x == x;
    }
    hide Drain;
    assert [] + Drain(t, Feed(Rested(d, c), x)).1 == Drain(t, Feed(Rested(d, c), x)).1;
  }

  lemma FreshBuffer(c: State)
    requires Fresh(c)
    ensures c.buffer == [] && c.discard.None? && !c.loneFlushed
  {
  }

  /** A part of the tail. */
  lemma SwallowPart(t: Tables, d: State, w: seq<Byte>, c: State, a: seq<Byte>) returns (d': State)
    requires Swallows(t, d, w, c) && |a| < |w| && a == w[..|a|]
    ensures Push(t, d, a) == (d', []) && Swallows(t, d', w[|a|..], c) && Rested(d', c) == Rested(d, c)
  {
    hide Push, IsOrphanedTail, Fresh, IsMouseRest, Rested;
    if k: nat :| k + |w| <= 128 && d == SwallowingMouse(c, k) && IsMouseRest(w) {
      d' := SwallowingMouse(c, k + |a|);
      MousePart(t, c, k, w, a);
      RestShrinks(w, |a|);
      SameRest(d, d', c);
    } else {
      var b: seq<Byte> :| d == AfterLoneEsc(c, b) && IsOrphanedTail(t, b + w);
      d' := AfterLoneEsc(c, b + a);
      OrphanPart(t, c, b, w, a);
      assert b + w == (b + a) + w[|a|..];
      SameRest(d, d', c);
    }
  }

  lemma SameRest(d: State, d': State, c: State)
    requires d.discard.Some? == d'.discard.Some?
    ensures Rested(d, c) == Rested(d', c)
  {
  }

  /** However the tail and what follows are cut: all that remains is one push of what follows. */
  lemma {:induction false} SwallowPieces(t: Tables, d: State, w: seq<Byte>, c: State, late: seq<seq<Byte>>,
                                         x: seq<Byte>)
    requires Swallows(t, d, w, c) && late != [] && Concat(late) == w + x
    ensures Run(t, d, Pieces(late)) == Push(t, Rested(d, c), x)
    decreases |late|
  {
    hide Run, Push, Pieces, Swallows, Fresh, Rested;
    var a, rest := late[0], late[1..];
    if |late| == 1 {
      OnePiece(t, d, late);
      SwallowAll(t, d, w, c, x);
    } else if |a| < |w| {
      FirstBytes(late, w, x);
      RunPieces(t, d, late);
      hide Concat;
      var d' := SwallowPart(t, d, w, c, a);
      SwallowPieces(t, d', w[|a|..], c, rest, x);
      assert [] + Run(t, d', Pieces(rest)).1 == Run(t, d', Pieces(rest)).1;
    } else {
      TailInFirstPiece(t, d, w, c, late, x);
    }
  }

  lemma FirstBytes(late: seq<seq<Byte>>, w: seq<Byte>, x: seq<Byte>)
    requires late != [] && Concat(late) == w + x && |late[0]| < |w|
    ensures var a := late[0];
            a == w[..|a|] && Concat(late[1..]) == w[|a|..] + x
  {
    var a, rest := late[0], Concat(late[1..]);
    assert a + rest == w + x;
    assert (a + rest)[..|a|] == a && (a + rest)[|a|..] == rest;
    assert (w + x)[..|a|] == w[..|a|] && (w + x)[|a|..] == w[|a|..] + x;
  }

  lemma TailInFirstPiece(t: Tables, d: State, w: seq<Byte>, c: State, late: seq<seq<Byte>>, x: seq<Byte>)
    requires Swallows(t, d, w, c) && late != [] && Concat(late) == w + x && |late[0]| >= |w|
    ensures Run(t, d, Pieces(late)) == Push(t, Rested(d, c), x)
  {
    var a, rest := late[0], late[1..];
    var over := a[|w|..];
    assert a == w + over by { assert a[..|w|] == (a + Concat(rest))[..|w|] == (w + x)[..|w|]; }
    assert x == over + Concat(rest) by {
      assert (w + x)[|w|..] == x;
      assert (a + Concat(rest))[|w|..] == over + Concat(rest);
    }
    var r, later := Rested(d, c), [over] + rest;
    assert Concat(later) == x && later[0] == over && later[1..] == rest;
    RunPieces(t, d, late);
    RunPieces(t, r, later);
    assert Fresh(c);
    RestedIsFresh(d, c);
    hide Run, Push, Pieces, Swallows, Rested, Concat;
    SwallowAll(t, d, w, c, over);
    AnyFragmentation(t, r, later);
  }

  // --- Mouse reports ---

  lemma UnitsAfter(t: Tables, c: State, units: seq<seq<Byte>>)
    requires Fresh(c) && AreUnits(t, units)
    ensures Delivers(Push(t, c, Concat(units)), units)
  {
    hide Drain, Concat, AreUnits;
    assert Feed(c, Concat(units)).buffer == Concat(units);
    UnitsDrain(t, Feed(c, Concat(units)), units);
  }

  /** A mouse report of at most 128 bytes that times out behind its third byte is swallowed
      to its end, however it is cut: exactly the units behind it come out. */
  lemma LateMouseIsSwallowed(t: Tables, s: State, report: seq<Byte>, cut: nat, units: seq<seq<Byte>>,
                             early: seq<seq<Byte>>, late: seq<seq<Byte>>)
    requires Fresh(s) && IsReport(report) && 3 <= cut < |report| <= 128
    requires AreUnits(t, units) && early != [] && late != []
    requires Concat(early) == report[..cut] && Concat(late) == report[cut..] + Concat(units)
    ensures Delivers(Run(t, s, AroundTimeout(early, late)), units)
  {
    hide Run, Push, Flush, Fresh, Concat, AreUnits, Delivers, IsMouseRest, IsReport;
    var d := SwallowingMouse(s, cut);
    RestOfMouse(report, cut);
    MouseTimesOut(t, s, report, cut);
    RunAround(t, s, early, late, d, []);
    assert Swallows(t, d, report[cut..], s);
    RestedIsFresh(d, s);
    hide Swallows, Rested;
    SwallowPieces(t, d, report[cut..], s, late, Concat(units));
    UnitsAfter(t, Rested(d, s), units);
    DeliversAfterNothing(Push(t, Rested(d, s), Concat(units)), units);
  }

  lemma RestOfMouse(report: seq<Byte>, cut: nat)
    requires IsReport(report) && 3 <= cut < |report|
    ensures IsMouseRest(report[cut..])
  {
    assert report[cut..] == report[3..][cut - 3..];
    RestShrinks(report[3..], cut - 3);
  }

  lemma DeliversAfterNothing(r: (State, seq<seq<Byte>>), units: seq<seq<Byte>>)
    ensures Delivers((r.0, [] + r.1), units) <==> Delivers(r, units)
  {
    assert [] + r.1 == r.1;
  }

  /** Past the limit the rest of the read is dropped, units included. */
  lemma OverlongTurn(t: Tables, c: State, k: nat, w: seq<Byte>, x: seq<Byte>)
    requires Fresh(c) && IsMouseRest(w) && k <= 128 < k + |w|
    ensures DrainTurn(t, Feed(SwallowingMouse(c, k), w + x)) == Turn(c.(discarded := 0), [], true)
  {
    var b := w + x;
    var n := Inspected(b, k);
    assert forall i :: 0 <= i < n ==> b[..n][i] == w[i];
    assert PositionFrom(b[..n], IsNotParameter, 0).None?;
    assert DiscardTail(b, k) == TailScan([], k + n, true);
    hide DiscardTail, CompleteTailLen;
    assert [] + b == b;
  }

  /** With the rest and the units in one read, exactly when a timed-out mouse report leaves
      the units and nothing else. */
  lemma LateMouseIsSwallowedIff(t: Tables, s: State, report: seq<Byte>, cut: nat, units: seq<seq<Byte>>)
    requires Fresh(s) && IsReport(report) && 2 <= cut < |report| && AreUnits(t, units)
    ensures Delivers(Run(t, s, AroundTimeout([report[..cut]], [report[cut..] + Concat(units)])), units)
            <==> cut >= 3 && (|report| <= 128 || (cut <= 128 && units == []))
  {
    var early, late := [report[..cut]], [report[cut..] + Concat(units)];
    OneChunk(report[..cut]);
    OneChunk(report[cut..] + Concat(units));
    hide Run, Push, Flush, AreUnits, Delivers, IsReport, AroundTimeout, Concat;
    if cut == 2 {
      assert report[..2] == [ESC, 0x5B] by { ReportOpens(report); }
      BracketIsFlushed(t, s);
      UnswallowedBytes(t, s, early, late, report[cut..], units);
    } else if |report| <= 128 {
      LateMouseIsSwallowed(t, s, report, cut, units, early, late);
    } else {
      OverlongMouse(t, s, report, cut, units, early, late);
    }
  }

  lemma ReportOpens(report: seq<Byte>)
    requires IsReport(report)
    ensures report[..2] == [ESC, 0x5B]
  {
    assert report[..2] == report[..3][..2];
  }

  lemma OverlongMouse(t: Tables, s: State, report: seq<Byte>, cut: nat, units: seq<seq<Byte>>,
                      early: seq<seq<Byte>>, late: seq<seq<Byte>>)
    requires Fresh(s) && IsReport(report) && 3 <= cut < |report| && |report| > 128 && AreUnits(t, units)
    requires early == [report[..cut]] && late == [report[cut..] + Concat(units)]
    requires Concat(early) == report[..cut] && Concat(late) == report[cut..] + Concat(units)
    ensures Delivers(Run(t, s, AroundTimeout(early, late)), units) <==> cut <= 128 && units == []
  {
    hide Run, Push, Flush, Concat, AreUnits, IsReport, IsMouseRest, AroundTimeout;
    var rest := report[cut..];
    RestOfMouse(report, cut);
    MouseTimesOut(t, s, report, cut);
    var d := if cut <= 128 then SwallowingMouse(s, cut) else s.(discarded := cut);
    RunAround(t, s, early, late, d, []);
    OnePiece(t, d, late);
    DeliversAfterNothing(Push(t, d, rest + Concat(units)), units);
    hide Delivers;
    if cut <= 128 {
      OverlongPush(t, s, cut, rest, units);
    } else {
      TooManyBytes(t, d, rest, units);
    }
  }

  lemma TooManyBytes(t: Tables, d: State, rest: seq<Byte>, units: seq<seq<Byte>>)
    requires Fresh(d) && rest != []
    ensures !Delivers(Push(t, d, rest + Concat(units)), units)
  {
    hide Concat, Drain, Delivers;
    assert Feed(d, rest + Concat(units)).buffer == rest + Concat(units);
    WrongNumberOfBytes(t, Feed(d, rest + Concat(units)), units);
  }

  lemma OverlongPush(t: Tables, s: State, k: nat, rest: seq<Byte>, units: seq<seq<Byte>>)
    requires Fresh(s) && IsMouseRest(rest) && k <= 128 < k + |rest|
    ensures Delivers(Push(t, SwallowingMouse(s, k), rest + Concat(units)), units) <==> units == []
  {
    hide Concat, DrainTurn, IsMouseRest;
    var fed := Feed(SwallowingMouse(s, k), rest + Concat(units));
    var next := s.(discarded := 0);
    OverlongTurn(t, s, k, rest, Concat(units));
    DrainAfterTurn(t, fed);
    EmptyDrains(t, next);
    hide Drain;
  }

  // --- A report whose ESC was flushed on its own ---

  lemma EscThenTimeout(t: Tables, s: State)
    requires Fresh(s) && s.awaited == 0
    ensures Push(t, s, [ESC]) == (Feed(s, [ESC]), [])
    ensures Flush(t, Feed(s, [ESC])) == (AfterLoneEsc(s.(held := false), []), [[ESC]])
  {
    assert Feed(s, [ESC]).buffer == [ESC];
    EscDrains(t, Feed(s, [ESC]));
    EscFlushes(t, Feed(s, [ESC]));
    hide Drain, Flush;
  }

  /** ESC times out and is delivered; the rest of the mouse report it opened is swallowed,
      however it is cut, and what follows comes out. */
  lemma OrphanedTailIsSwallowed(t: Tables, s: State, tail: seq<Byte>, units: seq<seq<Byte>>, late: seq<seq<Byte>>)
    requires Fresh(s) && s.awaited == 0 && IsOrphanedTail(t, tail) && AreUnits(t, units)
    requires late != [] && Concat(late) == tail + Concat(units)
    ensures Delivers(Run(t, s, AroundTimeout([[0x1B]], late)), [[0x1B]] + units)
  {
    var c := s.(held := false);
    var d := AfterLoneEsc(c, []);
    OneChunk([ESC]);
    assert Fresh(c);
    hide Run, Push, Flush, Fresh, Concat, AreUnits, AroundTimeout, IsOrphanedTail;
    EscThenTimeout(t, s);
    RunAround(t, s, [[0x1B]], late, d, [[ESC]]);
    assert [] + tail == tail;
    assert tail != [] by { OrphanIsSomething(t, tail); }
    assert Swallows(t, d, tail, c);
    RestedIsFresh(d, c);
    hide Swallows, Rested;
    SwallowPieces(t, d, tail, c, late, Concat(units));
    UnitsAfter(t, Rested(d, c), units);
  }

  lemma OrphanIsSomething(t: Tables, tail: seq<Byte>)
    requires IsOrphanedTail(t, tail)
    ensures tail != []
  {
  }

  /** A second timeout inside that tail, behind `[ <`, does not let the rest through. */
  lemma OrphanTimesOut(t: Tables, c: State, tail: seq<Byte>, cut: nat)
    requires Fresh(c) && IsOrphanedTail(t, tail) && 2 <= cut < |tail|
    ensures Flush(t, AfterLoneEsc(c, tail[..cut])) == (SwallowingMouse(c, cut), [])
  {
    var d := AfterLoneEsc(c, tail[..cut]);
    TailParts(t, tail, cut);
    assert tail[..cut][..2] == tail[..2];
    assert CompleteTailLen(t, tail[..cut]).None? by {
      if CompleteTailLen(t, tail[..cut]).Some? {
        CompleteTailIsNotIncomplete(t, tail[..cut]);
        assert false;
      }
    }
    hide CompleteTailLen, IsIncompleteTail, IsOrphanedTail, SettledTurn;
    assert DrainTurn(t, d) == Turn(d, [], false);
    hide DrainTurn;
    assert Drain(t, d) == (d, []);
    assert FlushIdle(t, d) == (SwallowingMouse(c, cut), []);
    hide FlushIdle;
    assert |Flush(t, d).1| == 0;
  }

  lemma TwiceOrphanedTailIsSwallowed(t: Tables, s: State, tail: seq<Byte>, cut: nat, units: seq<seq<Byte>>,
                                     middle: seq<seq<Byte>>, late: seq<seq<Byte>>)
    requires Fresh(s) && s.awaited == 0 && IsOrphanedTail(t, tail) && 2 <= cut < |tail| && AreUnits(t, units)
    requires middle != [] && late != []
    requires Concat(middle) == tail[..cut] && Concat(late) == tail[cut..] + Concat(units)
    ensures Delivers(Run(t, s, AroundTimeout([[0x1B]], middle) + [Idle] + Pieces(late)), [[0x1B]] + units)
  {
    hide Run, Push, Flush, Concat, AreUnits, AroundTimeout, IsOrphanedTail, IsMouseRest, Swallows, Rested;
    var c := s.(held := false);
    var d, d2 := AfterLoneEsc(c, []), SwallowingMouse(c, cut);
    OneChunk([ESC]);
    assert Fresh(c);
    hide Fresh;
    RestOfOrphan(t, tail, cut, c);
    EscThenTimeout(t, s);
    RunAround(t, s, [[0x1B]], middle, d, [[ESC]]);
    PartPieces(t, c, tail, cut, middle);
    OrphanTimesOut(t, c, tail, cut);
    RunOnAndTimeOut(t, s, AroundTimeout([[0x1B]], middle), late, AfterLoneEsc(c, tail[..cut]), [[ESC]] + [], d2);
    SwallowPieces(t, d2, tail[cut..], c, late, Concat(units));
    RestedIsFresh(d2, c);
    UnitsAfter(t, Rested(d2, c), units);
    assert [[ESC]] + [] == [[ESC]];
  }

  lemma RestOfOrphan(t: Tables, tail: seq<Byte>, cut: nat, c: State)
    requires Fresh(c) && IsOrphanedTail(t, tail) && 2 <= cut < |tail|
    ensures Swallows(t, SwallowingMouse(c, cut), tail[cut..], c)
  {
    hide Fresh;
    assert tail[cut..] == tail[2..][cut - 2..];
    RestShrinks(tail[2..], cut - 2);
    hide IsMouseRest;
    assert cut + |tail[cut..]| <= 128;
  }

  /** A run, a silent timeout, more pieces. */
  lemma RunOnAndTimeOut(t: Tables, s: State, ops: seq<Op>, late: seq<seq<Byte>>, mid: State, out: seq<seq<Byte>>,
                        d: State)
    requires Run(t, s, ops) == (mid, out) && Flush(t, mid) == (d, [])
    ensures var (last, chunks) := Run(t, d, Pieces(late));
            Run(t, s, ops + [Idle] + Pieces(late)) == (last, out + chunks)
  {
    hide Run, Flush, Pieces;
    RunAppend(t, s, ops + [Idle], Pieces(late));
    RunAppend(t, s, ops, [Idle]);
    RunOne(t, mid, Idle);
    assert out + [] == out;
  }

  /** The head of the tail in pieces waits as in one piece. */
  lemma {:induction false} PartPieces(t: Tables, c: State, tail: seq<Byte>, cut: nat, pieces: seq<seq<Byte>>)
    requires Fresh(c) && IsOrphanedTail(t, tail) && cut < |tail| && Concat(pieces) == tail[..cut]
    ensures Run(t, AfterLoneEsc(c, []), Pieces(pieces)) == (AfterLoneEsc(c, tail[..cut]), [])
  {
    assert [] + tail == tail && tail[0..] == tail && tail[..0] == [];
    PartPiecesFrom(t, c, tail, 0, cut, pieces);
  }

  lemma {:induction false} PartPiecesFrom(t: Tables, c: State, tail: seq<Byte>, from: nat, cut: nat,
                                          pieces: seq<seq<Byte>>)
    requires Fresh(c) && IsOrphanedTail(t, tail) && from <= cut < |tail| && Concat(pieces) == tail[from..cut]
    ensures Run(t, AfterLoneEsc(c, tail[..from]), Pieces(pieces)) == (AfterLoneEsc(c, tail[..cut]), [])
    decreases |pieces|
  {
    hide Run, Push, IsOrphanedTail, Fresh;
    if pieces == [] {
      assert |tail[from..cut]| == cut - from == |Concat([])| == 0;
      NoPieces(t, AfterLoneEsc(c, tail[..from]));
    } else {
      var a := pieces[0];
      var to := from + |a|;
      NextPiece(tail, from, cut, pieces);
      OrphanPart(t, c, tail[..from], tail[from..], a);
      RunPieces(t, AfterLoneEsc(c, tail[..from]), pieces);
      hide Concat;
      PartPiecesFrom(t, c, tail, to, cut, pieces[1..]);
      var none: seq<seq<Byte>> := [];
      assert none + none == none;
    }
  }

  lemma NoPieces(t: Tables, s: State)
    ensures Run(t, s, Pieces([])) == (s, [])
  {
    assert Pieces([]) == [];
  }

  lemma NextPiece(tail: seq<Byte>, from: nat, cut: nat, pieces: seq<seq<Byte>>)
    requires from <= cut < |tail| && pieces != [] && Concat(pieces) == tail[from..cut]
    ensures var a := pieces[0];
            && from + |a| <= cut && a == tail[from..][..|a|] && Concat(pieces[1..]) == tail[from + |a|..cut]
            && tail[..from] + tail[from..] == tail && tail[..from] + a == tail[..from + |a|]
  {
    var a, rest := pieces[0], Concat(pieces[1..]);
    assert a + rest == tail[from..cut];
    assert (a + rest)[..|a|] == a && (a + rest)[|a|..] == rest;
  }

  // --- A second timeout ---

  /** What a timeout may find of a control string that is being swallowed and still wait:
      of an OSC, characters of a colour reply; of any other string, the first byte of ST. */
  predicate KeepsWaiting(kind: Byte, middle: seq<Byte>) {
    && |middle| <= 128
    && (if kind == OSC then forall i :: 0 <= i < |middle| ==> IsReplyCharacter(middle[i])
        else middle != [] && middle[|middle| - 1] == 0x1B)
  }

  /** Digits, the letters of `rgb` and `RGB`, `: ; / # ? . _ - +` and ESC. */
  predicate IsReplyCharacter(b: Byte) {
    || 0x2D <= b <= 0x3B || b == 0x1B || b == 0x23 || b == 0x2B || b == 0x3F
    || b == 0x42 || b == 0x47 || b == 0x52 || b == 0x5F || b == 0x62 || b == 0x67 || b == 0x72
  }

  function EscOrNothing(middle: seq<Byte>): seq<Byte> {
    if middle != [] && middle[|middle| - 1] == ESC then [ESC] else []
  }

  /** The state after the second timeout. */
  function TimedOutAgain(s: State, kind: Byte, middle: seq<Byte>): State {
    if KeepsWaiting(kind, middle) then
      Discarding(s, FamilyOf(kind)).(discarded := |middle|, buffer := EscOrNothing(middle))
    else s.(discarded := 0)
  }

  lemma OpenTail(kind: Byte, body: seq<Byte>, end: seq<Byte>, n: nat)
    requires Closes(kind, body, end) && n < |body + end|
    ensures Terminator((body + end)[..n], FamilyOf(kind)).None?
  {
    var b := body + end;
    BodyEndsAlone(kind, body, end);
    hide Terminator, Closes;
    if Terminator(b[..n], FamilyOf(kind)).Some? {
      assert b[..n] + b[n..] == b;
      TerminatorStable(b[..n], b[n..], FamilyOf(kind));
      assert false;
    }
  }

  lemma StillDiscarding(t: Tables, s: State, family: Family, middle: seq<Byte>)
    requires Fresh(s) && family != OrphanedSgrMouseTail && Terminator(middle, family).None?
    ensures var d := Discarding(s, family);
            Push(t, d, middle) == (Feed(d, middle), []) && Feed(d, middle).buffer == middle
    ensures Drain(t, Feed(Discarding(s, family), middle)) == (Feed(Discarding(s, family), middle), [])
  {
    hide Terminator;
    var fed := Feed(Discarding(s, family), middle);
    assert fed.buffer == middle;
    assert DrainTurn(t, fed) == Turn(fed, [], false);
  }

  lemma SecondTimeout(t: Tables, s: State, kind: Byte, middle: seq<Byte>)
    requires Fresh(s) && OpensString(kind) && Terminator(middle, FamilyOf(kind)).None?
    ensures Flush(t, Feed(Discarding(s, FamilyOf(kind)), middle)) == (TimedOutAgain(s, kind, middle), [])
  {
    hide Terminator, Drain, PlausibleTail, KeepsWaiting;
    var fed := Feed(Discarding(s, FamilyOf(kind)), middle);
    StillDiscarding(t, s, FamilyOf(kind), middle);
    WaitingIsPlausible(kind, middle);
    assert FlushIdle(t, fed) == (TimedOutAgain(s, kind, middle), []);
    hide FlushIdle;
    assert |Flush(t, fed).1| == 0;
  }

  lemma WaitingIsPlausible(kind: Byte, middle: seq<Byte>)
    requires OpensString(kind)
    ensures KeepsWaiting(kind, middle) <==> PlausibleTail(FamilyOf(kind), middle) && |middle| <= 128
  {
    if kind == OSC {
      hide IsColorReplyByte, IsReplyCharacter;
      forall i | 0 <= i < |middle|
        ensures IsColorReplyByte(middle[i]) <==> IsReplyCharacter(middle[i])
      {
        ReplyAlphabet(middle[i]);
      }
    }
  }

  lemma ReplyAlphabet(b: Byte)
    ensures IsColorReplyByte(b) <==> IsReplyCharacter(b)
  {
  }

  /** Behind the second timeout: the rest of the string and the units. */
  lemma RestAfterSecond(t: Tables, s: State, kind: Byte, body: seq<Byte>, end: seq<Byte>, cut: nat, again: nat,
                        units: seq<seq<Byte>>)
    requires Fresh(s) && Closes(kind, body, end) && 2 <= cut <= 2 + |body| && cut <= again
    requires again < |StringOf(kind, body, end)| && AreUnits(t, units)
    ensures var str := StringOf(kind, body, end);
            Delivers(Push(t, TimedOutAgain(s, kind, str[cut..again]), str[again..] + Concat(units)), units)
            <==> KeepsWaiting(kind, str[cut..again])
  {
    var str := StringOf(kind, body, end);
    var middle, rest := str[cut..again], str[again..];
    var d := TimedOutAgain(s, kind, middle);
    if KeepsWaiting(kind, middle) {
      WaitingRest(kind, body, end, cut, again);
      hide KeepsWaiting, Closes, Terminator, Concat, AreUnits, Delivers, Drain, StringOf;
      var tail := EscOrNothing(middle) + rest;
      WaitingEnds(kind, tail, Concat(units));
      Regroup(EscOrNothing(middle), rest, Concat(units));
      SwallowedThenUnits(t, Feed(d, rest + Concat(units)), tail, units);
    } else {
      hide KeepsWaiting, Closes, Concat, Delivers, Push, StringOf;
      TooManyBytes(t, d, rest, units);
    }
  }

  /** The terminator is at the very end. */
  ghost predicate ClosedTail(kind: Byte, tail: seq<Byte>) {
    exists body, end :: Closes(kind, body, end) && tail == body + end
  }

  lemma WaitingRest(kind: Byte, body: seq<Byte>, end: seq<Byte>, cut: nat, again: nat)
    requires Closes(kind, body, end) && 2 <= cut <= 2 + |body| && cut <= again < |StringOf(kind, body, end)|
    requires KeepsWaiting(kind, StringOf(kind, body, end)[cut..again])
    ensures var str := StringOf(kind, body, end);
            ClosedTail(kind, EscOrNothing(str[cut..again]) + str[again..])
  {
    hide KeepsWaiting;
    var str := StringOf(kind, body, end);
    var middle, rest := str[cut..again], str[again..];
    if again <= 2 + |body| {
      RestInBody(kind, body, end, cut, again);
      assert Closes(kind, body[again - 2..], end);
      assert [] + rest == rest;
    } else {
      RestInTerminator(kind, body, end, cut, again);
      assert Closes(kind, [], end);
    }
  }

  lemma RestInBody(kind: Byte, body: seq<Byte>, end: seq<Byte>, cut: nat, again: nat)
    requires Closes(kind, body, end) && 2 <= cut <= again <= 2 + |body|
    ensures var str := StringOf(kind, body, end);
            again <= |str| && str[again..] == body[again - 2..] + end && EscOrNothing(str[cut..again]) == []
  {
    var str := StringOf(kind, body, end);
    var middle := str[cut..again];
    assert middle != [] ==> middle[|middle| - 1] == str[again - 1] == body[again - 3];
  }

  lemma RestInTerminator(kind: Byte, body: seq<Byte>, end: seq<Byte>, cut: nat, again: nat)
    requires Closes(kind, body, end) && 2 <= cut <= 2 + |body| < again < |StringOf(kind, body, end)|
    ensures var str := StringOf(kind, body, end); EscOrNothing(str[cut..again]) + str[again..] == [] + end
  {
    var str := StringOf(kind, body, end);
    var middle := str[cut..again];
    assert again == 3 + |body| && end == ST;
    assert str[again - 1] == end[0] && str[again] == end[1];
    assert middle[|middle| - 1] == str[again - 1];
    assert str[again..] == [end[1]];
  }

  lemma WaitingEnds(kind: Byte, tail: seq<Byte>, rest: seq<Byte>)
    requires ClosedTail(kind, tail)
    ensures Terminator(tail + rest, FamilyOf(kind)) == Some(|tail|)
  {
    hide Closes, Terminator;
    var body, end :| Closes(kind, body, end) && tail == body + end;
    BodyEnds(kind, body, end, rest);
  }

  /** A second timeout while the string is being swallowed: it goes on being swallowed, and
      exactly the units come out, if and only if what came in between may be waited on. */
  lemma TwiceLateStringIsSwallowedIff(t: Tables, s: State, kind: Byte, body: seq<Byte>, end: seq<Byte>,
                                      cut: nat, again: nat, units: seq<seq<Byte>>,
                                      early: seq<seq<Byte>>, middle: seq<seq<Byte>>, late: seq<seq<Byte>>)
    requires Fresh(s) && OpensString(kind) && Closes(kind, body, end) && 2 <= cut <= 2 + |body| && cut <= again
    requires again < |StringOf(kind, body, end)| && !IsColorReplyHead(StringOf(kind, body, end)[..cut])
    requires AreUnits(t, units) && early != [] && middle != [] && late != []
    requires Concat(early) == StringOf(kind, body, end)[..cut]
    requires Concat(middle) == StringOf(kind, body, end)[cut..again]
    requires Concat(late) == StringOf(kind, body, end)[again..] + Concat(units)
    ensures Delivers(Run(t, s, AroundTimeout(early, middle) + [Idle] + Pieces(late)), units)
            <==> KeepsWaiting(kind, StringOf(kind, body, end)[cut..again])
  {
    var mid := StringOf(kind, body, end)[cut..again];
    var d := Discarding(s, FamilyOf(kind));
    MiddleIsOpen(kind, body, end, cut, again);
    hide Run, Push, Flush, Concat, AreUnits, Delivers, Closes, StringOf, IsColorReplyHead, KeepsWaiting, Terminator;
    hide Drain, Invariant, CutInsensitive, AroundTimeout, Fresh;
    StringTimesOut(t, s, kind, body, end, cut);
    RunAround(t, s, early, middle, d, []);
    DiscardingIsInsensitive(s, FamilyOf(kind));
    AnyFragmentation(t, d, middle);
    StillDiscarding(t, s, FamilyOf(kind), mid);
    SecondTimeout(t, s, kind, mid);
    var d2 := TimedOutAgain(s, kind, mid);
    var none: seq<seq<Byte>> := [];
    assert none + none == none;
    RunOnAndTimeOut(t, s, AroundTimeout(early, middle), late, Feed(d, mid), [], d2);
    AgainIsInsensitive(s, kind, mid);
    AnyFragmentation(t, d2, late);
    DeliversAfterNothing(Push(t, d2, Concat(late)), units);
    RestAfterSecond(t, s, kind, body, end, cut, again, units);
  }

  lemma MiddleIsOpen(kind: Byte, body: seq<Byte>, end: seq<Byte>, cut: nat, again: nat)
    requires Closes(kind, body, end) && 2 <= cut <= 2 + |body| && cut <= again < |StringOf(kind, body, end)|
    ensures Terminator(StringOf(kind, body, end)[cut..again], FamilyOf(kind)).None?
  {
    var rest := body[cut - 2..];
    assert Closes(kind, rest, end);
    hide Closes, Terminator;
    BodySlice([ESC, kind], body, end, cut, again);
    OpenTail(kind, rest, end, again - cut);
  }

  lemma BodySlice(head: seq<Byte>, body: seq<Byte>, end: seq<Byte>, cut: nat, again: nat)
    requires |head| == 2 && 2 <= cut <= 2 + |body| && cut <= again <= |head + body + end|
    ensures again - cut <= |body[cut - 2..] + end|
    ensures (head + body + end)[cut..again] == (body[cut - 2..] + end)[..again - cut]
  {
    var whole := head + body + end;
    assert whole[cut..] == body[cut - 2..] + end;
    assert whole[cut..again] == whole[cut..][..again - cut];
  }

  lemma AgainIsInsensitive(s: State, kind: Byte, middle: seq<Byte>)
    requires Fresh(s)
    ensures Invariant(TimedOutAgain(s, kind, middle)) && CutInsensitive(TimedOutAgain(s, kind, middle))
  {
  }
}
