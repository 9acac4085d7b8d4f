/** What becomes of the rest of a sequence that timed out half-way: it is swallowed, and
    what comes behind it is not. */
module FramerDiscard {
  import opened Wrappers
  import opened Bytes
  import opened Utf8
  import opened EscapeSyntax
  import opened FramerSpec
  import opened FramerFragments
  import opened FramerBookkeeping
  import opened FramerText
  import opened FramerEvents
  import opened FramerStream

  // --- Control strings (ECMA-48, section 5.6) ---

  const OSC: Byte := 0x5D

  /** DCS, SOS, PM, APC or OSC. */
  predicate OpensString(kind: Byte) {
    kind in [0x50, 0x58, 0x5E, 0x5F, OSC]
  }

  /** A body and what ends it: ST, or BEL for an OSC. */
  predicate Closes(kind: Byte, body: seq<Byte>, end: seq<Byte>) {
    && (end == [0x1B, 0x5C] || (kind == OSC && end == [0x07]))
    && forall i :: 0 <= i < |body| ==> body[i] != 0x1B && (kind == OSC ==> body[i] != 0x07)
  }

  function StringOf(kind: Byte, body: seq<Byte>, end: seq<Byte>): seq<Byte> {
    [0x1B, kind] + body + end
  }

  /** An OSC 10 or 11 is a colour reply; the framer waits for the rest of one. */
  predicate IsColorReplyHead(b: seq<Byte>) {
    |b| >= 5 && b[1] == OSC && b[2] == 0x31 && (b[3] == 0x30 || b[3] == 0x31) && b[4] == 0x3B
  }

  function FamilyOf(kind: Byte): Family {
    if kind == OSC then Osc else StTerminated
  }

  lemma BodyEnds(kind: Byte, body: seq<Byte>, end: seq<Byte>, rest: seq<Byte>)
    requires Closes(kind, body, end)
    ensures Terminator(body + end + rest, FamilyOf(kind)) == Some(|body| + |end|)
  {
    var b := body + end;
    BodyEndsAlone(kind, body, end);
    TerminatorStable(b, rest, FamilyOf(kind));
  }

  lemma BodyEndsAlone(kind: Byte, body: seq<Byte>, end: seq<Byte>)
    requires Closes(kind, body, end)
    ensures Terminator(body + end, FamilyOf(kind)) == Some(|body| + |end|)
  {
    var b, n := body + end, |body|;
    assert forall i :: 0 <= i < n ==> b[i] == body[i];
    if end == ST {
      assert OccursAt(b, ST, n);
      forall i | 0 <= i < n ensures !OccursAt(b, ST, i) {
        if i + 2 <= |b| {
          assert b[i..i + 2][0] == b[i];
        }
      }
      assert FindFrom(b, ST, 0) == Some(n);
      assert kind == OSC ==> forall i :: 0 <= i < |b| ==> !IsBel(b[i]);
    } else {
      FirstAt(b, IsBel, 0, n);
      forall i | 0 <= i ensures !OccursAt(b, ST, i) {
        if i + 2 <= |b| {
          assert b[i..i + 2][0] == b[i];
        }
      }
      assert FindFrom(b, ST, 0).None?;
    }
  }

  lemma StringIsControlString(kind: Byte, body: seq<Byte>, end: seq<Byte>)
    requires OpensString(kind) && Closes(kind, body, end)
    ensures IsControlString(StringOf(kind, body, end))
  {
    var s, n := StringOf(kind, body, end), 2 + |body|;
    assert s[n..] == end && forall i :: 2 <= i < n ==> s[i] == body[i - 2];
    assert IsClosedAt(s, n);
  }

  /** A part of a control string is recognised as nothing and as an open string. */
  lemma HeadIsOpen(t: Tables, kind: Byte, body: seq<Byte>, end: seq<Byte>, cut: nat)
    requires OpensString(kind) && Closes(kind, body, end) && 2 <= cut < |StringOf(kind, body, end)|
    ensures var head := StringOf(kind, body, end)[..cut];
            && Extract(t, head).None? && IsOpenControl(head) && ControlFamily(head) == Some(FamilyOf(kind))
            && head[0] == ESC && head[1] == kind
  {
    var s := StringOf(kind, body, end);
    var head := s[..cut];
    StringIsControlString(kind, body, end);
    ControlStringLen(t, s);
    assert head + s[cut..] == s && head[0] == ESC && head[1] == kind;
    hide Closes, IsControlString, ControlEnd;
    if EscapeLen(t, head).Some? {
      EscapeLenStable(t, head, s[cut..]);
      assert false;
    }
    OpenerHead(t, head);
    hide EscapeLen, StartsWith;
  }

  lemma OpenerHead(t: Tables, head: seq<Byte>)
    requires |head| >= 2 && head[0] == ESC && OpensString(head[1])
    ensures EscapeLen(t, head) == ControlEnd(head) && ControlFamily(head).Some?
    ensures !StartsWith(head, PASTE_START)
  {
    hide ControlEnd;
    assert head[..2] == [ESC, head[1]];
    assert !StartsWith(head, ESC_ESC) && !StartsWith(head, CSI);
    NotPrefix(head, ESC_ESC_MOUSE, 1);
    NotPrefix(head, PASTE_START, 1);
  }

  // --- The timeout ---

  /** Nothing buffered, nothing under way. */
  predicate Fresh(s: State) {
    Clean(s) && s.buffer == [] && Invariant(s)
  }

  function Discarding(s: State, family: Family): State {
    s.(buffer := [], discard := Some(family), discarded := 0)
  }

  lemma StringTimesOut(t: Tables, s: State, kind: Byte, body: seq<Byte>, end: seq<Byte>, cut: nat)
    requires Fresh(s) && OpensString(kind) && Closes(kind, body, end) && 2 <= cut < |StringOf(kind, body, end)|
    requires !IsColorReplyHead(StringOf(kind, body, end)[..cut])
    ensures var head := StringOf(kind, body, end)[..cut];
            Push(t, s, head) == (Feed(s, head), []) && Flush(t, Feed(s, head)) == (Discarding(s, FamilyOf(kind)), [])
  {
    var head := StringOf(kind, body, end)[..cut];
    var fed := Feed(s, head);
    HeadIsOpen(t, kind, body, end, cut);
    hide Extract, Closes, StringOf, ControlFamily, ControlEnd;
    assert fed.buffer == head;
    WaitingTurn(t, fed);
    hide DrainTurn;
    assert Drain(t, fed) == (fed, []);
    NoOtherHead(head);
    hide IsOpenControl, IsIncompleteMouse, IsOpenPaste, IsOpenSchemeReport, IsColorReplyHead;
    assert FlushIdle(t, fed) == (Discarding(s, FamilyOf(kind)), []);
    hide FlushIdle;
    assert |Flush(t, fed).1| == 0;
  }

  lemma NoOtherHead(head: seq<Byte>)
    requires |head| >= 2 && head[0] == ESC && OpensString(head[1]) && !IsColorReplyHead(head)
    ensures !IsIncompleteMouse(head) && !IsOpenPaste(head) && !IsOpenColorReply(head) && !IsOpenSchemeReport(head)
  {
    hide FindFrom, ControlEnd;
    NotPrefix(head, CSI_MOUSE, 1);
    NotPrefix(head, PASTE_START, 1);
    NotPrefix(head, [0x1B, 0x5B, 0x3F], 1);
  }

  // --- Runs ---

  lemma {:induction false} RunAppend(t: Tables, s: State, a: seq<Op>, b: seq<Op>)
    ensures var (mid, first) := Run(t, s, a);
            var (last, second) := Run(t, mid, b);
            Run(t, s, a + b) == (last, first + second)
    decreases |a|
  {
    hide Apply;
    if a == [] {
      assert a + b == b && [] + Run(t, s, b).1 == Run(t, s, b).1;
    } else {
      RunStep(t, s, a + b);
      RunStep(t, s, a);
      assert (a + b)[1..] == a[1..] + b;
      var (next, chunks) := Apply(t, s, a[0]);
      hide Run;
      RunAppend(t, next, a[1..], b);
      var (mid, first) := Run(t, next, a[1..]);
      Regroup(chunks, first, Run(t, mid, b).1);
    }
  }

  /** Pieces, a timeout, more pieces. */
  function AroundTimeout(early: seq<seq<Byte>>, late: seq<seq<Byte>>): seq<Op> {
    Pieces(early) + [Idle] + Pieces(late)
  }

  /** If the timeout leaves `d` and emits `out`, the rest is one push to `d`. */
  lemma RunAround(t: Tables, s: State, early: seq<seq<Byte>>, late: seq<seq<Byte>>, d: State, out: seq<seq<Byte>>)
    requires Fresh(s) && early != [] && late != []
    requires Push(t, s, Concat(early)) == (Feed(s, Concat(early)), [])
    requires Flush(t, Feed(s, Concat(early))) == (d, out)
    ensures var (last, chunks) := Run(t, d, Pieces(late));
            Run(t, s, AroundTimeout(early, late)) == (last, out + chunks)
  {
    AnyFragmentation(t, s, early);
    hide Push, Flush, Run, Concat;
    var fed := Feed(s, Concat(early));
    RunAppend(t, s, Pieces(early), [Idle] + Pieces(late));
    RunAppend(t, fed, [Idle], Pieces(late));
    RunOne(t, fed, Idle);
    Regroup(Pieces(early), [Idle], Pieces(late));
    var (last, chunks) := Run(t, d, Pieces(late));
    assert [] + (out + chunks) == out + chunks;
  }

  /** The outcome in which exactly the units behind the swallowed bytes come out. */
  predicate Delivers(r: (State, seq<seq<Byte>>), units: seq<seq<Byte>>) {
    r.1 == units && r.0.buffer == [] && Clean(r.0)
  }

  lemma DiscardingIsInsensitive(s: State, family: Family)
    requires Fresh(s) && family != OrphanedSgrMouseTail
    ensures Invariant(Discarding(s, family)) && CutInsensitive(Discarding(s, family))
  {
  }

  /** The terminator ends the discard and takes everything in front of it along. */
  lemma DiscardEnds(t: Tables, d: State, n: nat)
    requires d.discard.Some? && d.discard != Some(OrphanedSgrMouseTail) && !d.loneFlushed
    requires Terminator(d.buffer, d.discard.value) == Some(n)
    ensures var r := DrainTurn(t, d);
            && r.again && r.chunks == [] && r.next == d.(buffer := d.buffer[n..], discard := None, discarded := 0)
  {
    hide Terminator;
  }

  lemma SwallowedThenUnits(t: Tables, d: State, tail: seq<Byte>, units: seq<seq<Byte>>)
    requires d.discard.Some? && d.discard != Some(OrphanedSgrMouseTail) && !d.loneFlushed
    requires d.buffer == tail + Concat(units)
    requires Terminator(d.buffer, d.discard.value) == Some(|tail|) && AreUnits(t, units)
    ensures Delivers(Drain(t, d), units)
  {
    hide Terminator, AreUnits, Concat, DrainTurn, Drain;
    DiscardEnds(t, d, |tail|);
    var next := d.(buffer := d.buffer[|tail|..], discard := None, discarded := 0);
    assert d.buffer[|tail|..] == Concat(units);
    UnitsDrain(t, next, units);
    DrainAfterTurn(t, d);
    assert [] + Drain(t, next).1 == Drain(t, next).1;
  }

  /** From a clean state no byte is lost, so too many or too few bytes cannot come out as
      the units. */
  lemma WrongNumberOfBytes(t: Tables, s: State, units: seq<seq<Byte>>)
    requires Clean(s) && |s.buffer| != |Concat(units)|
    ensures !Delivers(Drain(t, s), units)
  {
    hide Drain, Concat;
    CleanDrainConserves(t, s);
    assert Concat(units) + [] == Concat(units);
    if Delivers(Drain(t, s), units) {
      assert false;
    }
  }

  /** A byte that the discard consumes too much is missing, or the discard goes on. */
  lemma BrokenTerminator(t: Tables, d: State, units: seq<seq<Byte>>)
    requires (d.discard == Some(Osc) || d.discard == Some(StTerminated)) && !d.loneFlushed
    requires d.buffer == [0x5C] + Concat(units)
    ensures !Delivers(Drain(t, d), units)
  {
    hide Concat, FindFrom, PositionFrom;
    var n := Terminator(d.buffer, d.discard.value);
    if n.Some? {
      assert n.value >= 2;
      DiscardEnds(t, d, n.value);
      var next := d.(buffer := d.buffer[n.value..], discard := None, discarded := 0);
      WrongNumberOfBytes(t, next, units);
      hide DrainTurn;
      DrainAfterTurn(t, d);
      hide Drain;
      assert [] + Drain(t, next).1 == Drain(t, next).1;
    } else {
      assert DrainTurn(t, d) == Turn(d, [], false);
    }
  }

  /** A control string that times out anywhere is swallowed to its end, however it is cut
      before and after: exactly the units behind it come out. The one exception is a timeout
      between the two bytes of ST. */
  lemma LateStringIsSwallowedIff(t: Tables, s: State, kind: Byte, body: seq<Byte>, end: seq<Byte>, cut: nat,
                                 units: seq<seq<Byte>>, early: seq<seq<Byte>>, late: seq<seq<Byte>>)
    requires Fresh(s) && OpensString(kind) && Closes(kind, body, end) && 2 <= cut < |StringOf(kind, body, end)|
    requires !IsColorReplyHead(StringOf(kind, body, end)[..cut])
    requires AreUnits(t, units) && early != [] && late != []
    requires Concat(early) == StringOf(kind, body, end)[..cut]
    requires Concat(late) == StringOf(kind, body, end)[cut..] + Concat(units)
    ensures Delivers(Run(t, s, AroundTimeout(early, late)), units)
            <==> !(end == [0x1B, 0x5C] && cut == |StringOf(kind, body, end)| - 1)
  {
    hide Run, Push, Flush, Fresh, Concat, AreUnits, Delivers, Closes, StringOf, IsColorReplyHead;
    StringTimesOut(t, s, kind, body, end, cut);
    LateBytes(t, s, early, late, FamilyOf(kind), units);
    RestOfString(t, s, kind, body, end, cut, units);
  }

  /** Behind the timeout only the bytes matter. */
  lemma LateBytes(t: Tables, s: State, early: seq<seq<Byte>>, late: seq<seq<Byte>>, family: Family,
                  units: seq<seq<Byte>>)
    requires Fresh(s) && early != [] && late != [] && family != OrphanedSgrMouseTail
    requires Push(t, s, Concat(early)) == (Feed(s, Concat(early)), [])
    requires Flush(t, Feed(s, Concat(early))) == (Discarding(s, family), [])
    ensures Delivers(Run(t, s, AroundTimeout(early, late)), units)
            <==> Delivers(Push(t, Discarding(s, family), Concat(late)), units)
  {
    hide Run, Push, Flush, Fresh, Concat, Invariant, CutInsensitive;
    var d := Discarding(s, family);
    RunAround(t, s, early, late, d, []);
    DiscardingIsInsensitive(s, family);
    AnyFragmentation(t, d, late);
    assert [] + Push(t, d, Concat(late)).1 == Push(t, d, Concat(late)).1;
  }

  /** What is left of the string, and the units, in one push. */
  lemma RestOfString(t: Tables, s: State, kind: Byte, body: seq<Byte>, end: seq<Byte>, cut: nat,
                     units: seq<seq<Byte>>)
    requires Fresh(s) && Closes(kind, body, end) && 2 <= cut < |StringOf(kind, body, end)| && AreUnits(t, units)
    ensures Delivers(Push(t, Discarding(s, FamilyOf(kind)), StringOf(kind, body, end)[cut..] + Concat(units)), units)
            <==> !(end == [0x1B, 0x5C] && cut == |StringOf(kind, body, end)| - 1)
  {
    WhatIsLeft(kind, body, end, cut);
    hide Closes, StringOf, Concat, AreUnits, Delivers, Terminator, Drain, Push, Fresh;
    var rest := StringOf(kind, body, end)[cut..];
    var fed := Feed(Discarding(s, FamilyOf(kind)), rest + Concat(units));
    DiscardPush(t, s, FamilyOf(kind), rest + Concat(units));
    if cut <= 2 + |body| {
      BodyEnds(kind, body[cut - 2..], end, Concat(units));
      SwallowedThenUnits(t, fed, rest, units);
    } else {
      BrokenTerminator(t, fed, units);
    }
  }

  /** Behind the cut there is a shorter body with its end, or the second byte of ST. */
  lemma WhatIsLeft(kind: Byte, body: seq<Byte>, end: seq<Byte>, cut: nat)
    requires Closes(kind, body, end) && 2 <= cut < |StringOf(kind, body, end)|
    ensures |StringOf(kind, body, end)| == 2 + |body| + |end|
    ensures var rest := StringOf(kind, body, end)[cut..];
            if cut <= 2 + |body| then rest == body[cut - 2..] + end && Closes(kind, body[cut - 2..], end)
            else rest == [0x5C] && end == ST && cut == |StringOf(kind, body, end)| - 1
    ensures end == ST ==> |end| == 2
  {
  }

  lemma DiscardPush(t: Tables, s: State, family: Family, data: seq<Byte>)
    requires Fresh(s)
    ensures Push(t, Discarding(s, family), data) == Drain(t, Feed(Discarding(s, family), data))
    ensures Feed(Discarding(s, family), data).buffer == data && !Feed(Discarding(s, family), data).loneFlushed
    ensures Feed(Discarding(s, family), data).discard == Some(family)
  {
    assert [] + data == data;
  }

  lemma OneChunk(b: seq<Byte>)
    ensures Concat([b]) == b
  {
    assert [b][1..] == [] && b + [] == b;
  }

  /** `ESC P x ESC`, a timeout, `\ q`: the ST is not seen, and the `q` is swallowed too. */
  lemma SplitTerminatorExample(t: Tables)
    requires t.isKey([0x71])
    ensures !Delivers(Run(t, Initial(true), AroundTimeout([[0x1B, 0x50, 0x78, 0x1B]], [[0x5C, 0x71]])), [[0x71]])
  {
    var early, late := [0x1B, 0x50, 0x78, 0x1B], [0x5C, 0x71];
    var units: seq<seq<Byte>> := [[0x71]];
    assert StringOf(0x50, [0x78], ST) == [0x1B, 0x50, 0x78, 0x1B, 0x5C];
    OneChunk(early);
    OneChunk(late);
    OneChunk([0x71]);
    assert [0x71][..1] == [0x71];
    assert IsUnit(t, [0x71]);
    hide Run, AroundTimeout, Delivers, IsUnit;
    LateStringIsSwallowedIff(t, Initial(true), 0x50, [0x78], ST, 4, units, [early], [late]);
  }

  // --- Colour-scheme reports ---

  /** `ESC [ ? 9 9 7 ; 1 n` says dark, with a 2 light. */
  predicate IsSchemeReport(b: seq<Byte>) {
    exists digit: Byte ::
      (digit == 0x31 || digit == 0x32) && b == [0x1B, 0x5B, 0x3F, 0x39, 0x39, 0x37, 0x3B, digit, 0x6E]
  }

  lemma ReportHead(t: Tables, report: seq<Byte>, cut: nat)
    requires IsSchemeReport(report) && 2 <= cut < |report|
    ensures var head := report[..cut];
            && Extract(t, head).None? && head[0] == ESC && head[1] == 0x5B
            && (cut >= 3 ==> IsOpenSchemeReport(head) && head[2] == 0x3F)
            && (cut == 2 ==> head == [ESC, 0x5B])
  {
    var head := report[..cut];
    assert head[0] == ESC && head[1] == 0x5B;
    assert forall j :: 2 <= j < |head| ==> head[j] < 0x40;
    assert PositionFrom(head, IsCsiFinal, 2).None?;
    assert |head| >= 3 ==> head[2] == 0x3F;
    CsiHead(t, head);
    if cut >= 3 {
      assert report == DARK_REPORT || report == LIGHT_REPORT;
      assert head[..3] == [0x1B, 0x5B, 0x3F];
      assert report != head;
    }
    hide EscapeLen, PositionFrom, Valid;
  }

  lemma CsiHead(t: Tables, head: seq<Byte>)
    requires |head| >= 2 && head[0] == ESC && head[1] == 0x5B && (|head| >= 3 ==> head[2] == 0x3F)
    ensures EscapeLen(t, head) == CsiEnd(head, IsCsiFinal) && !StartsWith(head, PASTE_START)
  {
    hide CsiEnd;
    assert head[..2] == CSI;
    NotPrefix(head, ESC_ESC, 1);
    NotPrefix(head, ESC_ESC_MOUSE, 1);
    if |head| >= 3 {
      NotPrefix(head, CSI_MOUSE, 2);
      NotPrefix(head, PASTE_START, 2);
    }
  }

  lemma ReportTimesOut(t: Tables, s: State, report: seq<Byte>, cut: nat)
    requires Fresh(s) && IsSchemeReport(report) && 3 <= cut < |report|
    ensures Push(t, s, report[..cut]) == (Feed(s, report[..cut]), [])
    ensures Flush(t, Feed(s, report[..cut])) == (Discarding(s, HostColorSchemeCsi), [])
  {
    var head := report[..cut];
    var fed := Feed(s, head);
    ReportHead(t, report, cut);
    hide Extract, IsSchemeReport;
    assert fed.buffer == head;
    WaitingTurn(t, fed);
    hide DrainTurn;
    assert Drain(t, fed) == (fed, []);
    OnlyScheme(head);
    hide IsOpenControl, IsIncompleteMouse, IsOpenPaste, IsOpenSchemeReport, IsOpenColorReply;
    assert FlushIdle(t, fed) == (Discarding(s, HostColorSchemeCsi), []);
    hide FlushIdle;
    assert |Flush(t, fed).1| == 0;
  }

  lemma OnlyScheme(head: seq<Byte>)
    requires |head| >= 3 && head[0] == ESC && head[1] == 0x5B && head[2] == 0x3F
    ensures !IsIncompleteMouse(head) && !IsOpenPaste(head) && !IsOpenColorReply(head)
  {
    hide FindFrom, ControlEnd;
    NotPrefix(head, CSI_MOUSE, 2);
    NotPrefix(head, PASTE_START, 2);
  }

  lemma ReportEnds(report: seq<Byte>, cut: nat, rest: seq<Byte>)
    requires IsSchemeReport(report) && 2 <= cut < |report|
    ensures Terminator(report[cut..] + rest, HostColorSchemeCsi) == Some(|report| - cut)
  {
    var b := report[cut..] + rest;
    assert forall i :: 0 <= i < |report| - cut ==> b[i] == report[cut + i];
    FirstAt(b, IsReportFinal, 0, |report| - cut - 1);
  }

  lemma RestOfReport(t: Tables, s: State, report: seq<Byte>, cut: nat, units: seq<seq<Byte>>)
    requires Fresh(s) && IsSchemeReport(report) && 3 <= cut < |report| && AreUnits(t, units)
    ensures Delivers(Push(t, Discarding(s, HostColorSchemeCsi), report[cut..] + Concat(units)), units)
  {
    hide Concat, AreUnits, Delivers, Terminator, Drain, Push, Fresh, IsSchemeReport;
    ReportEnds(report, cut, Concat(units));
    DiscardPush(t, s, HostColorSchemeCsi, report[cut..] + Concat(units));
    SwallowedThenUnits(t, Feed(Discarding(s, HostColorSchemeCsi), report[cut..] + Concat(units)), report[cut..], units);
  }

  /** `ESC [` alone is a key, or nothing; either way nothing stays behind. */
  lemma BracketIsFlushed(t: Tables, s: State)
    requires Fresh(s)
    ensures var fed := Feed(s, [ESC, 0x5B]);
            Push(t, s, [ESC, 0x5B]) == (fed, []) && Flush(t, fed).0 == s
  {
    var b := [ESC, 0x5B];
    var fed := Feed(s, b);
    hide Extract, Valid, ControlEnd, FindFrom;
    BracketWaits(t);
    assert fed.buffer == b;
    WaitingTurn(t, fed);
    hide DrainTurn;
    assert Drain(t, fed) == (fed, []);
    assert b[1..] == [0x5B] && !IsIncompleteScalar(b) && !IsEscapedIncompleteScalar(b);
    assert FlushIdle(t, fed).0 == s;
    hide FlushIdle;
  }

  /** Bytes that nothing swallows come out or stay, in front of the units. */
  lemma UnswallowedBytes(t: Tables, s: State, early: seq<seq<Byte>>, late: seq<seq<Byte>>, rest: seq<Byte>,
                         units: seq<seq<Byte>>)
    requires Fresh(s) && early != [] && late != [] && rest != [] && Concat(late) == rest + Concat(units)
    requires Push(t, s, Concat(early)) == (Feed(s, Concat(early)), [])
    requires Flush(t, Feed(s, Concat(early))).0 == s
    ensures !Delivers(Run(t, s, AroundTimeout(early, late)), units)
  {
    hide Run, Push, Flush, Concat, Invariant;
    var out := Flush(t, Feed(s, Concat(early))).1;
    RunAround(t, s, early, late, s, out);
    AnyFragmentation(t, s, late);
    PushConserves(t, s, rest + Concat(units));
    var chunks := Push(t, s, rest + Concat(units)).1;
    ConcatAppend(out, chunks);
    hide AroundTimeout;
  }

  lemma PushConserves(t: Tables, s: State, data: seq<Byte>)
    requires Fresh(s)
    ensures Concat(Push(t, s, data).1) + Push(t, s, data).0.buffer == data
  {
    hide Drain, Concat;
    assert Feed(s, data).buffer == data;
    CleanDrainConserves(t, Feed(s, data));
  }

  /** A colour-scheme report that times out behind its third byte is swallowed to its end;
      one that times out behind `ESC [` is not. */
  lemma LateReportIsSwallowedIff(t: Tables, s: State, report: seq<Byte>, cut: nat, units: seq<seq<Byte>>,
                                 early: seq<seq<Byte>>, late: seq<seq<Byte>>)
    requires Fresh(s) && IsSchemeReport(report) && 2 <= cut < |report|
    requires AreUnits(t, units) && early != [] && late != []
    requires Concat(early) == report[..cut] && Concat(late) == report[cut..] + Concat(units)
    ensures Delivers(Run(t, s, AroundTimeout(early, late)), units) <==> cut >= 3
  {
    hide Run, Push, Flush, Fresh, Concat, AreUnits, Delivers, IsSchemeReport;
    if cut >= 3 {
      ReportTimesOut(t, s, report, cut);
      LateBytes(t, s, early, late, HostColorSchemeCsi, units);
      RestOfReport(t, s, report, cut, units);
    } else {
      ReportHead(t, report, cut);
      BracketIsFlushed(t, s);
      UnswallowedBytes(t, s, early, late, report[cut..], units);
    }
  }

  // --- Mouse reports ---

  /** `;` and digits, then `M` or `m`: what is left of a report. */
  predicate IsMouseRest(b: seq<Byte>) {
    && b != [] && (b[|b| - 1] == 0x4D || b[|b| - 1] == 0x6D)
    && forall i :: 0 <= i < |b| - 1 ==> 0x30 <= b[i] <= 0x39 || b[i] == 0x3B
  }

  /** `ESC [ <` and the rest. */
  predicate IsReport(b: seq<Byte>) {
    |b| >= 4 && b[..3] == [0x1B, 0x5B, 0x3C] && IsMouseRest(b[3..])
  }

  function SwallowingMouse(c: State, discarded: nat): State {
    c.(buffer := [], discard := Some(OrphanedSgrMouseTail), discarded := discarded)
  }

  lemma RestShrinks(w: seq<Byte>, n: nat)
    requires IsMouseRest(w) && n < |w|
    ensures IsMouseRest(w[n..])
  {
    assert forall i :: 0 <= i < |w| - n ==> w[n..][i] == w[n + i];
  }

  lemma MouseHead(t: Tables, report: seq<Byte>, cut: nat)
    requires IsReport(report) && 3 <= cut < |report|
    ensures var head := report[..cut];
            Extract(t, head).None? && IsIncompleteMouse(head) && head[1] != ESC
  {
    var head := report[..cut];
    assert head[..3] == CSI_MOUSE;
    assert forall j :: 3 <= j < |head| ==> head[j] == report[3..][j - 3];
    assert forall j :: 2 <= j < |head| ==> !IsMouseFinal(head[j]);
    assert PositionFrom(head, IsMouseFinal, 2).None?;
    MouseEscapeLen(t, head);
    assert head[2] == head[..3][2];
    NotPrefix(head, PASTE_START, 2);
    assert All(head[3..], IsParameter);
    hide EscapeLen, PositionFrom;
  }

  lemma MouseTimesOut(t: Tables, s: State, report: seq<Byte>, cut: nat)
    requires Fresh(s) && IsReport(report) && 3 <= cut < |report|
    ensures Push(t, s, report[..cut]) == (Feed(s, report[..cut]), [])
    ensures Flush(t, Feed(s, report[..cut]))
            == (if cut <= 128 then SwallowingMouse(s, cut) else s.(discarded := cut), [])
  {
    var head := report[..cut];
    var fed := Feed(s, head);
    MouseHead(t, report, cut);
    hide Extract, IsReport, IsIncompleteMouse;
    assert fed.buffer == head;
    WaitingTurn(t, fed);
    hide DrainTurn;
    assert Drain(t, fed) == (fed, []);
    assert FlushIdle(t, fed) == (DiscardMouse(fed), []);
    hide FlushIdle;
    assert |Flush(t, fed).1| == 0;
  }

  /** Within the limit the rest of the report goes, and nothing behind it. */
  lemma MouseTailTurn(t: Tables, c: State, k: nat, w: seq<Byte>, x: seq<Byte>)
    requires Fresh(c) && IsMouseRest(w) && k + |w| <= 128
    ensures DrainTurn(t, Feed(SwallowingMouse(c, k), w + x))
            == Turn(c.(buffer := x, discarded := 0), [], true)
  {
    var b := w + x;
    var n := Inspected(b, k);
    assert forall i :: 0 <= i < |w| ==> b[..n][i] == w[i];
    FirstAt(b[..n], IsNotParameter, 0, |w| - 1);
    assert b[|w|..] == x && b[|w| - 1] == w[|w| - 1];
    assert DiscardTail(b, k) == TailScan(x, k, true);
    hide DiscardTail, CompleteTailLen;
    assert [] + b == b;
  }

  /** A part of the rest is swallowed silently. */
  lemma MousePart(t: Tables, c: State, k: nat, w: seq<Byte>, a: seq<Byte>)
    requires Fresh(c) && IsMouseRest(w) && k + |w| <= 128 && |a| < |w| && a == w[..|a|]
    ensures Push(t, SwallowingMouse(c, k), a) == (SwallowingMouse(c, k + |a|), [])
  {
    assert Inspected(a, k) == |a| && a[..|a|] == a;
    assert forall i :: 0 <= i < |a| ==> a[i] == w[i];
    assert PositionFrom(a, IsNotParameter, 0).None?;
    assert DiscardTail(a, k) == TailScan([], k + |a|, false);
    hide DiscardTail, CompleteTailLen;
    assert [] + a == a;
  }
}
