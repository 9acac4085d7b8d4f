/** Colour queries: while replies are awaited, a timeout behind an ESC does not tear the reply
    that the ESC opens. */
module FramerHold {
  import opened Wrappers
  import opened Bytes
  import opened Utf8
  import opened EscapeSyntax
  import opened FramerSpec
  import opened FramerFragments
  import opened FramerBookkeeping
  import opened FramerText
  import opened FramerStream
  import opened FramerDiscard

  /** What happens to the framer: a query goes out, tracking is switched on, a unit arrives
      in one read, or with a timeout behind its ESC. */
  datatype Happening = Query | Track | Whole(unit: seq<Byte>) | Torn(unit: seq<Byte>)

  function OpsOf(h: Happening): seq<Op> {
    match h
    case Query => [QuerySent]
    case Track => [TrackSchemes]
    case Whole(unit) => [Bytes(unit)]
    case Torn(unit) => [Bytes([ESC]), Idle, Bytes(if unit == [] then [] else unit[1..])]
  }

  function AllOps(hs: seq<Happening>): seq<Op> {
    if hs == [] then [] else AllOps(hs[..|hs| - 1]) + OpsOf(hs[|hs| - 1])
  }

  predicate HasUnit(h: Happening) {
    h.Whole? || h.Torn?
  }

  /** The units that arrive. */
  function Arrived(hs: seq<Happening>): seq<seq<Byte>> {
    if hs == [] then []
    else
      var h := hs[|hs| - 1];
      Arrived(hs[..|hs| - 1]) + if HasUnit(h) then [h.unit] else []
  }

  /** An escape sequence that the reply parser knows. */
  predicate IsReply(t: Tables, h: Happening) {
    HasUnit(h) && h.unit != [] && h.unit[0] == ESC && !StartsWith(h.unit, PASTE_START) && t.isColorReply(h.unit)
  }

  /** A colour-scheme report. */
  predicate IsReport(t: Tables, h: Happening) {
    HasUnit(h) && IsSchemeReport(h.unit) && !t.isColorReply(h.unit)
  }

  predicate Tracked(hs: seq<Happening>) {
    Track in hs
  }

  /** A query goes out: on request, or because of a report while tracking. */
  predicate Queries(t: Tables, hs: seq<Happening>, i: nat)
    requires i < |hs|
  {
    hs[i].Query? || (IsReport(t, hs[i]) && Tracked(hs[..i]))
  }

  function Replies(t: Tables, hs: seq<Happening>): nat {
    if hs == [] then 0 else Replies(t, hs[..|hs| - 1]) + if IsReply(t, hs[|hs| - 1]) then 1 else 0
  }

  predicate LastQuery(t: Tables, hs: seq<Happening>, i: nat) {
    i < |hs| && Queries(t, hs, i) && forall j :: i < j < |hs| ==> !Queries(t, hs, j)
  }

  /** Fewer than two replies since the last query. */
  predicate Awaiting(t: Tables, hs: seq<Happening>) {
    exists i :: 0 <= i < |hs| && LastQuery(t, hs, i) && Replies(t, hs[i + 1..]) < 2
  }

  /** Units are units, and a timeout tears one only while replies are awaited. */
  ghost predicate Legal(t: Tables, hs: seq<Happening>) {
    forall i :: 0 <= i < |hs| && HasUnit(hs[i]) ==>
      IsUnit(t, hs[i].unit) && (hs[i].Torn? ==> hs[i].unit[0] == ESC && Awaiting(t, hs[..i]))
  }

  // --- Units ---

  lemma UnitMeans(t: Tables, h: Happening)
    requires HasUnit(h) && IsUnit(t, h.unit)
    ensures h.unit != [] && Extract(t, h.unit).Some? && Extract(t, h.unit).value.1 == |h.unit|
    ensures Extract(t, h.unit).value.0 == HostColor <==> IsReply(t, h)
    ensures Extract(t, h.unit).value.0 == SchemeChanged <==> IsReport(t, h)
  {
    UnitAlone(t, h.unit);
    hide IsUnit, EscapeLen, Valid, ExtractPaste, FirstCharLen;
    assert h.unit[..|h.unit|] == h.unit;
    ReportBytes(h.unit);
    PasteIsPaste(h.unit);
  }

  lemma ReportBytes(u: seq<Byte>)
    ensures IsSchemeReport(u) <==> u == DARK_REPORT || u == LIGHT_REPORT
    ensures IsSchemeReport(u) ==> u != [] && u[0] == ESC && !StartsWith(u, PASTE_START)
  {
    var dark: Byte, light: Byte := 0x31, 0x32;
    assert DARK_REPORT == [0x1B, 0x5B, 0x3F, 0x39, 0x39, 0x37, 0x3B, dark, 0x6E];
    assert LIGHT_REPORT == [0x1B, 0x5B, 0x3F, 0x39, 0x39, 0x37, 0x3B, light, 0x6E];
    if IsSchemeReport(u) {
      NotPrefix(u, PASTE_START, 2);
    }
  }

  lemma PasteIsPaste(u: seq<Byte>)
    ensures StartsWith(u, PASTE_START) && ExtractPaste(u).Some? ==> ExtractPaste(u).value.0.Paste?
  {
    hide FindFrom, Valid;
  }

  /** A unit by itself: one chunk, and the bookkeeping of its event. */
  lemma UnitPushed(t: Tables, s: State, unit: seq<Byte>)
    requires Clean(s) && s.buffer == unit && IsUnit(t, unit) && Extract(t, unit).Some?
    ensures Drain(t, s) == (AfterEvent(s, Extract(t, unit).value.0).(buffer := []), [unit])
  {
    UnitAlone(t, unit);
    UnitStarts(t, unit);
    assert unit + [] == unit;
    UnitIsNotDoubled(unit, []);
    hide IsUnit, Extract, StartsWith, Drain, AfterEvent;
    UnitTurns(t, s, unit);
    var next := AfterEvent(s, Extract(t, unit).value.0).(buffer := []);
    hide DrainTurn;
    DrainAfterTurn(t, s);
    EventKeepsClean(s, Extract(t, unit).value.0);
    EmptyDrains(t, next);
    assert [unit] + Drain(t, next).1 == [unit];
  }

  lemma EventKeepsClean(s: State, event: Event)
    requires Clean(s)
    ensures Clean(AfterEvent(s, event).(buffer := []))
  {
  }

  lemma UnitTurns(t: Tables, s: State, unit: seq<Byte>)
    requires Clean(s) && s.buffer == unit && !StartsWith(unit, ESC_ESC)
    requires Extract(t, unit).Some? && Extract(t, unit).value.1 == |unit|
    ensures DrainTurn(t, s) == Turn(AfterEvent(s, Extract(t, unit).value.0).(buffer := []), [unit], true)
  {
    hide Extract, StartsWith, AfterEvent;
    assert unit[..|unit|] == unit && unit[|unit|..] == [];
  }

  // --- One happening ---

  function Less(n: nat): nat {
    if n > 0 then n - 1 else 0
  }

  /** What a happening does to the framer. */
  function Then(t: Tables, s: State, h: Happening): State {
    if h.Query? || (IsReport(t, h) && s.tracking) then s.(awaited := 2)
    else if h.Track? then s.(tracking := true)
    else if IsReply(t, h) then s.(awaited := Less(s.awaited))
    else s
  }

  lemma EventMeans(t: Tables, s: State, h: Happening, held: bool)
    requires Fresh(s) && !s.held && HasUnit(h) && IsUnit(t, h.unit)
    ensures Push(t, s.(held := held), h.unit) == (Then(t, s, h), [h.unit])
    ensures Extract(t, h.unit).Some?
  {
    UnitMeans(t, h);
    hide IsUnit, Extract, IsReply, IsReport, Then, AfterEvent;
    var fed := Feed(s.(held := held), h.unit);
    assert fed.buffer == h.unit && Clean(fed);
    UnitPushed(t, fed, h.unit);
    hide Drain;
    AfterMeans(t, s, h, held, Extract(t, h.unit).value.0);
  }

  lemma AfterMeans(t: Tables, s: State, h: Happening, held: bool, e: Event)
    requires Fresh(s) && !s.held && HasUnit(h) && !(IsReply(t, h) && IsReport(t, h))
    requires (e == HostColor <==> IsReply(t, h)) && (e == SchemeChanged <==> IsReport(t, h))
    ensures AfterEvent(Feed(s.(held := held), h.unit), e).(buffer := []) == Then(t, s, h)
  {
    hide IsReply, IsReport;
  }

  /** The unit is not torn: the ESC is held, and the rest completes it. */
  lemma TornIsJoined(t: Tables, s: State, unit: seq<Byte>)
    requires Fresh(s) && !s.held && s.awaited > 0 && IsUnit(t, unit) && unit[0] == ESC
    ensures Run(t, s, OpsOf(Torn(unit))) == (Then(t, s, Torn(unit)), [unit])
  {
    var waiting := Feed(s.(held := true), [ESC]);
    UnitMeans(t, Torn(unit));
    EscIsHeld(t, s);
    EventMeans(t, s, Torn(unit), true);
    hide IsUnit, Then, Drain, Flush, Run, Fresh, Push;
    FeedTwice(s.(held := true), [ESC], unit[1..], unit);
    PushIsDrain(t, waiting, unit[1..], s.(held := true), unit);
    hide Feed;
    HeldRun(t, s, unit, waiting);
  }

  lemma FeedTwice(s: State, a: seq<Byte>, b: seq<Byte>, c: seq<Byte>)
    requires a + b == c
    ensures Feed(Feed(s, a), b) == Feed(s, c)
  {
    assert s.buffer + a + b == s.buffer + (a + b);
  }

  lemma PushIsDrain(t: Tables, s: State, a: seq<Byte>, s': State, b: seq<Byte>)
    requires Feed(s, a) == Feed(s', b)
    ensures Push(t, s, a) == Push(t, s', b)
  {
    hide Drain;
  }

  lemma EscIsHeld(t: Tables, s: State)
    requires Fresh(s) && !s.held && s.awaited > 0
    ensures Push(t, s, [ESC]) == (Feed(s, [ESC]), [])
    ensures Flush(t, Feed(s, [ESC])) == (Feed(s.(held := true), [ESC]), [])
  {
    assert Feed(s, [ESC]).buffer == [ESC];
    EscDrains(t, Feed(s, [ESC]));
    EscFlushes(t, Feed(s, [ESC]));
    hide Drain, Flush;
  }

  lemma HeldRun(t: Tables, s: State, unit: seq<Byte>, waiting: State)
    requires unit != [] && Push(t, s, [ESC]) == (Feed(s, [ESC]), [])
    requires Flush(t, Feed(s, [ESC])) == (waiting, [])
    ensures var (last, chunks) := Push(t, waiting, unit[1..]);
            Run(t, s, OpsOf(Torn(unit))) == (last, chunks)
  {
    hide Push, Flush, Feed;
    var ops := OpsOf(Torn(unit));
    RunStep(t, s, ops);
    assert ops[1..] == [Idle, Bytes(unit[1..])];
    RunTwo(t, Feed(s, [ESC]), Idle, Bytes(unit[1..]));
    hide Run;
    var chunks := Push(t, waiting, unit[1..]).1;
    assert [] + ([] + chunks) == chunks;
  }

  lemma OneHappening(t: Tables, s: State, h: Happening)
    requires Fresh(s) && !s.held
    requires HasUnit(h) ==> IsUnit(t, h.unit) && (h.Torn? ==> h.unit[0] == ESC && s.awaited > 0)
    ensures Run(t, s, OpsOf(h)) == (Then(t, s, h), if HasUnit(h) then [h.unit] else [])
  {
    hide Run, Push;
    match h
    case Query => RunOne(t, s, QuerySent);
    case Track => RunOne(t, s, TrackSchemes);
    case Whole(unit) =>
      EventMeans(t, s, h, false);
      hide IsUnit;
      RunOne(t, s, Bytes(unit));
    case Torn(unit) => TornIsJoined(t, s, unit);
  }

  // --- All of them ---

  function Left(replies: nat): nat {
    if replies < 2 then 2 - replies else 0
  }

  /** `n` replies are awaited. */
  predicate Counts(t: Tables, hs: seq<Happening>, n: nat) {
    || (n == 0 && forall i :: 0 <= i < |hs| ==> !Queries(t, hs, i))
    || exists i :: 0 <= i < |hs| && LastQuery(t, hs, i) && n == Left(Replies(t, hs[i + 1..]))
  }

  lemma CountsMeans(t: Tables, hs: seq<Happening>, n: nat)
    requires Counts(t, hs, n)
    ensures n > 0 <==> Awaiting(t, hs)
  {
    hide Queries, Replies;
  }

  lemma QueriesSame(t: Tables, hs: seq<Happening>, h: Happening, i: nat)
    requires i < |hs|
    ensures Queries(t, hs + [h], i) <==> Queries(t, hs, i)
  {
    assert (hs + [h])[..i] == hs[..i];
  }

  lemma RepliesStep(t: Tables, hs: seq<Happening>, h: Happening, i: nat)
    requires i <= |hs|
    ensures Replies(t, (hs + [h])[i..]) == Replies(t, hs[i..]) + if IsReply(t, h) then 1 else 0
  {
    hide IsReply;
    var behind := (hs + [h])[i..];
    assert behind[..|behind| - 1] == hs[i..] && behind[|behind| - 1] == h;
  }

  lemma LastQueryStep(t: Tables, hs: seq<Happening>, h: Happening, i: nat)
    requires LastQuery(t, hs, i) && !Queries(t, hs + [h], |hs|)
    ensures LastQuery(t, hs + [h], i)
  {
    hide Queries;
    forall j | 0 <= j < |hs|
      ensures Queries(t, hs + [h], j) <==> Queries(t, hs, j)
    {
      QueriesSame(t, hs, h, j);
    }
  }

  lemma CountsStep(t: Tables, hs: seq<Happening>, h: Happening, n: nat)
    requires Counts(t, hs, n)
    ensures Counts(t, hs + [h], if Queries(t, hs + [h], |hs|) then 2 else if IsReply(t, h) then Less(n) else n)
  {
    hide Queries, IsReply, Replies;
    var more := hs + [h];
    if Queries(t, more, |hs|) {
      NothingBehind(t, more);
      assert LastQuery(t, more, |hs|);
    } else {
      hide LastQuery;
      if i :| 0 <= i < |hs| && LastQuery(t, hs, i) && n == Left(Replies(t, hs[i + 1..])) {
        LastQueryStep(t, hs, h, i);
        RepliesStep(t, hs, h, i + 1);
      } else {
        forall i | 0 <= i < |hs|
          ensures !Queries(t, more, i)
        {
          QueriesSame(t, hs, h, i);
        }
      }
    }
  }

  lemma NothingBehind(t: Tables, hs: seq<Happening>)
    ensures Replies(t, hs[|hs|..]) == 0
  {
  }

  /** After any happenings the framer is at rest, no ESC is held, exactly the units came out,
      and it awaits as many replies as it should. */
  ghost predicate Settled(t: Tables, hs: seq<Happening>, r: (State, seq<seq<Byte>>)) {
    && r.1 == Arrived(hs) && Fresh(r.0) && !r.0.held
    && r.0.tracking == Tracked(hs) && Counts(t, hs, r.0.awaited)
  }

  lemma {:induction false} UnitsDespiteTimeouts(t: Tables, splitEsc: bool, hs: seq<Happening>)
    requires Legal(t, hs)
    ensures Settled(t, hs, Run(t, Initial(splitEsc), AllOps(hs)))
    decreases |hs|
  {
    hide Run, Legal, Settled, OpsOf, IsUnit, Awaiting, HasUnit, Initial;
    var start := Initial(splitEsc);
    if hs == [] {
      NothingYet(t, splitEsc);
    } else {
      var front, h := hs[..|hs| - 1], hs[|hs| - 1];
      ShorterIsLegal(t, hs);
      UnitsDespiteTimeouts(t, splitEsc, front);
      var (s, chunks) := Run(t, start, AllOps(front));
      RunAppend(t, start, AllOps(front), OpsOf(h));
      hide AllOps;
      SettledStep(t, front, h, s, chunks);
      assert hs == front + [h];
    }
  }

  lemma NothingYet(t: Tables, splitEsc: bool)
    ensures Settled(t, [], Run(t, Initial(splitEsc), AllOps([])))
  {
  }

  lemma ShorterIsLegal(t: Tables, hs: seq<Happening>)
    requires Legal(t, hs) && hs != []
    ensures var front, h := hs[..|hs| - 1], hs[|hs| - 1];
            && Legal(t, front)
            && (HasUnit(h) ==> IsUnit(t, h.unit) && (h.Torn? ==> h.unit[0] == ESC && Awaiting(t, front)))
  {
    hide IsUnit, Awaiting;
    var front := hs[..|hs| - 1];
    assert forall i :: 0 <= i < |front| ==> front[i] == hs[i] && front[..i] == hs[..i];
  }

  lemma SettledStep(t: Tables, front: seq<Happening>, h: Happening, s: State, chunks: seq<seq<Byte>>)
    requires Settled(t, front, (s, chunks))
    requires HasUnit(h) ==> IsUnit(t, h.unit) && (h.Torn? ==> h.unit[0] == ESC && Awaiting(t, front))
    ensures var (last, more) := Run(t, s, OpsOf(h));
            Settled(t, front + [h], (last, chunks + more))
  {
    hide IsUnit, Run, Awaiting, Counts, IsReply, IsReport, OpsOf, Queries;
    CountsMeans(t, front, s.awaited);
    OneHappening(t, s, h);
    CountsStep(t, front, h, s.awaited);
    ArrivedStep(front, h);
    QueriesLast(t, front, h);
    ReplyIsNoReport(t, h);
    assert chunks + [] == chunks;
    hide Arrived, Tracked, AllOps;
  }

  lemma ArrivedStep(front: seq<Happening>, h: Happening)
    ensures Arrived(front + [h]) == Arrived(front) + if HasUnit(h) then [h.unit] else []
    ensures Tracked(front + [h]) <==> Tracked(front) || h.Track?
  {
    var hs := front + [h];
    assert hs[..|hs| - 1] == front && hs[|hs| - 1] == h;
  }

  lemma QueriesLast(t: Tables, front: seq<Happening>, h: Happening)
    ensures Queries(t, front + [h], |front|) <==> h.Query? || (IsReport(t, h) && Tracked(front))
  {
    assert (front + [h])[..|front|] == front;
  }

  lemma ReplyIsNoReport(t: Tables, h: Happening)
    ensures !(IsReply(t, h) && IsReport(t, h)) && (IsReply(t, h) ==> HasUnit(h))
  {
  }

  /** An ESC that a timeout finds alone is held back exactly while replies are awaited: then
      what comes out is the units so far, else the ESC too. The next timeout delivers it, and
      no later ESC is held. */
  lemma EscIsHeldIff(t: Tables, splitEsc: bool, hs: seq<Happening>)
    requires Legal(t, hs)
    ensures var start := Initial(splitEsc);
            Run(t, start, AllOps(hs) + [Bytes([0x1B]), Idle]).1
            == if Awaiting(t, hs) then Arrived(hs) else Arrived(hs) + [[0x1B]]
    ensures Run(t, Initial(splitEsc), AllOps(hs) + [Bytes([0x1B]), Idle, Idle]).1 == Arrived(hs) + [[0x1B]]
    ensures Run(t, Initial(splitEsc), AllOps(hs) + [Bytes([0x1B]), Idle, Idle, Bytes([0x1B]), Idle]).1
            == Arrived(hs) + [[0x1B], [0x1B]]
  {
    var start := Initial(splitEsc);
    UnitsDespiteTimeouts(t, splitEsc, hs);
    var (s, chunks) := Run(t, start, AllOps(hs));
    CountsMeans(t, hs, s.awaited);
    hide Awaiting, Counts, Legal, AllOps, Arrived;
    RunAppend(t, start, AllOps(hs), [Bytes([0x1B]), Idle]);
    RunAppend(t, start, AllOps(hs), [Bytes([0x1B]), Idle, Idle]);
    RunAppend(t, start, AllOps(hs), [Bytes([0x1B]), Idle, Idle, Bytes([0x1B]), Idle]);
    hide Run;
    EscAfter(t, s);
    assert chunks + [] == chunks;
  }

  lemma EscAfter(t: Tables, s: State)
    requires Fresh(s) && !s.held
    ensures Run(t, s, [Bytes([ESC]), Idle]).1 == if s.awaited > 0 then [] else [[ESC]]
    ensures Run(t, s, [Bytes([ESC]), Idle, Idle]).1 == [[ESC]]
    ensures Run(t, s, [Bytes([ESC]), Idle, Idle, Bytes([ESC]), Idle]).1 == [[ESC], [ESC]]
  {
    var first, second := [Bytes([ESC]), Idle, Idle], [Bytes([ESC]), Idle];
    var given := s.(awaited := 0, loneFlushed := true);
    EscTwoTimeouts(t, s);
    EscOneTimeout(t, s);
    EscInWindow(t, given);
    assert first + second == [Bytes([ESC]), Idle, Idle, Bytes([ESC]), Idle];
    hide Run, Fresh;
    RunAppend(t, s, first, second);
    assert [[ESC]] + [[ESC]] == [[ESC], [ESC]];
  }

  lemma EscOneTimeout(t: Tables, s: State)
    requires Fresh(s) && !s.held
    ensures Run(t, s, [Bytes([ESC]), Idle]).1 == if s.awaited > 0 then [] else [[ESC]]
  {
    var fed := Feed(s, [ESC]);
    assert fed.buffer == [ESC];
    EscDrains(t, fed);
    EscFlushes(t, fed);
    hide Drain, Flush;
    RunTwo(t, s, Bytes([ESC]), Idle);
  }

  lemma EscTwoTimeouts(t: Tables, s: State)
    requires Fresh(s) && !s.held
    ensures Run(t, s, [Bytes([ESC]), Idle, Idle]) == (s.(awaited := 0, loneFlushed := true), [[ESC]])
  {
    var fed := Feed(s, [ESC]);
    assert fed.buffer == [ESC];
    EscDrains(t, fed);
    EscFlushes(t, fed);
    var ops := [Bytes([ESC]), Idle, Idle];
    assert ops[1..] == [Idle, Idle];
    hide Drain, Flush;
    RunStep(t, s, ops);
    RunTwo(t, fed, Idle, Idle);
    hide Run;
    if s.awaited > 0 {
      EscFlushes(t, fed.(held := true));
    } else {
      WindowIsQuiet(t, Flush(t, fed).0);
    }
    var none: seq<seq<Byte>> := [];
    assert none + [[ESC]] == [[ESC]] && [[ESC]] + none == [[ESC]];
  }

  /** Right behind a delivered ESC another one is delivered at its first timeout. */
  lemma EscInWindow(t: Tables, s: State)
    requires s.loneFlushed && s.buffer == [] && s.discard.None? && s.awaited == 0
    ensures Run(t, s, [Bytes([ESC]), Idle]).1 == [[ESC]]
  {
    var fed := Feed(s, [ESC]);
    var waiting := fed.(loneFlushed := false);
    assert fed.buffer == [ESC];
    assert !IsIncompleteTail([ESC]) && CompleteTailLen(t, [ESC]).None?;
    EscDrains(t, waiting);
    EscFlushes(t, waiting);
    LoneEscIsIncomplete(t);
    assert DrainTurn(t, fed) == Turn(waiting, [], false) by {
      hide Extract, CompleteTailLen, IsIncompleteTail;
    }
    hide DrainTurn, Flush;
    assert Drain(t, fed) == (waiting, []);
    hide Drain;
    RunTwo(t, s, Bytes([ESC]), Idle);
    hide Run;
  }
}
