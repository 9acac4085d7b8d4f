/** What each unit of input is reported as, and which complete sequences are not delivered. */
module FramerMeaning {
  import opened Wrappers
  import opened Bytes
  import opened Utf8
  import opened EscapeSyntax
  import opened FramerSpec
  import opened FramerFragments
  import opened FramerBookkeeping
  import opened FramerText
  import opened FramerEvents
  import opened FramerStream
  import opened FramerDiscard
  import opened FramerTails
  import opened FramerRecovery
  import opened FramerHold

  // --- Events ---

  /** An escape sequence other than a paste. */
  predicate IsEscape(u: seq<Byte>) {
    u != [] && u[0] == 0x1B && !StartsWith(u, PASTE_START)
  }

  const FOCUS_IN: seq<Byte> := [0x1B, 0x5B, 0x49]
  const FOCUS_OUT: seq<Byte> := [0x1B, 0x5B, 0x4F]

  /** An escape sequence that is no colour reply, no focus report and no colour-scheme report. */
  predicate IsOther(t: Tables, u: seq<Byte>) {
    IsEscape(u) && !t.isColorReply(u) && u != FOCUS_IN && u != FOCUS_OUT && !IsSchemeReport(u)
  }

  /** What the event says about the bytes of its unit. */
  predicate Means(t: Tables, u: seq<Byte>, e: Event) {
    match e
    case Paste(content) => u == PASTE_START + content + PASTE_END
    case HostColor => IsEscape(u) && t.isColorReply(u)
    case FocusGained => u == FOCUS_IN && !t.isColorReply(u)
    case FocusLost => u == FOCUS_OUT && !t.isColorReply(u)
    case SchemeChanged => IsSchemeReport(u) && !t.isColorReply(u)
    case Mouse => IsOther(t, u) && t.isMouse(u)
    case Key => u != [] && (u[0] != 0x1B || (IsOther(t, u) && !t.isMouse(u) && t.isKey(u)))
    case Unsupported => IsOther(t, u) && !t.isMouse(u) && !t.isKey(u)
  }

  /** A unit is reported as the one event that says so of its bytes. */
  lemma UnitMeaning(t: Tables, u: seq<Byte>, e: Event)
    requires IsUnit(t, u)
    ensures EventOf(t, u) == Some(e) <==> Means(t, u, e)
  {
    UnitAlone(t, u);
    UnitStarts(t, u);
    if StartsWith(u, PASTE_START) {
      PasteMeaning(t, u, e);
    } else {
      hide IsUnit, Classify, Means, StartsWith, Extract, EventOf;
      ReadAlone(t, u);
      ReportBytes(u);
      NoPaste(u, e);
      if u[0] == ESC {
        ClassifyMeans(t, u, e);
      } else {
        CharMeans(t, u, e);
      }
    }
  }

  /** What a unit that is no paste is read as. */
  lemma ReadAlone(t: Tables, u: seq<Byte>)
    requires u != [] && !StartsWith(u, PASTE_START) && u != [ESC]
    requires Extract(t, u).Some? && Extract(t, u).value.1 == |u|
    ensures EventOf(t, u) == Some(if u[0] == ESC then Classify(t, u) else Key)
  {
    hide EscapeLen, Valid, FirstCharLen, ExtractPaste, StartsWith, Classify;
    assert u[..|u|] == u;
  }

  lemma ClassifyMeans(t: Tables, u: seq<Byte>, e: Event)
    requires u != [] && u[0] == ESC && !StartsWith(u, PASTE_START)
    requires IsSchemeReport(u) <==> u == DARK_REPORT || u == LIGHT_REPORT
    requires e.Paste? ==> u != PASTE_START + e.content + PASTE_END
    ensures Classify(t, u) == e <==> Means(t, u, e)
  {
    hide StartsWith, IsSchemeReport;
  }

  lemma CharMeans(t: Tables, u: seq<Byte>, e: Event)
    requires u != [] && u[0] != ESC && (e.Paste? ==> u != PASTE_START + e.content + PASTE_END)
    requires IsSchemeReport(u) ==> u[0] == ESC
    ensures Key == e <==> Means(t, u, e)
  {
    hide StartsWith, IsSchemeReport;
  }

  lemma NoPaste(u: seq<Byte>, e: Event)
    requires !StartsWith(u, PASTE_START)
    ensures e.Paste? ==> u != PASTE_START + e.content + PASTE_END
  {
    assert e.Paste? ==> PASTE_START + e.content + PASTE_END == PASTE_START + (e.content + PASTE_END);
  }

  lemma PasteMeaning(t: Tables, u: seq<Byte>, e: Event)
    requires IsUnit(t, u) && StartsWith(u, PASTE_START) && u != [] && u[0] == ESC
    ensures EventOf(t, u) == Some(e) <==> Means(t, u, e)
  {
    assert IsPaste(u) by {
      if !IsPaste(u) {
        OpenerOnlyInPaste(t, u);
        assert false;
      }
    }
    var content :| u == PASTE_START + content + PASTE_END && Valid(content)
                   && FindFrom(PASTE_START + content, PASTE_END, 0).None?;
    ReportBytes(u);
    assert u != FOCUS_IN && u != FOCUS_OUT by { assert |u| >= 12; }
    hide FindFrom, Valid, IsUnit, IsPaste, IsSchemeReport;
    PasteExtract(t, content);
    if e.Paste? {
      OneContent(content, e.content);
    }
    hide Extract;
  }

  lemma OneContent(a: seq<Byte>, b: seq<Byte>)
    ensures PASTE_START + a + PASTE_END == PASTE_START + b + PASTE_END ==> a == b
  {
    var x, y := PASTE_START + a + PASTE_END, PASTE_START + b + PASTE_END;
    assert x[6..|x| - 6] == a && y[6..|y| - 6] == b;
  }

  ghost predicate AllMean(t: Tables, units: seq<seq<Byte>>, events: seq<Event>) {
    |events| == |units| && forall i :: 0 <= i < |units| ==> Means(t, units[i], events[i])
  }

  lemma {:induction false} UnitsMean(t: Tables, units: seq<seq<Byte>>)
    requires AreUnits(t, units)
    ensures AllMean(t, units, EventsOf(t, units))
    decreases |units|
  {
    if units != [] {
      hide IsUnit, Means, Extract;
      UnitAlone(t, units[0]);
      UnitYields(t, units[0]);
      UnitMeaning(t, units[0], EventOf(t, units[0]).value);
      hide EventOf;
      UnitsMean(t, units[1..]);
    }
  }

  lemma UnitYields(t: Tables, u: seq<Byte>)
    requires Extract(t, u).Some?
    ensures EventOf(t, u).Some?
  {
    hide Extract;
  }

  /** A stream of units, cut anywhere, is reported as one event for each, which says what
      the unit is. */
  lemma StreamMeaning(t: Tables, splitEsc: bool, units: seq<seq<Byte>>, fragments: seq<seq<Byte>>)
    requires AreUnits(t, units) && fragments != [] && Concat(fragments) == Concat(units)
    ensures AllMean(t, units, EventsOf(t, Run(t, Initial(splitEsc), Pieces(fragments)).1))
  {
    hide Run, AreUnits, AllMean, EventsOf;
    UnitsSurviveFragmentation(t, splitEsc, units, fragments);
    UnitsMean(t, units);
  }

  // --- Colour replies ---

  /** A timeout inside a colour reply, behind its number, changes nothing. */
  lemma ReplyWaits(t: Tables, s: State, body: seq<Byte>, end: seq<Byte>, cut: nat)
    requires Fresh(s) && Closes(OSC, body, end) && 5 <= cut < |StringOf(OSC, body, end)|
    requires IsColorReplyHead(StringOf(OSC, body, end)[..cut])
    ensures var fed := Feed(s, StringOf(OSC, body, end)[..cut]);
            Push(t, s, StringOf(OSC, body, end)[..cut]) == (fed, []) && Flush(t, fed) == (fed, [])
  {
    var head := StringOf(OSC, body, end)[..cut];
    var fed := Feed(s, head);
    HeadIsOpen(t, OSC, body, end, cut);
    assert IsOpenColorReply(head) by { hide IsOpenControl, ControlFamily; }
    NotPrefix(head, CSI_MOUSE, 1);
    hide Extract, Closes, StringOf, ControlFamily, IsOpenControl, IsOpenColorReply;
    assert fed.buffer == head;
    WaitingTurn(t, fed);
    hide DrainTurn;
    assert Drain(t, fed) == (fed, []);
    assert Patient(fed.buffer);
    PatientIdle(t, fed);
  }

  /** A colour reply that a timeout finds behind its number is delivered whole, with what
      follows, however it is cut. */
  lemma LateReplyIsDelivered(t: Tables, s: State, body: seq<Byte>, end: seq<Byte>, cut: nat, units: seq<seq<Byte>>,
                             early: seq<seq<Byte>>, late: seq<seq<Byte>>)
    requires Fresh(s) && Closes(OSC, body, end) && 5 <= cut < |StringOf(OSC, body, end)|
    requires IsColorReplyHead(StringOf(OSC, body, end)[..cut]) && Valid(StringOf(OSC, body, end))
    requires AreUnits(t, units) && early != [] && late != []
    requires Concat(early) == StringOf(OSC, body, end)[..cut]
    requires Concat(late) == StringOf(OSC, body, end)[cut..] + Concat(units)
    ensures Delivers(Run(t, s, AroundTimeout(early, late)), [StringOf(OSC, body, end)] + units)
  {
    var str := StringOf(OSC, body, end);
    var fed := Feed(s, str[..cut]);
    StringIsControlString(OSC, body, end);
    assert IsUnit(t, str);
    ReplyWaits(t, s, body, end, cut);
    hide Run, Push, Flush, AreUnits, Delivers, Closes, StringOf, IsColorReplyHead, IsUnit, AroundTimeout, Valid;
    assert fed.buffer == str[..cut];
    RunAround(t, s, early, late, fed, []);
    assert Invariant(fed) && CutInsensitive(fed);
    hide Invariant, CutInsensitive;
    AnyFragmentation(t, fed, late);
    OneMoreUnit(t, str, units);
    RestOfReply(t, fed, str, cut, units);
    DeliversAfterNothing(Push(t, fed, Concat(late)), [str] + units);
  }

  lemma OneMoreUnit(t: Tables, u: seq<Byte>, units: seq<seq<Byte>>)
    requires IsUnit(t, u) && AreUnits(t, units)
    ensures AreUnits(t, [u] + units) && Concat([u] + units) == u + Concat(units)
  {
    hide IsUnit;
    assert ([u] + units)[1..] == units;
  }

  lemma RestOfReply(t: Tables, fed: State, str: seq<Byte>, cut: nat, units: seq<seq<Byte>>)
    requires Clean(fed) && cut <= |str| && fed.buffer == str[..cut]
    requires AreUnits(t, [str] + units) && Concat([str] + units) == str + Concat(units)
    ensures Delivers(Push(t, fed, str[cut..] + Concat(units)), [str] + units)
  {
    hide AreUnits, Concat, Drain;
    var s := Feed(fed, str[cut..] + Concat(units));
    assert s.buffer == str + Concat(units) by {
      assert str[..cut] + str[cut..] == str;
      assert str[..cut] + (str[cut..] + Concat(units)) == str[..cut] + str[cut..] + Concat(units);
    }
    UnitsDrain(t, s, [str] + units);
  }

  // --- Sequences that are not delivered ---

  /** A control string is delivered exactly if it is UTF-8. Else it waits, whatever comes
      behind it, and a timeout drops it. */
  lemma StringDeliveredIffUtf8(t: Tables, s: State, str: seq<Byte>, rest: seq<Byte>)
    requires Fresh(s) && IsControlString(str)
    ensures Valid(str) ==> Push(t, s, str).1 == [str] && Push(t, s, str).0.buffer == []
    ensures !Valid(str) ==> Push(t, s, str + rest) == (Feed(s, str + rest), [])
    ensures !Valid(str) ==> Flush(t, Feed(s, str)) == (s, [])
  {
    hide EscapeLen, Valid, IsControlString, Extract;
    if Valid(str) {
      assert IsUnit(t, str);
      hide IsUnit;
      assert Feed(s, str).buffer == str;
      UnitAlone(t, str);
      UnitPushed(t, Feed(s, str), str);
      hide Drain, AfterEvent;
      EventEmpties(Feed(s, str), Extract(t, str).value.0);
    } else {
      var fed := Feed(s, str + rest);
      assert fed.buffer == str + rest;
      BrokenString(t, str, rest);
      WaitingTurn(t, fed);
      hide DrainTurn;
      BrokenStringTimesOut(t, s, str);
    }
  }

  lemma BrokenStringTimesOut(t: Tables, s: State, str: seq<Byte>)
    requires Fresh(s) && IsControlString(str) && !Valid(str)
    ensures Flush(t, Feed(s, str)) == (s, [])
  {
    var fed := Feed(s, str);
    assert fed.buffer == str && str + [] == str;
    BrokenString(t, str, []);
    ControlStringLen(t, str);
    assert str[0] == ESC && OpensString(str[1]);
    OpenerHead(t, str);
    NoSchemeNoMouse(str);
    assert !IsOpenControl(str);
    hide Valid, IsControlString, Extract, EscapeLen, ControlEnd, OpensString, IsOpenControl, IsOpenPaste;
    hide IsIncompleteMouse, IsOpenSchemeReport, FlushIdle, IsIncompleteScalar, IsEscapedIncompleteScalar;
    WaitingTurn(t, fed);
    hide DrainTurn;
    assert Drain(t, fed) == (fed, []);
    hide Drain;
    PlainIdle(t, fed);
    assert |Flush(t, fed).1| == 0;
  }

  lemma NoSchemeNoMouse(b: seq<Byte>)
    requires |b| >= 2 && b[0] == ESC && OpensString(b[1])
    ensures !IsIncompleteMouse(b) && !IsOpenSchemeReport(b) && !IsOpenPaste(b) && b != [ESC]
    ensures !IsIncompleteScalar(b) && !IsEscapedIncompleteScalar(b)
  {
    hide FindFrom;
    NotPrefix(b, CSI_MOUSE, 1);
    NotPrefix(b, PASTE_START, 1);
    NotPrefix(b, [0x1B, 0x5B, 0x3F], 1);
    assert b[1..][0] == b[1] && |b[1..]| >= 1;
  }

  lemma EventEmpties(s: State, e: Event)
    ensures AfterEvent(s, e).(buffer := []).buffer == []
  {
  }

  lemma BrokenString(t: Tables, str: seq<Byte>, rest: seq<Byte>)
    requires IsControlString(str) && !Valid(str)
    ensures var b := str + rest; |b| >= 2 && b[1] != ESC && Extract(t, b).None?
  {
    var b := str + rest;
    ControlStringLen(t, str);
    assert str[0] == ESC && str[1] in [0x5D, 0x50, 0x5F, 0x5E, 0x58];
    assert b[0] == str[0] && b[1] == str[1];
    NotPrefix(b, PASTE_START, 1);
    hide EscapeLen, IsControlString;
    EscapeLenStable(t, str, rest);
    assert b[..|str|] == str;
  }

  /** A character is delivered exactly if it is a key. */
  lemma CharDeliveredIffKey(t: Tables, s: State, u: seq<Byte>)
    requires Fresh(s) && u != [] && u[0] != ESC && ScalarLen(u) == |u|
    ensures Push(t, s, u).1 == if t.isKey(u) then [u] else []
    ensures Push(t, s, u).0.buffer == if t.isKey(u) then [] else u
  {
    var fed := Feed(s, u);
    assert fed.buffer == u && u[..|u|] == u;
    FirstCharLenIsScalarLen(u);
    NotPrefix(u, PASTE_START, 0);
    NotPrefix(u, ESC_ESC, 0);
    hide StartsWith, FirstCharLen, ScalarLen;
    if t.isKey(u) {
      CharIsUnit(t, u);
      UnitPushed(t, fed, u);
      hide Drain, AfterEvent;
      EventEmpties(fed, Extract(t, u).value.0);
    } else {
      assert DrainTurn(t, fed) == Turn(fed, [], false);
      hide DrainTurn;
    }
  }

  lemma CharIsUnit(t: Tables, u: seq<Byte>)
    requires u != [] && u[0] != ESC && ScalarLen(u) == |u| && t.isKey(u)
    ensures IsUnit(t, u) && Extract(t, u).Some?
  {
    UnitAlone(t, u);
  }
}
