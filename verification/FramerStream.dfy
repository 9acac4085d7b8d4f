/** The sequences of the standards, and what becomes of a stream of them. The recognisers
    are held against ECMA-48, sections 5.4 and 5.6, instead of against their own code. */
module FramerStream {
  import opened Wrappers
  import opened Bytes
  import opened Utf8
  import opened EscapeSyntax
  import opened FramerSpec
  import opened FramerFragments
  import opened FramerBookkeeping
  import opened FramerText
  import opened FramerEvents

  // --- Sequences ---

  /** Parameter and intermediate bytes of a control sequence. */
  predicate IsCsiBody(b: Byte) {
    0x20 <= b <= 0x3F
  }

  /** CSI, parameter and intermediate bytes, one final byte (ECMA-48, section 5.4). */
  predicate IsControlSequence(s: seq<Byte>) {
    && |s| >= 3 && StartsWith(s, CSI)
    && All(s[2..|s| - 1], IsCsiBody) && 0x40 <= s[|s| - 1] <= 0x7E
  }

  /** A control string without ESC in its body, closed by ST or, if it is an OSC, by BEL
      (ECMA-48, section 5.6). */
  predicate IsControlString(s: seq<Byte>) {
    && ControlFamily(s).Some?
    && exists n :: 2 <= n <= |s| && IsClosedAt(s, n)
  }

  /** The body ends at `n`, and there the terminator closes the string. */
  predicate IsClosedAt(s: seq<Byte>, n: nat)
    requires ControlFamily(s).Some? && 2 <= n <= |s|
  {
    && (forall i :: 2 <= i < n ==> s[i] != ESC && (ControlFamily(s) == Some(Osc) ==> s[i] != BEL))
    && (s[n..] == ST || (ControlFamily(s) == Some(Osc) && s[n..] == [BEL]))
  }

  /** ESC in front of a scalar that opens nothing else. */
  predicate IsAltKey(s: seq<Byte>) {
    && |s| >= 2 && s[0] == ESC && ScalarLen(s[1..]) == |s| - 1
    && s[1] !in [ESC, 0x5B, 0x5D, 0x50, 0x5F, 0x5E, 0x58, 0x4F]
  }

  ghost predicate IsPaste(s: seq<Byte>) {
    exists content ::
      s == PASTE_START + content + PASTE_END && Valid(content) && FindFrom(PASTE_START + content, PASTE_END, 0).None?
  }

  /** One complete unit of input. A control sequence that opens like a mouse report must
      end like one, and the paste opener alone is not complete. */
  ghost predicate IsUnit(t: Tables, s: seq<Byte>) {
    || (IsControlSequence(s) && s != PASTE_START && (s[2] == 0x3C ==> IsMouseFinal(s[|s| - 1])))
    || (IsControlString(s) && Valid(s))
    || (|s| == 3 && StartsWith(s, SS3) && s[2] < 0x80)
    || IsAltKey(s)
    || IsPaste(s)
    || (s != [] && s[0] != ESC && ScalarLen(s) == |s| && t.isKey(s))
  }

  // --- Each is recognised whole ---

  lemma FirstAt(s: seq<Byte>, p: Byte -> bool, from: nat, i: nat)
    requires from <= i < |s| && p(s[i]) && forall j :: from <= j < i ==> !p(s[j])
    ensures PositionFrom(s, p, from) == Some(i)
  {
  }

  /** A control sequence ends at its final byte, with any bytes behind it, if and only if
      it does not open like a mouse report or ends like one. */
  lemma ControlSequenceLenIff(t: Tables, s: seq<Byte>, rest: seq<Byte>)
    requires IsControlSequence(s)
    ensures EscapeLen(t, s + rest) == Some(|s|) <==> (s[2] == 0x3C ==> IsMouseFinal(s[|s| - 1]))
  {
    var b := s + rest;
    assert b[1] == s[1] == 0x5B && b[2] == s[2];
    assert forall j :: 2 <= j < |s| - 1 ==> b[j] == s[2..|s| - 1][j - 2];
    assert forall j :: 2 <= j < |s| - 1 ==> IsCsiBody(b[j]);
    FirstAt(b, IsCsiFinal, 2, |s| - 1);
    assert StartsWith(b, CSI) && !StartsWith(b, ESC_ESC);
    assert StartsWith(b, CSI_MOUSE) <==> s[2] == 0x3C;
    if IsMouseFinal(s[|s| - 1]) {
      FirstAt(b, IsMouseFinal, 2, |s| - 1);
    }
    hide PositionFrom;
  }

  lemma ControlStringLen(t: Tables, s: seq<Byte>)
    requires IsControlString(s)
    ensures EscapeLen(t, s) == Some(|s|)
  {
    var n :| 2 <= n <= |s| && IsClosedAt(s, n);
    assert !StartsWith(s, ESC_ESC) && !StartsWith(s, CSI);
    ClosedByBel(s, n);
    if s[n..] == ST {
      ClosedBySt(s, n);
    }
    hide OscTerminator, FindFrom, PositionFrom, StartsWith, IsClosedAt;
    assert SingleEscapeLen(s) == ControlEnd(s);
  }

  lemma ClosedBySt(s: seq<Byte>, n: nat)
    requires ControlFamily(s).Some? && 2 <= n <= |s| && IsClosedAt(s, n) && s[n..] == ST
    ensures Terminator(s, ControlFamily(s).value) == Some(|s|)
  {
    assert s[n] == ESC && s[n + 1] == 0x5C;
    assert OccursAt(s, ST, n);
    assert !OccursAt(s, ST, 0) by { assert s[0..2][1] == s[1]; }
    assert !OccursAt(s, ST, 1) by { assert s[1..3][0] == s[1]; }
    forall i | 2 <= i < n ensures !OccursAt(s, ST, i) {
      if i + 2 <= |s| {
        assert s[i..i + 2][0] == s[i];
      }
    }
    assert FindFrom(s, ST, 0) == Some(n);
    if ControlFamily(s) == Some(Osc) {
      assert forall i :: 0 <= i < |s| ==> !IsBel(s[i]);
    }
  }

  lemma ClosedByBel(s: seq<Byte>, n: nat)
    requires ControlFamily(s).Some? && 2 <= n <= |s| && IsClosedAt(s, n)
    ensures s[n..] != ST ==> Terminator(s, ControlFamily(s).value) == Some(|s|)
  {
    if s[n..] != ST {
      assert s[n] == BEL && |s| == n + 1;
      FirstAt(s, IsBel, 0, n);
      forall i | 0 <= i ensures !OccursAt(s, ST, i) {
        if i + 2 <= |s| {
          assert s[i..i + 2][0] == s[i] && s[i..i + 2][1] == s[i + 1];
        }
      }
      assert FindFrom(s, ST, 0).None?;
    }
  }

  lemma AltKeyLen(t: Tables, s: seq<Byte>)
    requires IsAltKey(s)
    ensures EscapeLen(t, s) == Some(|s|) && Valid(s)
  {
    assert s[1..][..|s| - 1] == s[1..];
    ScalarLenLocal(s[1..]);
    assert CharWidth(s[1]) == Some(|s| - 1);
    assert !StartsWith(s, ESC_ESC) && !StartsWith(s, CSI) && !StartsWith(s, SS3) && ControlFamily(s).None?;
    assert s[1..1 + (|s| - 1)] == s[1..];
    assert ScalarLen(s) == 1;
    hide ScalarLen, StartsWith, ControlFamily;
  }

  lemma Ss3Len(t: Tables, s: seq<Byte>)
    requires |s| == 3 && StartsWith(s, SS3)
    ensures EscapeLen(t, s) == Some(3)
  {
    assert s[0] == ESC && s[1] == 0x4F;
    assert !StartsWith(s, ESC_ESC) && !StartsWith(s, CSI) && ControlFamily(s).None?;
  }

  /** No unit but a paste starts with the paste opener. */
  lemma OpenerOnlyInPaste(t: Tables, s: seq<Byte>)
    requires IsUnit(t, s) && !IsPaste(s)
    ensures !StartsWith(s, PASTE_START)
  {
    hide ScalarLen, Valid, IsPaste, IsClosedAt;
    assert |s| > 6 ==> s[2..|s| - 1][3] == s[5];
    assert |s| == 6 && StartsWith(s, PASTE_START) ==> s == PASTE_START;
  }

  lemma PasteUnit(t: Tables, s: seq<Byte>)
    requires IsPaste(s)
    ensures Extract(t, s).Some? && Extract(t, s).value.1 == |s|
  {
    var content :| s == PASTE_START + content + PASTE_END && Valid(content)
                   && FindFrom(PASTE_START + content, PASTE_END, 0).None?;
    hide Extract, FindFrom;
    PasteExtract(t, content);
  }

  /** Every unit, read alone, is one event that takes all its bytes. */
  lemma UnitAlone(t: Tables, s: seq<Byte>)
    requires IsUnit(t, s)
    ensures s != [] && Extract(t, s).Some? && Extract(t, s).value.1 == |s|
  {
    assert s[..|s|] == s;
    if IsPaste(s) {
      PasteUnit(t, s);
    } else {
      OpenerOnlyInPaste(t, s);
      if s[0] == ESC {
        EscapeUnitLen(t, s);
      } else {
        FirstCharLenIsScalarLen(s);
      }
      hide IsPaste, IsControlSequence, IsControlString, IsAltKey, EscapeLen, Valid, StartsWith;
    }
  }

  lemma EscapeUnitLen(t: Tables, s: seq<Byte>)
    requires IsUnit(t, s) && !IsPaste(s) && s != [] && s[0] == ESC
    ensures EscapeLen(t, s) == Some(|s|) && Valid(s)
  {
    if IsControlSequence(s) && (s[2] == 0x3C ==> IsMouseFinal(s[|s| - 1])) {
      assert s + [] == s;
      ControlSequenceLenIff(t, s, []);
      assert forall i :: 2 <= i < |s| - 1 ==> s[i] == s[2..|s| - 1][i - 2];
      AsciiIsValid(s);
    } else if IsControlString(s) && Valid(s) {
      ControlStringLen(t, s);
    } else if IsAltKey(s) {
      AltKeyLen(t, s);
    } else {
      Ss3Len(t, s);
      AsciiIsValid(s);
    }
  }

  // --- Streams ---

  ghost predicate AreUnits(t: Tables, units: seq<seq<Byte>>) {
    forall i :: 0 <= i < |units| ==> IsUnit(t, units[i])
  }

  lemma UnitStarts(t: Tables, s: seq<Byte>)
    requires IsUnit(t, s)
    ensures s != [] && (s[0] == ESC ==> |s| >= 2 && s[1] != ESC)
  {
    if IsPaste(s) {
      assert StartsWith(s, PASTE_START);
    }
  }

  /** With a unit at its head the buffer loses exactly that unit, as one chunk. */
  lemma UnitTurn(t: Tables, s: State, unit: seq<Byte>, rest: seq<Byte>)
    requires Clean(s) && IsUnit(t, unit) && s.buffer == unit + rest
    ensures var r := DrainTurn(t, s);
            r.chunks == [unit] && r.again && r.next.buffer == rest && Clean(r.next)
  {
    hide Extract, StartsWith, IsUnit;
    UnitAlone(t, unit);
    ExtractStable(t, unit, rest);
    UnitStarts(t, unit);
    assert unit + rest == s.buffer && s.buffer[..|unit|] == unit && s.buffer[|unit|..] == rest;
    UnitIsNotDoubled(unit, rest);
  }

  lemma UnitIsNotDoubled(unit: seq<Byte>, rest: seq<Byte>)
    requires unit != [] && (unit[0] == ESC ==> |unit| >= 2 && unit[1] != ESC)
    ensures !StartsWith(unit + rest, ESC_ESC)
  {
    assert |unit + rest| >= 2 ==> (unit + rest)[..2][0] == unit[0];
    assert |unit| >= 2 ==> (unit + rest)[..2][1] == unit[1];
  }

  lemma {:induction false} UnitsDrain(t: Tables, s: State, units: seq<seq<Byte>>)
    requires Clean(s) && AreUnits(t, units) && s.buffer == Concat(units)
    ensures var (last, chunks) := Drain(t, s);
            chunks == units && last.buffer == [] && Clean(last)
    decreases |units|
  {
    if units == [] {
      EmptyDrains(t, s);
    } else {
      hide DrainTurn, IsUnit, Clean;
      UnitTurn(t, s, units[0], Concat(units[1..]));
      DrainAfterTurn(t, s);
      hide Drain, Concat;
      UnitsDrain(t, DrainTurn(t, s).next, units[1..]);
      assert [units[0]] + units[1..] == units;
    }
  }

  /** A stream of complete units, cut anywhere, comes out as exactly these units, one chunk
      each, and nothing stays behind. */
  lemma UnitsSurviveFragmentation(t: Tables, splitEsc: bool, units: seq<seq<Byte>>, fragments: seq<seq<Byte>>)
    requires AreUnits(t, units) && fragments != [] && Concat(fragments) == Concat(units)
    ensures var (last, chunks) := Run(t, Initial(splitEsc), Pieces(fragments));
            chunks == units && last.buffer == [] && Clean(last)
  {
    var s := Initial(splitEsc);
    AnyFragmentation(t, s, fragments);
    assert Feed(s, Concat(units)).buffer == Concat(units);
    UnitsDrain(t, Feed(s, Concat(units)), units);
    hide Run, Pieces, Drain, Concat, AreUnits;
  }

  // --- Streams with timeouts ---

  /** What an idle timeout leaves alone: nothing, an open paste, an open colour reply, an
      incomplete scalar, with or without ESC in front. */
  predicate Patient(b: seq<Byte>) {
    b == [] || IsOpenPaste(b) || IsOpenColorReply(b) || IsIncompleteScalar(b) || IsEscapedIncompleteScalar(b)
  }

  /** The part of a unit that is under way after `n` bytes of the stream. */
  function Pending(units: seq<seq<Byte>>, n: nat): seq<Byte>
    requires n <= |Concat(units)|
    decreases |units|
  {
    if units == [] then []
    else if n < |units[0]| then units[0][..n]
    else Pending(units[1..], n - |units[0]|)
  }

  /** Every timeout falls where the framer waits: between units, inside scalars, pastes or
      colour replies. `n` bytes were pushed before. */
  ghost predicate PatientTimeouts(units: seq<seq<Byte>>, n: nat, ops: seq<Op>)
    requires n + |Pushed(ops)| <= |Concat(units)|
    decreases |ops|
  {
    ops == []
    || (&& (ops[0].Idle? ==> Patient(Pending(units, n)))
        && PatientTimeouts(units, n + |if ops[0].Bytes? then ops[0].data else []|, ops[1..]))
  }

  /** A unit that is not complete is not recognised. */
  lemma PartOfUnitWaits(t: Tables, s: State, unit: seq<Byte>)
    requires Clean(s) && IsUnit(t, unit) && |s.buffer| < |unit| && s.buffer == unit[..|s.buffer|]
    ensures DrainTurn(t, s) == Turn(s, [], false) && Drain(t, s) == (s, [])
  {
    var b := s.buffer;
    UnitAlone(t, unit);
    UnitStarts(t, unit);
    assert b + unit[|b|..] == unit;
    hide Extract, IsUnit;
    if Extract(t, b).Some? {
      ExtractStable(t, b, unit[|b|..]);
    }
    assert !StartsWith(b, ESC_ESC);
    hide DrainTurn;
  }

  lemma PatientIdle(t: Tables, s: State)
    requires Clean(s) && Patient(s.buffer) && Drain(t, s) == (s, [])
    ensures Flush(t, s) == (s, [])
  {
    hide Drain, Patient, Valid, IsIncompleteMouse, IsOpenPaste, IsOpenColorReply, IsOpenSchemeReport, IsOpenControl,
      IsIncompleteScalar, IsEscapedIncompleteScalar;
    if s.buffer != [] {
      PatientMeans(s.buffer);
    }
    assert FlushIdle(t, s) == (s, []);
    hide FlushIdle;
    assert |Flush(t, s).1| == 0;
  }

  /** No arm of the timeout that changes something applies. */
  lemma PatientMeans(b: seq<Byte>)
    requires Patient(b) && b != []
    ensures !IsIncompleteMouse(b)
    ensures IsOpenPaste(b) || IsOpenColorReply(b)
            || (&& !IsOpenSchemeReport(b) && !IsOpenControl(b) && b != [ESC] && !Valid(b)
                && (IsIncompleteScalar(b) || IsEscapedIncompleteScalar(b)))
  {
    hide Valid, FindFrom, ControlEnd, ScalarLen, TailsFit;
    if IsOpenPaste(b) {
      assert b[2] == b[..6][2] == 0x32;
    } else if IsOpenColorReply(b) {
      assert b[1] == 0x5D;
    } else if IsIncompleteScalar(b) {
      assert b[0] >= 0xC2;
      NoEscAtHead(b);
      IncompleteIsInvalid(b);
    } else {
      assert b[1] >= 0xC2;
      OnlyEscAtHead(b);
      EscapedIncompleteIsInvalid(b);
    }
  }

  lemma NoEscAtHead(b: seq<Byte>)
    requires b != [] && b[0] != ESC
    ensures !IsIncompleteMouse(b) && !IsOpenSchemeReport(b) && !IsOpenControl(b) && b != [ESC]
  {
    NotPrefix(b, CSI_MOUSE, 0);
    NotPrefix(b, [0x1B, 0x5B, 0x3F], 0);
  }

  lemma OnlyEscAtHead(b: seq<Byte>)
    requires |b| >= 2 && b[1] >= 0xC2
    ensures !IsIncompleteMouse(b) && !IsOpenSchemeReport(b) && !IsOpenControl(b) && b != [ESC]
  {
    NotPrefix(b, CSI_MOUSE, 1);
    NotPrefix(b, [0x1B, 0x5B, 0x3F], 1);
  }

  lemma EscapedIncompleteIsInvalid(b: seq<Byte>)
    requires IsEscapedIncompleteScalar(b)
    ensures !Valid(b)
  {
    IncompleteIsInvalid(b[1..]);
    assert ScalarLen(b) == 1;
  }

  /** What is buffered of a stream is a part of its first unit, or that unit and more. */
  lemma HeadOfStream(units: seq<seq<Byte>>, b: seq<Byte>)
    requires units != [] && |b| <= |Concat(units)| && b == Concat(units)[..|b|]
    ensures var unit, rest := units[0], Concat(units[1..]);
            if |b| < |unit| then b == unit[..|b|]
            else b == unit + b[|unit|..] && |b| - |unit| <= |rest| && b[|unit|..] == rest[..|b| - |unit|]
  {
    assert Concat(units) == units[0] + Concat(units[1..]);
  }

  /** Complete units in front are emitted; a part of the next one stays in the buffer. */
  lemma {:induction false} PrefixDrains(t: Tables, s: State, units: seq<seq<Byte>>) returns (n: nat)
    requires Clean(s) && AreUnits(t, units) && |s.buffer| <= |Concat(units)|
    requires s.buffer == Concat(units)[..|s.buffer|]
    ensures n <= |units| && |Concat(units[..n])| <= |s.buffer|
    ensures var (last, chunks) := Drain(t, s);
            && chunks == units[..n] && Clean(last) && Drain(t, last) == (last, [])
            && last.buffer == s.buffer[|Concat(units[..n])|..]
            && UnderWay(units[n..], last.buffer)
    decreases |units|
  {
    if units == [] {
      n := 0;
      EmptyDrains(t, s);
    } else {
      var unit, rest := units[0], units[1..];
      HeadOfStream(units, s.buffer);
      if |s.buffer| < |unit| {
        n := 0;
        hide Drain, DrainTurn, IsUnit;
        PartOfUnitWaits(t, s, unit);
        assert units[..0] == [] && units[0..] == units;
      } else {
        var b := s.buffer[|unit|..];
        hide Drain, DrainTurn, IsUnit, Clean, UnderWay, Concat;
        UnitTurn(t, s, unit, b);
        DrainAfterTurn(t, s);
        var m := PrefixDrains(t, DrainTurn(t, s).next, rest);
        n := m + 1;
        FirstUnits(units, m, s.buffer, b);
      }
    }
  }

  /** `b` is a part of the first unit, not the whole; with no unit left it is empty. */
  predicate UnderWay(units: seq<seq<Byte>>, b: seq<Byte>) {
    if units == [] then b == [] else |b| < |units[0]| && b == units[0][..|b|]
  }

  lemma FirstUnits(units: seq<seq<Byte>>, m: nat, buffer: seq<Byte>, b: seq<Byte>)
    requires units != [] && m <= |units| - 1 && buffer == units[0] + b
    requires |Concat(units[1..][..m])| <= |b|
    ensures units[..m + 1] == [units[0]] + units[1..][..m] && units[m + 1..] == units[1..][m..]
    ensures Concat(units[..m + 1]) == units[0] + Concat(units[1..][..m])
    ensures buffer[|Concat(units[..m + 1])|..] == b[|Concat(units[1..][..m])|..]
  {
    assert units[..m + 1][1..] == units[1..][..m];
  }

  lemma SplitUnits(units: seq<seq<Byte>>, n: nat)
    requires n <= |units|
    ensures Concat(units) == Concat(units[..n]) + Concat(units[n..])
  {
    assert units == units[..n] + units[n..];
    ConcatAppend(units[..n], units[n..]);
  }

  lemma PendingStep(units: seq<seq<Byte>>, n: nat)
    requires units != [] && n <= |Concat(units[1..])|
    ensures |units[0]| + n <= |Concat(units)| && Pending(units, |units[0]| + n) == Pending(units[1..], n)
  {
  }

  /** Behind complete units the pending part is that of the remaining stream. */
  lemma {:induction false} PendingShift(done: seq<seq<Byte>>, units: seq<seq<Byte>>, k: nat)
    requires k <= |Concat(units)|
    ensures |Concat(done)| + k <= |Concat(done + units)|
    ensures Pending(done + units, |Concat(done)| + k) == Pending(units, k)
    decreases |done|
  {
    if done == [] {
      assert done + units == units;
    } else {
      var all := done + units;
      assert all[0] == done[0] && all[1..] == done[1..] + units;
      assert |Concat(done)| == |done[0]| + |Concat(done[1..])|;
      hide Concat, Pending;
      PendingShift(done[1..], units, k);
      PendingStep(all, |Concat(done[1..])| + k);
    }
  }

  lemma {:induction false} PatientShift(done: seq<seq<Byte>>, units: seq<seq<Byte>>, k: nat, ops: seq<Op>)
    requires k + |Pushed(ops)| <= |Concat(units)|
    requires |Concat(done)| + k + |Pushed(ops)| <= |Concat(done + units)|
    requires PatientTimeouts(done + units, |Concat(done)| + k, ops)
    ensures PatientTimeouts(units, k, ops)
    decreases |ops|
  {
    hide Patient, Concat, Pending;
    if ops != [] {
      PendingShift(done, units, k);
      PatientShift(done, units, k + |if ops[0].Bytes? then ops[0].data else []|, ops[1..]);
    }
  }

  /** With a unit under way that is still waiting, the rest of the run emits this unit and
      all later ones. */
  lemma {:induction false} UnitsArrive(t: Tables, s: State, units: seq<seq<Byte>>, ops: seq<Op>)
    requires Clean(s) && AreUnits(t, units) && IsInput(ops)
    requires UnderWay(units, s.buffer) && Drain(t, s) == (s, [])
    requires s.buffer + Pushed(ops) == Concat(units) && PatientTimeouts(units, |s.buffer|, ops)
    ensures var (last, chunks) := Run(t, s, ops);
            chunks == units && last.buffer == [] && Clean(last)
    decreases |ops|, 0
  {
    if ops == [] {
      NothingUnderWay(units, s.buffer);
    } else if ops[0].Idle? {
      IdleWaits(t, s, units, ops);
      hide Drain, Flush, Clean, UnderWay, AreUnits, PatientTimeouts;
      UnitsArrive(t, s, units, ops[1..]);
      RunStep(t, s, ops);
      assert [] + units == units;
    } else {
      var fed := Feed(s, ops[0].data);
      FedStream(s, units, ops);
      RunHead(t, s, ops);
      CleanFeed(s, ops[0].data);
      hide Drain, Flush, Clean, UnderWay, AreUnits, Run, Concat, Pushed, PatientTimeouts, Feed;
      var n := PrefixDrains(t, fed, units);
      PieceArrives(t, fed, units, n, ops[1..]);
    }
  }

  /** Pushing the first piece moves it from the stream to the buffer. */
  lemma FedStream(s: State, units: seq<seq<Byte>>, ops: seq<Op>)
    requires ops != [] && ops[0].Bytes?
    requires s.buffer + Pushed(ops) == Concat(units) && PatientTimeouts(units, |s.buffer|, ops)
    ensures var fed := Feed(s, ops[0].data);
            && fed.buffer + Pushed(ops[1..]) == Concat(units)
            && |fed.buffer| <= |Concat(units)| && fed.buffer == Concat(units)[..|fed.buffer|]
            && PatientTimeouts(units, |fed.buffer|, ops[1..])
  {
    hide Concat, Pending, Patient;
    assert s.buffer + Pushed(ops) == s.buffer + ops[0].data + Pushed(ops[1..]);
  }

  lemma NothingUnderWay(units: seq<seq<Byte>>, b: seq<Byte>)
    requires UnderWay(units, b) && b == Concat(units)
    ensures units == [] && b == []
  {
  }

  lemma IdleWaits(t: Tables, s: State, units: seq<seq<Byte>>, ops: seq<Op>)
    requires Clean(s) && UnderWay(units, s.buffer) && Drain(t, s) == (s, [])
    requires ops != [] && ops[0].Idle?
    requires |s.buffer| + |Pushed(ops)| <= |Concat(units)| && PatientTimeouts(units, |s.buffer|, ops)
    ensures Flush(t, s) == (s, []) && Pushed(ops) == Pushed(ops[1..])
    ensures PatientTimeouts(units, |s.buffer|, ops[1..])
  {
    assert Pending(units, |s.buffer|) == s.buffer;
    hide Patient, Drain, Flush;
    PatientIdle(t, s);
  }

  /** After a piece: the emitted units, and the run on what is left. */
  lemma {:induction false} PieceArrives(t: Tables, fed: State, units: seq<seq<Byte>>, n: nat, ops: seq<Op>)
    requires AreUnits(t, units) && IsInput(ops) && n <= |units| && |Concat(units[..n])| <= |fed.buffer|
    requires var (next, chunks) := Drain(t, fed);
             && chunks == units[..n] && Clean(next) && Drain(t, next) == (next, [])
             && next.buffer == fed.buffer[|Concat(units[..n])|..] && UnderWay(units[n..], next.buffer)
    requires fed.buffer + Pushed(ops) == Concat(units) && PatientTimeouts(units, |fed.buffer|, ops)
    ensures var (next, chunks) := Drain(t, fed);
            var (last, more) := Run(t, next, ops);
            chunks + more == units && last.buffer == [] && Clean(last)
    decreases |ops|, 1
  {
    var next := Drain(t, fed).0;
    hide Drain, Clean, UnderWay, Run, Concat, Pushed, IsUnit;
    SplitUnits(units, n);
    var done := Concat(units[..n]);
    assert fed.buffer == done + next.buffer by {
      assert fed.buffer[..|done|] == (fed.buffer + Pushed(ops))[..|done|] == done;
    }
    assert next.buffer + Pushed(ops) == Concat(units[n..]) by {
      assert done + (next.buffer + Pushed(ops)) == done + Concat(units[n..]);
      assert (done + (next.buffer + Pushed(ops)))[|done|..] == next.buffer + Pushed(ops);
      assert (done + Concat(units[n..]))[|done|..] == Concat(units[n..]);
    }
    assert units[..n] + units[n..] == units;
    PatientShift(units[..n], units[n..], |next.buffer|, ops);
    hide PatientTimeouts;
    UnitsArrive(t, next, units[n..], ops);
    assert units[..n] + units[n..] == units;
  }

  /** A stream of complete units comes out as exactly these units, however it is cut and
      however many timeouts fall between units, inside scalars, inside pastes and inside
      colour replies. */
  lemma UnitsSurviveTimeouts(t: Tables, splitEsc: bool, units: seq<seq<Byte>>, ops: seq<Op>)
    requires AreUnits(t, units) && IsInput(ops) && Pushed(ops) == Concat(units) && PatientTimeouts(units, 0, ops)
    ensures var (last, chunks) := Run(t, Initial(splitEsc), ops);
            chunks == units && last.buffer == [] && Clean(last)
  {
    var s := Initial(splitEsc);
    EmptyDrains(t, s);
    assert UnderWay(units, []) by {
      if units != [] {
        UnitStarts(t, units[0]);
      }
    }
    assert [] + Pushed(ops) == Pushed(ops);
    hide Run, Drain, Concat, AreUnits, PatientTimeouts;
    UnitsArrive(t, s, units, ops);
  }
}
