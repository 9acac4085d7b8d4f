/** The recognisers of `raw_input.rs`: which bytes at the head of a buffer form one
    complete input event, and which are still waiting for more. */
module EscapeSyntax {
  import opened Wrappers
  import opened Bytes
  import opened Utf8

  /** Tables that only decide what a complete sequence means: the key table
      (`parse_terminal_key_sequence`), the OSC 10/11 reply parser and the SGR mouse
      decoder. Everything below holds for all of them. */
  datatype Tables = Tables(
    isKey: seq<Byte> -> bool,
    isColorReply: seq<Byte> -> bool,
    isMouse: seq<Byte> -> bool)

  datatype Event =
    | Key
    | Paste(content: seq<Byte>)
    | Mouse
    | FocusGained
    | FocusLost
    | HostColor
    | SchemeChanged
    | Unsupported

  datatype Family = Osc | StTerminated | HostColorSchemeCsi | OrphanedSgrMouseTail

  const PASTE_START: seq<Byte> := [0x1B, 0x5B, 0x32, 0x30, 0x30, 0x7E]
  const PASTE_END: seq<Byte> := [0x1B, 0x5B, 0x32, 0x30, 0x31, 0x7E]
  const DARK_REPORT: seq<Byte> := [0x1B, 0x5B, 0x3F, 0x39, 0x39, 0x37, 0x3B, 0x31, 0x6E]
  const LIGHT_REPORT: seq<Byte> := [0x1B, 0x5B, 0x3F, 0x39, 0x39, 0x37, 0x3B, 0x32, 0x6E]
  const CSI: seq<Byte> := [0x1B, 0x5B]
  const CSI_MOUSE: seq<Byte> := [0x1B, 0x5B, 0x3C]
  const MOUSE_TAIL: seq<Byte> := [0x5B, 0x3C]
  const ESC_ESC: seq<Byte> := [0x1B, 0x1B]
  const ESC_ESC_MOUSE: seq<Byte> := [0x1B, 0x1B, 0x5B, 0x3C]
  const SS3: seq<Byte> := [0x1B, 0x4F]
  const ST: seq<Byte> := [0x1B, 0x5C]
  const BEL: Byte := 0x07

  predicate IsMouseFinal(b: Byte) {
    b == 0x4D || b == 0x6D
  }

  predicate IsCsiFinal(b: Byte) {
    0x40 <= b <= 0x7E
  }

  predicate IsBel(b: Byte) {
    b == BEL
  }

  predicate IsReportFinal(b: Byte) {
    b == 0x6E
  }

  // --- Control strings (ECMA-48, section 5.6) ---

  /** `osc_string_terminator`: end of the first ST or BEL, whichever ends first. */
  function OscTerminator(b: seq<Byte>): (r: Option<nat>)
    ensures r.Some? ==> 1 <= r.value <= |b|
  {
    var st := FindFrom(b, ST, 0);
    var bel := PositionFrom(b, IsBel, 0);
    if st.Some? && bel.Some? then
      Some(if st.value + 2 < bel.value + 1 then st.value + 2 else bel.value + 1)
    else if st.Some? then Some(st.value + 2)
    else if bel.Some? then Some(bel.value + 1)
    else None
  }

  /** `control_string_terminator_for_family`. */
  function Terminator(b: seq<Byte>, family: Family): (r: Option<nat>)
    ensures r.Some? ==> 1 <= r.value <= |b|
  {
    match family
    case Osc => OscTerminator(b)
    case StTerminated =>
      var st := FindFrom(b, ST, 0);
      if st.Some? then Some(st.value + 2) else None
    case HostColorSchemeCsi =>
      var n := PositionFrom(b, IsReportFinal, 0);
      if n.Some? then Some(n.value + 1) else None
    case OrphanedSgrMouseTail =>
      var m := PositionFrom(b, IsMouseFinal, 0);
      if m.Some? then Some(m.value + 1) else None
  }

  /** The family a buffer opens, `control_string` without its terminator search. */
  function ControlFamily(b: seq<Byte>): Option<Family> {
    if |b| < 2 || b[0] != ESC then None
    else if b[1] == 0x5D then Some(Osc)
    else if b[1] == 0x50 || b[1] == 0x5F || b[1] == 0x5E || b[1] == 0x58 then Some(StTerminated)
    else None
  }

  /** `find_csi_final`: one past the first final byte behind the two-byte introducer. */
  function CsiEnd(b: seq<Byte>, final: Byte -> bool): (r: Option<nat>)
    ensures r.Some? ==> 3 <= r.value <= |b|
  {
    var i := PositionFrom(b, final, 2);
    if i.Some? then Some(i.value + 1) else None
  }

  // --- Complete escape sequences ---

  /** `complete_escape_sequence_len`. */
  function EscapeLen(t: Tables, b: seq<Byte>): (r: Option<nat>)
    requires b != [] && b[0] == ESC
    ensures r.Some? ==> 1 <= r.value <= |b|
    decreases |b|
  {
    if |b| == 1 then None
    else
      var mouse := if StartsWith(b, ESC_ESC_MOUSE) then CsiEnd(b[1..], IsMouseFinal) else None;
      if mouse.Some? && !Valid(b[1..1 + mouse.value]) then None
      else if mouse.Some? && t.isMouse(b[1..1 + mouse.value]) then Some(1)
      else if StartsWith(b, ESC_ESC) then
        var rest := EscapeLen(t, b[1..]);
        if rest.Some? then Some(rest.value + 1) else None
      else SingleEscapeLen(b)
  }

  /** The part of `complete_escape_sequence_len` behind the doubled-ESC cases. */
  function SingleEscapeLen(b: seq<Byte>): (r: Option<nat>)
    requires |b| >= 2 && b[0] == ESC
    ensures r.Some? ==> 2 <= r.value <= |b|
  {
    if StartsWith(b, CSI) then
      if StartsWith(b, CSI_MOUSE) then CsiEnd(b, IsMouseFinal) else CsiEnd(b, IsCsiFinal)
    else if ControlFamily(b).Some? then
      ControlEnd(b)
    else if StartsWith(b, SS3) then
      if |b| >= 3 then Some(3) else None
    else
      var w := CharWidth(b[1]);
      if w.None? || |b| < 1 + w.value || !Valid(b[1..1 + w.value]) then None
      else Some(1 + w.value)
  }

  /** End of the control string that `b` opens. The terminator search starts at the
      introducer, and no terminator can be found before its second byte. */
  function ControlEnd(b: seq<Byte>): (r: Option<nat>)
    requires ControlFamily(b).Some?
    ensures r.Some? ==> 2 <= r.value <= |b|
  {
    var r := Terminator(b, ControlFamily(b).value);
    assert r != Some(1);
    r
  }

  /** What a complete escape sequence means. */
  function Classify(t: Tables, s: seq<Byte>): Event {
    if t.isColorReply(s) then HostColor
    else if s == [0x1B, 0x5B, 0x49] then FocusGained
    else if s == [0x1B, 0x5B, 0x4F] then FocusLost
    else if s == DARK_REPORT || s == LIGHT_REPORT then SchemeChanged
    else if t.isMouse(s) then Mouse
    else if t.isKey(s) then Key
    else Unsupported
  }

  /** `extract_one_event`: the first complete event and the bytes it consumes. */
  function Extract(t: Tables, b: seq<Byte>): (r: Option<(Event, nat)>)
    ensures r.Some? ==> 1 <= r.value.1 <= |b|
  {
    if b == [] then None
    else if StartsWith(b, PASTE_START) then ExtractPaste(b)
    else if b[0] == ESC then
      var n := EscapeLen(t, b);
      if n.None? || !Valid(b[..n.value]) then None
      else Some((Classify(t, b[..n.value]), n.value))
    else
      var n := FirstCharLen(b);
      if n.None? || !t.isKey(b[..n.value]) then None
      else Some((Key, n.value))
  }

  function ExtractPaste(b: seq<Byte>): (r: Option<(Event, nat)>)
    requires StartsWith(b, PASTE_START)
    ensures r.Some? ==> 12 <= r.value.1 <= |b|
  {
    var end := FindFrom(b, PASTE_END, 0);
    if end.None? then None
    else
      PasteEndBehindStart(b);
      if !Valid(b[6..end.value]) then None
      else Some((Paste(b[6..end.value]), end.value + 6))
  }

  // --- Incomplete sequences that `flush_timeout` treats specially ---

  predicate IsIncompleteMouse(b: seq<Byte>) {
    StartsWith(b, CSI_MOUSE) && All(b[3..], IsParameter)
  }

  predicate IsOpenPaste(b: seq<Byte>) {
    StartsWith(b, PASTE_START) && FindFrom(b, PASTE_END, 0).None?
  }

  predicate IsOpenControl(b: seq<Byte>) {
    ControlFamily(b).Some? && ControlEnd(b).None?
  }

  predicate IsOpenColorReply(b: seq<Byte>) {
    && IsOpenControl(b) && ControlFamily(b) == Some(Osc)
    && |b| >= 5 && b[2] == 0x31 && (b[3] == 0x30 || b[3] == 0x31) && b[4] == 0x3B
  }

  predicate IsOpenSchemeReport(b: seq<Byte>) {
    && StartsWith(b, [0x1B, 0x5B, 0x3F])
    && (b < DARK_REPORT || b < LIGHT_REPORT)
  }

  predicate IsEscapedIncompleteScalar(b: seq<Byte>) {
    b != [] && b[0] == ESC && IsIncompleteScalar(b[1..])
  }

  /** `plausible_control_string_tail`. */
  predicate PlausibleTail(family: Family, b: seq<Byte>) {
    match family
    case Osc => All(b, IsColorReplyByte)
    case StTerminated => b != [] && b[|b| - 1] == ESC
    case HostColorSchemeCsi => All(b, IsReportByte)
    case OrphanedSgrMouseTail => All(b, IsMouseTailByte)
  }

  /** Digits and `; : / # ? . _ - + r g b R G B ESC`. */
  predicate IsColorReplyByte(c: Byte) {
    IsDigit(c) || c in [0x3B, 0x3A, 0x2F, 0x23, 0x3F, 0x2E, 0x5F, 0x2D, 0x2B,
                        0x72, 0x67, 0x62, 0x52, 0x47, 0x42, 0x1B]
  }

  predicate IsReportByte(c: Byte) {
    IsParameter(c) || c == 0x3F || IsReportFinal(c)
  }

  predicate IsMouseTailByte(c: Byte) {
    IsParameter(c) || IsMouseFinal(c)
  }

  // --- Orphaned SGR mouse tails ---

  const MAX_ORPHANED_TAIL: nat := 32

  /** `starts_with_incomplete_orphaned_sgr_mouse_tail`. */
  predicate IsIncompleteTail(b: seq<Byte>) {
    && |b| <= MAX_ORPHANED_TAIL
    && ((|b| < 3 && b <= MOUSE_TAIL) || (StartsWith(b, MOUSE_TAIL) && All(b[2..], IsParameter)))
  }

  /** The length `discard_complete_orphaned_sgr_mouse_tail` removes, if it removes. */
  function CompleteTailLen(t: Tables, b: seq<Byte>): (r: Option<nat>)
    ensures r.Some? ==> 1 <= r.value <= |b|
  {
    var n := Terminator(b, OrphanedSgrMouseTail);
    if n.None? || n.value > MAX_ORPHANED_TAIL then None
    else if !Valid([ESC] + b[..n.value]) || !t.isMouse([ESC] + b[..n.value]) then None
    else n
  }

  // --- Prefix stability ---

  /** The paste terminator cannot start inside the opener. */
  lemma PasteEndBehindStart(b: seq<Byte>)
    requires StartsWith(b, PASTE_START)
    ensures FindFrom(b, PASTE_END, 0).Some? ==> FindFrom(b, PASTE_END, 0).value >= 6
  {
    var end := FindFrom(b, PASTE_END, 0);
    if end.Some? {
      assert b[end.value] == PASTE_END[0] by { assert b[end.value..end.value + 6][0] == PASTE_END[0]; }
      assert b[end.value + 4] == PASTE_END[4] by { assert b[end.value..end.value + 6][4] == PASTE_END[4]; }
      assert forall i :: 0 <= i < 6 ==> b[i] == PASTE_START[i];
    }
  }

  lemma TerminatorStable(b: seq<Byte>, x: seq<Byte>, family: Family)
    requires Terminator(b, family).Some?
    ensures Terminator(b + x, family) == Terminator(b, family)
  {
    match family
    case Osc => OscTerminatorStable(b, x);
    case StTerminated => FindStable(b, x, ST, 0);
    case HostColorSchemeCsi => PositionStable(b, x, IsReportFinal, 0);
    case OrphanedSgrMouseTail => PositionStable(b, x, IsMouseFinal, 0);
  }

  /** A BEL that ends the string now is not overtaken by an ST that completes later. */
  lemma OscTerminatorStable(b: seq<Byte>, x: seq<Byte>)
    requires OscTerminator(b).Some?
    ensures OscTerminator(b + x) == OscTerminator(b)
  {
    var st, bel := FindFrom(b, ST, 0), PositionFrom(b, IsBel, 0);
    if st.Some? {
      FindStable(b, x, ST, 0);
    } else {
      var later := FindFrom(b + x, ST, 0);
      if later.Some? && later.value + 2 <= |b| {
        OccursStable(b, x, ST, later.value);
      }
    }
    if bel.Some? {
      PositionStable(b, x, IsBel, 0);
    } else {
      var later := PositionFrom(b + x, IsBel, 0);
      assert forall j :: 0 <= j < |b| ==> (b + x)[j] == b[j];
    }
  }

  lemma CsiEndStable(b: seq<Byte>, x: seq<Byte>, final: Byte -> bool)
    requires CsiEnd(b, final).Some?
    ensures CsiEnd(b + x, final) == CsiEnd(b, final)
  {
    PositionStable(b, x, final, 2);
  }

  lemma SingleEscapeLenStable(b: seq<Byte>, x: seq<Byte>)
    requires |b| >= 2 && b[0] == ESC
    requires SingleEscapeLen(b).Some?
    ensures SingleEscapeLen(b + x) == SingleEscapeLen(b)
  {
    assert (b + x)[..2] == b[..2];
    if StartsWith(b, CSI) {
      assert |b| >= 3 && (b + x)[2] == b[2];
      if StartsWith(b, CSI_MOUSE) {
        CsiEndStable(b, x, IsMouseFinal);
      } else {
        CsiEndStable(b, x, IsCsiFinal);
      }
    } else if ControlFamily(b).Some? {
      TerminatorStable(b, x, ControlFamily(b).value);
    } else if !StartsWith(b, SS3) {
      var w := CharWidth(b[1]).value;
      assert (b + x)[1..1 + w] == b[1..1 + w];
    }
  }

  lemma {:induction false} EscapeLenStable(t: Tables, b: seq<Byte>, x: seq<Byte>)
    requires b != [] && b[0] == ESC
    requires EscapeLen(t, b).Some?
    ensures EscapeLen(t, b + x) == EscapeLen(t, b)
    decreases |b|
  {
    hide Valid, CsiEnd, SingleEscapeLen, StartsWith;
    if StartsWith(b, ESC_ESC) {
      assert (b + x)[1..] == b[1..] + x;
      StartsWithAppend(b, x, ESC_ESC);
      SecondIsEsc(b);
      if EscapeLen(t, b[1..]).Some? {
        EscapeLenStable(t, b[1..], x);
      }
      if StartsWith(b, ESC_ESC_MOUSE) && CsiEnd(b[1..], IsMouseFinal).Some? {
        StartsWithAppend(b, x, ESC_ESC_MOUSE);
        CsiEndStable(b[1..], x, IsMouseFinal);
        var m := CsiEnd(b[1..], IsMouseFinal).value;
        assert (b + x)[1..1 + m] == b[1..1 + m];
      } else if b <= ESC_ESC_MOUSE || StartsWith(b, ESC_ESC_MOUSE) {
        DoubledMouseNeedsFinal(t, b);
      } else {
        NoLateMouse(b, x);
      }
    } else {
      NotDoubled(b);
      SingleEscapeLenStable(b, x);
      assert (b + x)[..2] == b[..2];
      NotDoubledAppend(b, x);
      NotDoubled(b + x);
    }
  }

  lemma StartsWithAppend(b: seq<Byte>, x: seq<Byte>, prefix: seq<Byte>)
    requires StartsWith(b, prefix)
    ensures StartsWith(b + x, prefix)
  {
    assert (b + x)[..|prefix|] == b[..|prefix|];
  }

  lemma NotDoubledAppend(b: seq<Byte>, x: seq<Byte>)
    requires |b| >= 2 && !StartsWith(b, ESC_ESC)
    ensures !StartsWith(b + x, ESC_ESC)
  {
    assert (b + x)[..2] == b[..2];
  }

  lemma NoLateMouse(b: seq<Byte>, x: seq<Byte>)
    requires !(b <= ESC_ESC_MOUSE) && !StartsWith(b, ESC_ESC_MOUSE)
    ensures !StartsWith(b + x, ESC_ESC_MOUSE)
  {
    if |b| >= 4 {
      assert (b + x)[..4] == b[..4];
    } else if StartsWith(b + x, ESC_ESC_MOUSE) {
      ShortPrefix(b, x, ESC_ESC_MOUSE);
    }
  }

  /** `ESC ESC [ <` without a final byte, and any shorter prefix of it, is incomplete. */
  lemma DoubledMouseNeedsFinal(t: Tables, b: seq<Byte>)
    requires StartsWith(b, ESC_ESC)
    requires b <= ESC_ESC_MOUSE || (StartsWith(b, ESC_ESC_MOUSE) && CsiEnd(b[1..], IsMouseFinal).None?)
    ensures EscapeLen(t, b).None?
  {
    var c := b[1..];
    if |c| >= 2 {
      assert StartsWith(c, CSI);
      assert EscapeLen(t, c) == SingleEscapeLen(c);
      assert SingleEscapeLen(c).None?;
    }
  }

  /** A proper prefix of the paste opener is still incomplete. */
  lemma PasteStartPrefixIsIncomplete(t: Tables, b: seq<Byte>)
    requires b < PASTE_START
    ensures Extract(t, b).None?
  {
    if |b| >= 2 {
      assert EscapeLen(t, b) == SingleEscapeLen(b);
      assert StartsWith(b, CSI) && !StartsWith(b, CSI_MOUSE);
    }
  }

  lemma NoLateOpener(t: Tables, b: seq<Byte>, x: seq<Byte>)
    requires Extract(t, b).Some? && !StartsWith(b, PASTE_START)
    ensures !StartsWith(b + x, PASTE_START)
  {
    var k := if |b| < 6 then |b| else 6;
    assert (b + x)[..k] == b[..k];
    if |b| < 6 && StartsWith(b + x, PASTE_START) {
      assert b[..k] == PASTE_START[..k];
      PasteStartPrefixIsIncomplete(t, b);
    }
  }

  /** Prefix stability: an event recognised now is the same event, with the same
      length, whatever bytes are already queued behind it. */
  lemma ExtractStable(t: Tables, b: seq<Byte>, x: seq<Byte>)
    requires Extract(t, b).Some?
    ensures Extract(t, b + x) == Extract(t, b)
  {
    var n := Extract(t, b).value.1;
    if StartsWith(b, PASTE_START) {
      FindStable(b, x, PASTE_END, 0);
      var end := FindFrom(b, PASTE_END, 0).value;
      PasteEndBehindStart(b);
      assert (b + x)[6..end] == b[6..end];
    } else {
      NoLateOpener(t, b, x);
      assert (b + x)[..n] == b[..n];
      if b[0] == ESC {
        EscapeLenStable(t, b, x);
      } else {
        FirstCharLenIsScalarLen(b);
        FirstCharLenIsScalarLen(b + x);
        ScalarLenStable(b, x);
      }
    }
  }

  // --- Locality: a chunk means the same on its own ---

  predicate AllEsc(b: seq<Byte>) {
    forall i :: 0 <= i < |b| ==> b[i] == ESC
  }

  lemma SingleEscapeLenLocal(b: seq<Byte>)
    requires |b| >= 2 && b[0] == ESC
    requires SingleEscapeLen(b).Some?
    ensures SingleEscapeLen(b[..SingleEscapeLen(b).value]) == SingleEscapeLen(b)
  {
    var n := SingleEscapeLen(b).value;
    var c := b[..n];
    assert c[..2] == b[..2];
    if StartsWith(b, CSI) {
      assert c[..3] == b[..3];
      PositionLocal(b, n, if StartsWith(b, CSI_MOUSE) then IsMouseFinal else IsCsiFinal, 2);
    } else if ControlFamily(b).Some? {
      TerminatorLocal(b, ControlFamily(b).value);
    } else if !StartsWith(b, SS3) {
      assert c[1..n] == b[1..n];
    }
  }

  lemma TerminatorLocal(b: seq<Byte>, family: Family)
    requires Terminator(b, family).Some?
    ensures Terminator(b[..Terminator(b, family).value], family) == Terminator(b, family)
  {
    var n := Terminator(b, family).value;
    match family
    case Osc => OscTerminatorLocal(b);
    case StTerminated => FindLocal(b, n, ST, 0);
    case HostColorSchemeCsi => PositionLocal(b, n, IsReportFinal, 0);
    case OrphanedSgrMouseTail => PositionLocal(b, n, IsMouseFinal, 0);
  }

  lemma OscTerminatorLocal(b: seq<Byte>)
    requires OscTerminator(b).Some?
    ensures OscTerminator(b[..OscTerminator(b).value]) == OscTerminator(b)
  {
    var n := OscTerminator(b).value;
    assert b == b[..n] + b[n..];
    var st, bel := FindFrom(b, ST, 0), PositionFrom(b, IsBel, 0);
    if st.Some? && st.value + 2 == n {
      FindLocal(b, n, ST, 0);
    } else {
      PositionLocal(b, n, IsBel, 0);
    }
    if OscTerminator(b[..n]).Some? {
      OscTerminatorStable(b[..n], b[n..]);
    }
  }

  /** One doubled ESC in front: the escape sequence that `b` starts with, on its own. */
  lemma DoubledEscapeLocal(t: Tables, b: seq<Byte>, n: nat)
    requires StartsWith(b, ESC_ESC)
    requires EscapeLen(t, b) == Some(n) && n > 1
    requires EscapeLen(t, b[1..][..n - 1]) == if AllEsc(b[1..][..n - 1]) then None else Some(n - 1)
    ensures EscapeLen(t, b[..n]) == if AllEsc(b[..n]) then None else Some(n)
  {
    var c, rest := b[..n], b[1..];
    assert c[1..] == rest[..n - 1];
    AllEscStep(c);
    DoubledUnfolds(t, b);
    assert StartsWith(c, ESC_ESC) by { assert c[..2] == b[..2]; }
    if StartsWith(b, ESC_ESC_MOUSE) {
      DoubledMouseLocal(t, b, n);
    } else {
      assert !StartsWith(c, ESC_ESC_MOUSE) by {
        assert |c| >= 4 ==> c[..4] == b[..4];
      }
      DoubledUnfolds(t, c);
    }
  }

  /** Away from the mouse case a doubled ESC only adds one byte. */
  lemma DoubledUnfolds(t: Tables, b: seq<Byte>)
    requires StartsWith(b, ESC_ESC)
    ensures !StartsWith(b, ESC_ESC_MOUSE) ==>
              EscapeLen(t, b) == if EscapeLen(t, b[1..]).Some? then Some(EscapeLen(t, b[1..]).value + 1) else None
    ensures EscapeLen(t, b).Some? && EscapeLen(t, b).value > 1 ==>
              EscapeLen(t, b[1..]) == Some(EscapeLen(t, b).value - 1)
  {
    hide SingleEscapeLen, Valid, CsiEnd;
  }

  lemma DoubledMouseLocal(t: Tables, b: seq<Byte>, n: nat)
    requires StartsWith(b, ESC_ESC_MOUSE)
    requires EscapeLen(t, b) == Some(n) && n > 1 && EscapeLen(t, b[1..]) == Some(n - 1)
    ensures EscapeLen(t, b[..n]) == Some(n) && !AllEsc(b[..n])
  {
    hide EscapeLen, Valid, StartsWith, CsiEnd;
    var c := b[..n];
    assert c[1..] == b[1..][..n - 1];
    ReportBehindEsc(b);
    MouseEscapeLen(t, b[1..]);
    CsiEndLocal(b[1..], IsMouseFinal);
    OpenerLocal(b, n);
    assert c[1..1 + (n - 1)] == b[1..1 + (n - 1)];
    DoubledMouseLen(t, b);
    DoubledMouseLen(t, c);
  }

  lemma ReportBehindEsc(b: seq<Byte>)
    requires StartsWith(b, ESC_ESC_MOUSE)
    ensures StartsWith(b[1..], CSI_MOUSE) && !StartsWith(b[1..], ESC_ESC)
  {
    assert b[1..][..3] == b[..4][1..];
    assert |b| >= 3 ==> b[1..][1] == b[..4][2];
  }

  lemma OpenerLocal(b: seq<Byte>, n: nat)
    requires StartsWith(b, ESC_ESC_MOUSE) && 4 <= n <= |b|
    ensures StartsWith(b[..n], ESC_ESC_MOUSE) && !AllEsc(b[..n])
  {
    assert b[..n][..4] == b[..4];
    assert b[..n][2] == b[..4][2] == 0x5B;
  }

  lemma CsiEndLocal(b: seq<Byte>, final: Byte -> bool)
    requires CsiEnd(b, final).Some?
    ensures CsiEnd(b[..CsiEnd(b, final).value], final) == CsiEnd(b, final)
  {
    PositionLocal(b, CsiEnd(b, final).value, final, 2);
  }

  /** ESC in front of a mouse report. */
  lemma DoubledMouseLen(t: Tables, b: seq<Byte>)
    requires StartsWith(b, ESC_ESC_MOUSE)
    ensures var m := CsiEnd(b[1..], IsMouseFinal);
            EscapeLen(t, b) == if m.None? || !Valid(b[1..1 + m.value]) then None
                               else if t.isMouse(b[1..1 + m.value]) then Some(1)
                               else Some(m.value + 1)
  {
    hide SingleEscapeLen, Valid, CsiEnd;
    assert StartsWith(b[1..], CSI_MOUSE) && StartsWith(b, ESC_ESC);
    MouseEscapeLen(t, b[1..]);
  }

  lemma MouseEscapeLen(t: Tables, b: seq<Byte>)
    requires StartsWith(b, CSI_MOUSE)
    ensures EscapeLen(t, b) == CsiEnd(b, IsMouseFinal)
  {
    hide Valid;
    assert b[1] == 0x5B && !StartsWith(b, ESC_ESC);
  }

  lemma AllEscStep(c: seq<Byte>)
    requires c != []
    ensures AllEsc(c) == (c[0] == ESC && AllEsc(c[1..]))
  {
    assert forall i :: 1 <= i < |c| ==> c[i] == c[1..][i - 1];
  }

  /** Re-reading exactly the bytes of an escape sequence finds the same length,
      unless those bytes are nothing but ESC. */
  lemma {:induction false} EscapeLenLocal(t: Tables, b: seq<Byte>)
    requires b != [] && b[0] == ESC
    requires EscapeLen(t, b).Some?
    ensures var n := EscapeLen(t, b).value;
            EscapeLen(t, b[..n]) == if AllEsc(b[..n]) then None else Some(n)
    decreases |b|
  {
    hide Valid, CsiEnd, AllEsc, SingleEscapeLen, StartsWith;
    var n := EscapeLen(t, b).value;
    if n == 1 {
      AllEscOne(b);
      assert b[..1] == [ESC];
    } else if StartsWith(b, ESC_ESC) {
      DoubledUnfolds(t, b);
      SecondIsEsc(b);
      hide EscapeLen;
      EscapeLenLocal(t, b[1..]);
      DoubledEscapeLocal(t, b, n);
    } else {
      NotDoubled(b);
      SingleEscapeLenLocal(b);
      HeadLocal(b, n);
      NotDoubled(b[..n]);
    }
  }

  lemma AllEscOne(b: seq<Byte>)
    requires b != [] && b[0] == ESC
    ensures AllEsc(b[..1])
  {
  }

  lemma SecondIsEsc(b: seq<Byte>)
    requires StartsWith(b, ESC_ESC)
    ensures b[1..] != [] && b[1..][0] == ESC
  {
    assert b[..2][1] == b[1];
  }

  /** A sequence that does not open with a doubled ESC is no mouse report behind ESC either. */
  lemma NotDoubled(b: seq<Byte>)
    requires |b| >= 2 && !StartsWith(b, ESC_ESC) && b[0] == ESC
    ensures !StartsWith(b, ESC_ESC_MOUSE) && !AllEsc(b)
  {
    if b[1] == ESC {
      TwoEscs(b);
    }
    NotPrefix(b, ESC_ESC_MOUSE, 1);
  }

  lemma TwoEscs(b: seq<Byte>)
    requires |b| >= 2 && b[0] == b[1] == ESC
    ensures StartsWith(b, ESC_ESC)
  {
    assert b[..2] == ESC_ESC;
  }

  lemma HeadLocal(b: seq<Byte>, n: nat)
    requires 2 <= n <= |b| && !StartsWith(b, ESC_ESC)
    ensures !StartsWith(b[..n], ESC_ESC)
  {
    assert b[..n][..2] == b[..2];
  }

  /** A chunk cut out by `Extract` yields its event again when it is read alone,
      unless the chunk is nothing but ESC, in which case it yields none. */
  lemma ExtractLocal(t: Tables, b: seq<Byte>)
    requires Extract(t, b).Some?
    ensures var (event, n) := Extract(t, b).value;
            Extract(t, b[..n]) == if AllEsc(b[..n]) then None else Some((event, n))
  {
    hide StartsWith, EscapeLen, Valid, Classify, ExtractPaste, FirstCharLen;
    var n := Extract(t, b).value.1;
    var c := b[..n];
    assert c[0] == b[0] && c[..n] == c;
    if StartsWith(b, PASTE_START) {
      PasteLocal(b);
    } else {
      NoOpenerInside(b, n);
      if b[0] == ESC {
        EscapeLenLocal(t, b);
      } else {
        FirstCharLocal(b);
      }
    }
  }

  lemma PasteLocal(b: seq<Byte>)
    requires StartsWith(b, PASTE_START) && ExtractPaste(b).Some?
    ensures var c := b[..ExtractPaste(b).value.1];
            StartsWith(c, PASTE_START) && !AllEsc(c) && ExtractPaste(c) == ExtractPaste(b)
  {
    hide FindFrom, Valid;
    var n, end := ExtractPaste(b).value.1, FindFrom(b, PASTE_END, 0).value;
    var c := b[..n];
    FindLocal(b, n, PASTE_END, 0);
    assert c[..6] == b[..6] && c[6..end] == b[6..end];
    assert c[1] == c[..6][1] == 0x5B;
  }

  lemma NoOpenerInside(b: seq<Byte>, n: nat)
    requires !StartsWith(b, PASTE_START) && n <= |b|
    ensures !StartsWith(b[..n], PASTE_START)
  {
    assert n >= 6 ==> b[..n][..6] == b[..6];
  }

  lemma FirstCharLocal(b: seq<Byte>)
    requires FirstCharLen(b).Some?
    ensures FirstCharLen(b[..FirstCharLen(b).value]) == FirstCharLen(b)
  {
    FirstCharLenIsScalarLen(b);
    FirstCharLenIsScalarLen(b[..FirstCharLen(b).value]);
    ScalarLenLocal(b);
  }
}
