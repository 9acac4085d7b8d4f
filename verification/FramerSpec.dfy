/** What one `push` and one `flush_timeout` of the byte framer compute, as functions
    of its state. `InputFramer` proves the imperative framer equal to them. */
module FramerSpec {
  import opened Wrappers
  import opened Bytes
  import opened Utf8
  import opened EscapeSyntax

  datatype State = State(
    buffer: seq<Byte>,
    discard: Option<Family>,
    discarded: nat,
    loneFlushed: bool,
    awaited: nat,
    held: bool,
    tracking: bool,
    splitEsc: bool)

  const COLOR_QUERY_REPLIES: nat := 2
  const MAX_DISCARDED_TAIL: nat := 128

  /** `RawInputByteFramer::default()` and `with_host_input_policy`. */
  function Initial(splitEsc: bool): State {
    State([], None, 0, false, 0, false, false, splitEsc)
  }

  // --- discard_orphaned_sgr_mouse_tail ---

  datatype TailScan = TailScan(rest: seq<Byte>, discarded: nat, done: bool)

  predicate IsNotParameter(b: Byte) {
    !IsParameter(b)
  }

  /** How many bytes of the tail may still be looked at. */
  function Inspected(b: seq<Byte>, discarded: nat): (n: nat)
    ensures n <= |b|
  {
    var remaining := if discarded < MAX_DISCARDED_TAIL then MAX_DISCARDED_TAIL - discarded else 0;
    if |b| < remaining then |b| else remaining
  }

  /** Swallow parameter bytes up to and including the mouse final. Any other byte ends
      the tail and is kept; running past the limit drops the whole buffer. */
  function DiscardTail(b: seq<Byte>, discarded: nat): (r: TailScan)
    ensures |r.rest| <= |b|
  {
    var n := Inspected(b, discarded);
    var stop := PositionFrom(b[..n], IsNotParameter, 0);
    if stop.Some? then
      TailScan(b[if IsMouseFinal(b[stop.value]) then stop.value + 1 else stop.value..], discarded, true)
    else TailScan([], discarded + n, |b| > n)
  }

  // --- drain_available_chunks ---

  datatype Turn = Turn(next: State, chunks: seq<seq<Byte>>, again: bool)

  /** One turn of the drain loop. */
  function DrainTurn(t: Tables, s: State): (r: Turn)
    ensures r.again ==> |r.next.buffer| < |s.buffer|
                        || (|r.next.buffer| == |s.buffer| && s.discard.Some? && r.next.discard.None?)
  {
    if s.loneFlushed && IsIncompleteTail(s.buffer) then Turn(s, [], false)
    else if s.loneFlushed && CompleteTailLen(t, s.buffer).Some? then
      Turn(s.(buffer := s.buffer[CompleteTailLen(t, s.buffer).value..], loneFlushed := false), [], true)
    else SettledTurn(t, s.(loneFlushed := false))
  }

  function SettledTurn(t: Tables, s: State): (r: Turn)
    ensures r.again ==> |r.next.buffer| < |s.buffer|
                        || (|r.next.buffer| == |s.buffer| && s.discard.Some? && r.next.discard.None?)
  {
    if s.discard == Some(OrphanedSgrMouseTail) then
      var d := DiscardTail(s.buffer, s.discarded);
      if d.done then Turn(s.(buffer := d.rest, discard := None, discarded := 0), [], true)
      else Turn(s.(buffer := d.rest, discarded := d.discarded), [], false)
    else if s.discard.Some? then
      var n := Terminator(s.buffer, s.discard.value);
      if n.None? then Turn(s, [], false)
      else Turn(s.(buffer := s.buffer[n.value..], discard := None, discarded := 0), [], true)
    else if s.splitEsc && StartsWith(s.buffer, ESC_ESC) then
      Turn(s.(buffer := s.buffer[1..]), [[ESC]], true)
    else
      var e := Extract(t, s.buffer);
      if e.None? then Turn(s, [], false)
      else
        Turn(AfterEvent(s, e.value.0).(buffer := s.buffer[e.value.1..]), [s.buffer[..e.value.1]], true)
  }

  /** Bookkeeping for the colour-reply hold once an event is recognised. */
  function AfterEvent(s: State, event: Event): State {
    if event == HostColor then s.(awaited := if s.awaited > 0 then s.awaited - 1 else 0, held := false)
    else if event == SchemeChanged && s.tracking then ColorQuerySent(s)
    else s.(held := false)
  }

  function ColorQuerySent(s: State): State {
    s.(awaited := COLOR_QUERY_REPLIES, held := false)
  }

  function Drain(t: Tables, s: State): (r: (State, seq<seq<Byte>>))
    decreases |s.buffer|, if s.discard.Some? then 1 else 0
  {
    var turn := DrainTurn(t, s);
    if turn.again then
      var (last, chunks) := Drain(t, turn.next);
      (last, turn.chunks + chunks)
    else (turn.next, [])
  }

  /** What draining `s` comes to when `chunks` are already out. */
  function Drained(t: Tables, s: State, chunks: seq<seq<Byte>>): (State, seq<seq<Byte>>) {
    (Drain(t, s).0, chunks + Drain(t, s).1)
  }

  lemma DrainedFromStart(t: Tables, s: State)
    ensures Drained(t, s, []) == Drain(t, s)
  {
    assert [] + Drain(t, s).1 == Drain(t, s).1;
  }

  lemma DrainedStep(t: Tables, s: State, chunks: seq<seq<Byte>>, turn: Turn)
    requires turn == DrainTurn(t, s)
    ensures turn.again ==> |turn.next.buffer| < |s.buffer|
                           || (|turn.next.buffer| == |s.buffer| && s.discard.Some? && turn.next.discard.None?)
    ensures Drained(t, s, chunks)
            == if turn.again then Drained(t, turn.next, chunks + turn.chunks)
               else (turn.next, chunks + turn.chunks)
  {
    StopEmitsNothing(t, s);
    hide DrainTurn;
    if turn.again {
      var rest := Drain(t, turn.next).1;
      assert chunks + (turn.chunks + rest) == (chunks + turn.chunks) + rest;
    }
  }

  lemma StopEmitsNothing(t: Tables, s: State)
    ensures !DrainTurn(t, s).again ==> DrainTurn(t, s).chunks == []
  {
    hide Extract, Terminator, CompleteTailLen, IsIncompleteTail, DiscardTail;
  }

  function Feed(s: State, data: seq<Byte>): State {
    s.(buffer := s.buffer + data)
  }

  function Push(t: Tables, s: State, data: seq<Byte>): (State, seq<seq<Byte>>) {
    Drain(t, Feed(s, data))
  }

  // --- flush_timeout ---

  function Flush(t: Tables, s: State): (State, seq<seq<Byte>>) {
    var (drained, chunks) := Drain(t, s);
    var (idle, last) := FlushIdle(t, drained);
    (idle, chunks + last)
  }

  function FlushIdle(t: Tables, s: State): (State, seq<seq<Byte>>) {
    if s.discard.Some? then (FlushDiscard(s, s.discard.value), [])
    else if s.buffer == [] then (s, [])
    else if s.loneFlushed && StartsWith(s.buffer, MOUSE_TAIL) then (FlushTail(t, s), [])
    else if IsIncompleteMouse(s.buffer) then (DiscardMouse(s), [])
    else if IsOpenPaste(s.buffer) || IsOpenColorReply(s.buffer) then (s, [])
    else if IsOpenSchemeReport(s.buffer) then
      (s.(discard := Some(HostColorSchemeCsi), discarded := 0, buffer := []), [])
    else if IsOpenControl(s.buffer) then
      (s.(discard := ControlFamily(s.buffer), discarded := 0, buffer := []), [])
    else if s.buffer == [ESC] then
      if s.awaited > 0 && !s.held then (s.(held := true), [])
      else (s.(awaited := 0, held := false, loneFlushed := true, buffer := []), [[ESC]])
    else if Valid(s.buffer) && t.isKey(s.buffer) then (s.(buffer := []), [s.buffer])
    else if IsIncompleteScalar(s.buffer) || IsEscapedIncompleteScalar(s.buffer) then (s, [])
    else (s.(loneFlushed := false, buffer := []), [])
  }

  /** The idle timeout while a control string is being discarded. */
  function FlushDiscard(s: State, family: Family): State {
    var total := s.discarded + |s.buffer|;
    if family != OrphanedSgrMouseTail && PlausibleTail(family, s.buffer) && total <= MAX_DISCARDED_TAIL then
      s.(discarded := total,
         buffer := if s.buffer != [] && s.buffer[|s.buffer| - 1] == ESC then [ESC] else [])
    else s.(discard := None, discarded := 0, buffer := [])
  }

  /** `discard_or_buffer_orphaned_sgr_mouse_tail`, then the lone-ESC window closes. */
  function FlushTail(t: Tables, s: State): State {
    var n := CompleteTailLen(t, s.buffer);
    if n.Some? then s.(buffer := s.buffer[n.value..], loneFlushed := false)
    else DiscardMouse(s).(loneFlushed := false)
  }

  function DiscardMouse(s: State): State {
    s.(discarded := |s.buffer|,
       discard := if |s.buffer| <= MAX_DISCARDED_TAIL then Some(OrphanedSgrMouseTail) else None,
       buffer := [])
  }

  // --- Runs ---

  datatype Op = Bytes(data: seq<Byte>) | Idle | QuerySent | TrackSchemes

  function Apply(t: Tables, s: State, op: Op): (State, seq<seq<Byte>>) {
    match op
    case Bytes(data) => Push(t, s, data)
    case Idle => Flush(t, s)
    case QuerySent => (ColorQuerySent(s), [])
    case TrackSchemes => (s.(tracking := true), [])
  }

  /** Final state and all emitted chunks of a run. */
  function Run(t: Tables, s: State, ops: seq<Op>): (State, seq<seq<Byte>>)
    decreases |ops|
  {
    if ops == [] then (s, [])
    else
      var (next, chunks) := Apply(t, s, ops[0]);
      var (last, more) := Run(t, next, ops[1..]);
      (last, chunks + more)
  }

  /** All bytes a run pushes. */
  function Pushed(ops: seq<Op>): seq<Byte> {
    if ops == [] then []
    else (if ops[0].Bytes? then ops[0].data else []) + Pushed(ops[1..])
  }

  /** `RawInputFramer::events_from_chunks` on one chunk. */
  function EventOf(t: Tables, chunk: seq<Byte>): Option<Event> {
    if chunk == [ESC] then Some(Key)
    else if Extract(t, chunk).Some? then Some(Extract(t, chunk).value.0)
    else None
  }

  function EventsOf(t: Tables, chunks: seq<seq<Byte>>): seq<Event> {
    if chunks == [] then []
    else
      var e := EventOf(t, chunks[0]);
      (if e.Some? then [e.value] else []) + EventsOf(t, chunks[1..])
  }
}
