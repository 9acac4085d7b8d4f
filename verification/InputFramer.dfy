/** The imperative framer of `raw_input.rs`. Every method leaves exactly the state, and
    returns exactly the chunks, that `FramerSpec` computes from the state before. */
module InputFramer {
  import opened Wrappers
  import opened Bytes
  import opened Utf8
  import opened EscapeSyntax
  import opened FramerSpec

  /** `find_csi_final`. */
  method FindCsiFinal(b: seq<Byte>, final: Byte -> bool) returns (end: Option<nat>)
    ensures end == CsiEnd(b, final)
  {
    var i := 2;
    while i < |b|
      invariant 2 <= i
      invariant PositionFrom(b, final, 2) == PositionFrom(b, final, i)
    {
      if final(b[i]) {
        return Some(i + 1);
      }
      i := i + 1;
    }
    return None;
  }

  class RawInputByteFramer {
    const tables: Tables
    var buffer: seq<Byte>
    var discardUntil: Option<Family>
    var discardedTailBytes: nat
    var loneEscapeRecentlyFlushed: bool
    var hostColorRepliesAwaited: nat
    var heldPendingColorEsc: bool
    var hostColorSchemeChangeTracking: bool
    var splitCoalescedEscape: bool

    ghost function Snapshot(): State
      reads this
    {
      State(buffer, discardUntil, discardedTailBytes, loneEscapeRecentlyFlushed,
            hostColorRepliesAwaited, heldPendingColorEsc, hostColorSchemeChangeTracking,
            splitCoalescedEscape)
    }

    constructor WithHostInputPolicy(tables: Tables, preserveLegacyDoubledEscape: bool)
      ensures Snapshot() == Initial(!preserveLegacyDoubledEscape)
      ensures this.tables == tables
    {
      this.tables := tables;
      buffer := [];
      discardUntil := None;
      discardedTailBytes := 0;
      loneEscapeRecentlyFlushed := false;
      hostColorRepliesAwaited := 0;
      heldPendingColorEsc := false;
      hostColorSchemeChangeTracking := false;
      splitCoalescedEscape := !preserveLegacyDoubledEscape;
    }

    method Push(data: seq<Byte>) returns (chunks: seq<seq<Byte>>)
      modifies this
      ensures (Snapshot(), chunks) == FramerSpec.Push(tables, old(Snapshot()), data)
    {
      buffer := buffer + data;
      chunks := DrainAvailableChunks();
    }

    method HostColorQuerySent()
      modifies this`hostColorRepliesAwaited, this`heldPendingColorEsc
      ensures Snapshot() == ColorQuerySent(old(Snapshot()))
    {
      hostColorRepliesAwaited := COLOR_QUERY_REPLIES;
      heldPendingColorEsc := false;
    }

    method EnableHostColorSchemeChangeTracking()
      modifies this
      ensures Snapshot() == old(Snapshot()).(tracking := true)
    {
      hostColorSchemeChangeTracking := true;
    }

    /** `discard_orphaned_sgr_mouse_tail`. */
    method DiscardOrphanedSgrMouseTail() returns (done: bool)
      modifies this`buffer, this`discardedTailBytes
      ensures TailScan(buffer, discardedTailBytes, done)
              == DiscardTail(old(buffer), old(discardedTailBytes))
    {
      var remaining := if discardedTailBytes < MAX_DISCARDED_TAIL
                       then MAX_DISCARDED_TAIL - discardedTailBytes else 0;
      var inspected := if |buffer| < remaining then |buffer| else remaining;
      for index := 0 to inspected
        invariant buffer == old(buffer) && discardedTailBytes == old(discardedTailBytes)
        invariant PositionFrom(buffer[..inspected], IsNotParameter, 0)
                  == PositionFrom(buffer[..inspected], IsNotParameter, index)
      {
        if IsMouseFinal(buffer[index]) {
          buffer := buffer[index + 1..];
          return true;
        }
        if !IsParameter(buffer[index]) {
          buffer := buffer[index..];
          return true;
        }
      }
      discardedTailBytes := discardedTailBytes + inspected;
      done := |buffer| > inspected;
      buffer := [];
    }

    method DrainAvailableChunks() returns (chunks: seq<seq<Byte>>)
      modifies this
      ensures (Snapshot(), chunks) == Drain(tables, old(Snapshot()))
    {
      chunks := [];
      ghost var goal := Drained(tables, Snapshot(), []);
      DrainedFromStart(tables, Snapshot());
      var again := true;
      while again
        invariant goal == if again then Drained(tables, Snapshot(), chunks) else (Snapshot(), chunks)
        decreases again, |buffer|, if discardUntil.Some? then 1 else 0
      {
        ghost var before := Snapshot();
        var emitted;
        emitted, again := DrainOnce();
        DrainedStep(tables, before, chunks, Turn(Snapshot(), emitted, again));
        chunks := chunks + emitted;
      }
    }

    /** The body of the drain loop; `again` is false where the loop breaks. */
    method DrainOnce() returns (chunks: seq<seq<Byte>>, again: bool)
      modifies this
      ensures Turn(Snapshot(), chunks, again) == DrainTurn(tables, old(Snapshot()))
    {
      hide Extract, Terminator, CompleteTailLen, IsIncompleteTail, DiscardTail, AfterEvent;
      chunks := [];
      if loneEscapeRecentlyFlushed {
        if IsIncompleteTail(buffer) {
          return [], false;
        }
        var tail := CompleteTailLen(tables, buffer);
        loneEscapeRecentlyFlushed := false;
        if tail.Some? {
          buffer := buffer[tail.value..];
          return [], true;
        }
      }

      if discardUntil.Some? {
        if discardUntil.value == OrphanedSgrMouseTail {
          again := DiscardOrphanedSgrMouseTail();
          if again {
            discardUntil := None;
            discardedTailBytes := 0;
          }
          return;
        }
        var terminator := Terminator(buffer, discardUntil.value);
        if terminator.None? {
          return [], false;
        }
        buffer := buffer[terminator.value..];
        discardUntil := None;
        discardedTailBytes := 0;
        return [], true;
      }

      if splitCoalescedEscape && StartsWith(buffer, ESC_ESC) {
        buffer := buffer[1..];
        return [[ESC]], true;
      }

      var found := Extract(tables, buffer);
      if found.None? {
        return [], false;
      }
      var (event, consumed) := found.value;
      NoteEvent(event);
      chunks := [buffer[..consumed]];
      buffer := buffer[consumed..];
      again := true;
    }

    /** The colour-reply hold after a recognised event. */
    method NoteEvent(event: Event)
      modifies this`hostColorRepliesAwaited, this`heldPendingColorEsc
      ensures Snapshot() == AfterEvent(old(Snapshot()), event)
    {
      if event == HostColor {
        hostColorRepliesAwaited :=
          if hostColorRepliesAwaited > 0 then hostColorRepliesAwaited - 1 else 0;
      } else if hostColorSchemeChangeTracking && event == SchemeChanged {
        HostColorQuerySent();
      }
      heldPendingColorEsc := false;
    }

    method FlushTimeout() returns (chunks: seq<seq<Byte>>)
      modifies this
      ensures (Snapshot(), chunks) == Flush(tables, old(Snapshot()))
    {
      chunks := DrainAvailableChunks();
      assert chunks == chunks + [];
      if discardUntil.Some? {
        FlushDiscarding(discardUntil.value);
      } else if buffer == [] {
      } else if loneEscapeRecentlyFlushed && StartsWith(buffer, MOUSE_TAIL) {
        var tail := CompleteTailLen(tables, buffer);
        if tail.Some? {
          buffer := buffer[tail.value..];
        } else {
          StartMouseDiscard();
        }
        loneEscapeRecentlyFlushed := false;
      } else if IsIncompleteMouse(buffer) {
        StartMouseDiscard();
      } else if IsOpenPaste(buffer) {
      } else if IsOpenColorReply(buffer) {
      } else if IsOpenSchemeReport(buffer) {
        discardUntil := Some(HostColorSchemeCsi);
        discardedTailBytes := 0;
        buffer := [];
      } else if IsOpenControl(buffer) {
        discardUntil := ControlFamily(buffer);
        discardedTailBytes := 0;
        buffer := [];
      } else {
        var last := FlushPlain();
        chunks := chunks + last;
      }
    }

    /** The arms of `flush_timeout` behind the control-string cases. */
    method FlushPlain() returns (chunks: seq<seq<Byte>>)
      requires discardUntil.None? && buffer != []
      requires !(loneEscapeRecentlyFlushed && StartsWith(buffer, MOUSE_TAIL))
      requires !IsIncompleteMouse(buffer) && !IsOpenPaste(buffer) && !IsOpenColorReply(buffer)
      requires !IsOpenSchemeReport(buffer) && !IsOpenControl(buffer)
      modifies this
      ensures (Snapshot(), chunks) == FlushIdle(tables, old(Snapshot()))
    {
      chunks := [];
      if buffer == [ESC] {
        if hostColorRepliesAwaited > 0 && !heldPendingColorEsc {
          heldPendingColorEsc := true;
          return;
        }
        hostColorRepliesAwaited := 0;
        heldPendingColorEsc := false;
        loneEscapeRecentlyFlushed := true;
        chunks := [buffer];
        buffer := [];
      } else if Valid(buffer) && tables.isKey(buffer) {
        chunks := [buffer];
        buffer := [];
      } else if IsIncompleteScalar(buffer) || IsEscapedIncompleteScalar(buffer) {
      } else {
        loneEscapeRecentlyFlushed := false;
        buffer := [];
      }
    }

    /** The idle timeout while a control string is being discarded. */
    method FlushDiscarding(family: Family)
      requires discardUntil == Some(family)
      modifies this
      ensures Snapshot() == FlushDiscard(old(Snapshot()), family)
    {
      hide PlausibleTail;
      if family == OrphanedSgrMouseTail {
        buffer := [];
        discardUntil := None;
        discardedTailBytes := 0;
        return;
      }
      var keepSplitSt := buffer != [] && buffer[|buffer| - 1] == ESC;
      var keepDiscarding := PlausibleTail(family, buffer);
      discardedTailBytes := discardedTailBytes + |buffer|;
      buffer := [];
      if keepDiscarding && discardedTailBytes <= MAX_DISCARDED_TAIL {
        if keepSplitSt {
          buffer := buffer + [ESC];
        }
      } else {
        discardUntil := None;
        discardedTailBytes := 0;
      }
    }

    /** Forget an incomplete mouse report and watch for its tail. */
    method StartMouseDiscard()
      modifies this
      ensures Snapshot() == DiscardMouse(old(Snapshot()))
    {
      discardedTailBytes := |buffer|;
      discardUntil := if discardedTailBytes <= MAX_DISCARDED_TAIL then Some(OrphanedSgrMouseTail) else None;
      buffer := [];
    }
  }

  /** `events_from_chunks`: the typed events of a list of chunks. */
  method EventsFromChunks(tables: Tables, chunks: seq<seq<Byte>>) returns (events: seq<Event>)
    ensures events == EventsOf(tables, chunks)
  {
    events := [];
    for i := 0 to |chunks|
      invariant EventsOf(tables, chunks) == events + EventsOf(tables, chunks[i..])
    {
      var event := EventOf(tables, chunks[i]);
      if event.Some? {
        events := events + [event.value];
      }
    }
  }
}
