/** Text and pastes survive any fragmentation and any idle timeouts, and what the typed
    layer `RawInputFramer` makes of the chunks. */
module FramerText {
  import opened Wrappers
  import opened Bytes
  import opened Utf8
  import opened EscapeSyntax
  import opened FramerSpec
  import opened FramerFragments
  import opened FramerBookkeeping

  /** A run that only pushes bytes and idles. */
  predicate IsInput(ops: seq<Op>) {
    forall i :: 0 <= i < |ops| ==> ops[i].Bytes? || ops[i].Idle?
  }

  predicate NoEsc(b: seq<Byte>) {
    forall i :: 0 <= i < |b| ==> b[i] != ESC
  }

  predicate KeysAccepted(t: Tables, text: seq<Byte>)
    requires Valid(text)
  {
    forall i :: 0 <= i < |Scalars(text)| ==> t.isKey(Scalars(text)[i])
  }

  // --- Text ---

  /** `b` continues to valid text whose every scalar the key table accepts. */
  predicate IsText(t: Tables, b: seq<Byte>) {
    Valid(b) && NoEsc(b) && KeysAccepted(t, b)
  }

  lemma TextHead(t: Tables, w: seq<Byte>, rest: seq<Byte>)
    requires IsText(t, w + rest)
    ensures NoEsc(w)
    ensures ScalarLen(w) == 0 ==> w == [] || IsIncompleteScalar(w)
    ensures var n := ScalarLen(w);
            n > 0 ==> && t.isKey(w[..n])
                      && IsText(t, w[n..] + rest)
                      && Scalars(w + rest) == [w[..n]] + Scalars(w[n..] + rest)
  {
    CutText(w, rest);
    var n := ScalarLen(w);
    NoEscParts(w, rest, n);
    if n > 0 {
      KeysShift(t, w[..n], Scalars(w[n..] + rest), Scalars(w + rest));
    }
    hide ScalarLen, Scalars, Valid, NoEsc;
  }

  lemma NoEscParts(w: seq<Byte>, rest: seq<Byte>, n: nat)
    requires NoEsc(w + rest) && n <= |w|
    ensures NoEsc(w) && NoEsc(w[n..] + rest)
  {
    assert forall i :: 0 <= i < |w| ==> w[i] == (w + rest)[i];
    assert forall i :: 0 <= i < |w[n..] + rest| ==> (w[n..] + rest)[i] == (w + rest)[n + i];
  }

  lemma KeysShift(t: Tables, first: seq<Byte>, more: seq<seq<Byte>>, all: seq<seq<Byte>>)
    requires all == [first] + more && forall i :: 0 <= i < |all| ==> t.isKey(all[i])
    ensures t.isKey(first) && forall i :: 0 <= i < |more| ==> t.isKey(more[i])
  {
    assert first == all[0];
    assert forall i :: 0 <= i < |more| ==> more[i] == all[i + 1];
  }

  lemma TextExtract(t: Tables, w: seq<Byte>)
    requires NoEsc(w)
    requires ScalarLen(w) > 0 ==> t.isKey(w[..ScalarLen(w)])
    ensures Extract(t, w) == if ScalarLen(w) > 0 then Some((Key, ScalarLen(w))) else None
  {
    FirstCharLenIsScalarLen(w);
    hide EscapeLen, FirstCharLen, ScalarLen;
    if w != [] {
      assert w[0] != ESC;
    }
  }

  /** The head of a valid text: a complete scalar becomes a chunk, an incomplete one waits. */
  lemma TextTurn(t: Tables, s: State)
    requires Clean(s) && NoEsc(s.buffer)
    requires ScalarLen(s.buffer) > 0 ==> t.isKey(s.buffer[..ScalarLen(s.buffer)])
    ensures var n := ScalarLen(s.buffer);
            DrainTurn(t, s)
            == if n > 0 then Turn(s.(buffer := s.buffer[n..], held := false), [s.buffer[..n]], true)
               else Turn(s, [], false)
  {
    TextExtract(t, s.buffer);
    hide Extract, ScalarLen;
    if s.buffer != [] {
      assert s.buffer[0] != ESC;
    }
  }

  lemma {:induction false} TextDrain(t: Tables, s: State, rest: seq<Byte>)
    requires Clean(s) && IsText(t, s.buffer + rest)
    ensures var (next, chunks) := Drain(t, s);
            && Clean(next)
            && (next.buffer == [] || IsIncompleteScalar(next.buffer))
            && IsText(t, next.buffer + rest)
            && Scalars(s.buffer + rest) == chunks + Scalars(next.buffer + rest)
    decreases |s.buffer|
  {
    hide DrainTurn, Scalars, Valid, NoEsc, KeysAccepted, ScalarLen, IsIncompleteScalar;
    TextHead(t, s.buffer, rest);
    TextTurn(t, s);
    var turn := DrainTurn(t, s);
    if turn.again {
      TextDrain(t, turn.next, rest);
      var (next, chunks) := Drain(t, turn.next);
      assert turn.chunks + (chunks + Scalars(next.buffer + rest))
          == (turn.chunks + chunks) + Scalars(next.buffer + rest);
    } else {
      assert [] + Scalars(s.buffer + rest) == Scalars(s.buffer + rest);
    }
  }

  lemma StillFlush(t: Tables, s: State)
    requires !DrainTurn(t, s).again && DrainTurn(t, s).next == s
    requires FlushIdle(t, s) == (s, [])
    ensures Drain(t, s) == (s, []) && Flush(t, s) == (s, [])
  {
    hide DrainTurn, FlushIdle;
    assert |Flush(t, s).1| == 0;
  }

  /** An idle timeout waits for the rest of a scalar and changes nothing. */
  lemma TextIdle(t: Tables, s: State)
    requires Clean(s) && NoEsc(s.buffer)
    requires s.buffer == [] || IsIncompleteScalar(s.buffer)
    ensures Flush(t, s) == (s, [])
  {
    var b := s.buffer;
    if b != [] {
      assert b[0] != ESC;
      IncompleteIsInvalid(b);
    }
    TextTurn(t, s);
    assert FlushIdle(t, s) == (s, []) by {
      hide Extract, FindFrom, ControlEnd, IsIncompleteScalar, Valid;
    }
    hide FlushIdle, DrainTurn;
    StillFlush(t, s);
  }

  lemma WaitingIsText(t: Tables, b: seq<Byte>)
    requires b == [] || IsIncompleteScalar(b)
    requires Valid(b)
    ensures b == [] && Scalars(b) == []
  {
    if b != [] {
      IncompleteIsInvalid(b);
    }
  }

  /** Valid UTF-8 without ESC, cut anywhere and with idle timeouts anywhere between the
      pieces, arrives as exactly one chunk per scalar, in order, with nothing left over. */
  lemma {:induction false} TextSurvives(t: Tables, s: State, ops: seq<Op>)
    requires Clean(s) && IsInput(ops)
    requires s.buffer == [] || IsIncompleteScalar(s.buffer)
    requires IsText(t, s.buffer + Pushed(ops))
    ensures var (last, chunks) := Run(t, s, ops);
            && chunks == Scalars(s.buffer + Pushed(ops))
            && last.buffer == [] && Clean(last)
    decreases |ops|
  {
    if ops == [] {
      assert s.buffer + [] == s.buffer;
      WaitingIsText(t, s.buffer);
    } else {
      hide Drain, Flush, IsIncompleteScalar, Scalars, IsText, Run, Pushed, NoEsc;
      RunStep(t, s, ops);
      PushedStep(s.buffer, ops);
      var later := Pushed(ops[1..]);
      if ops[0].Idle? {
        assert s.buffer + [] == s.buffer;
        TextHead(t, s.buffer, later);
        TextIdle(t, s);
        TextSurvives(t, s, ops[1..]);
        assert [] + Run(t, s, ops[1..]).1 == Run(t, s, ops[1..]).1;
      } else {
        var fed := Feed(s, ops[0].data);
        TextDrain(t, fed, later);
        TextSurvives(t, Drain(t, fed).0, ops[1..]);
      }
    }
  }

  // --- Pastes ---

  /** Neither the opener nor a body without the terminator can overlap a terminator
      that starts later: the terminator has ESC only at its head. */
  lemma PasteEndsAtTerminator(body: seq<Byte>, rest: seq<Byte>)
    requires FindFrom(body, PASTE_END, 0).None?
    ensures FindFrom(body + PASTE_END + rest, PASTE_END, 0) == Some(|body|)
  {
    var b := body + PASTE_END + rest;
    assert OccursAt(b, PASTE_END, |body|);
    forall i: nat | i < |body|
      ensures !OccursAt(b, PASTE_END, i)
    {
      if i + 6 <= |body| {
        assert b == body + (PASTE_END + rest);
        OccursStable(body, PASTE_END + rest, PASTE_END, i);
      } else {
        var k := |body| - i;
        assert b[i..i + 6][k] == b[|body|] == ESC;
        assert PASTE_END[k] != ESC;
      }
    }
  }

  /** A cut through a paste leaves no terminator in front of the cut. */
  lemma OpenBeforeTerminator(body: seq<Byte>, p: seq<Byte>, rest: seq<Byte>)
    requires FindFrom(body, PASTE_END, 0).None?
    requires p + rest == body + PASTE_END && rest != []
    ensures FindFrom(p, PASTE_END, 0).None?
  {
    PasteEndsAtTerminator(body, []);
    assert body + PASTE_END + [] == body + PASTE_END;
    var i := FindFrom(p, PASTE_END, 0);
    if i.Some? {
      OccursStable(p, rest, PASTE_END, i.value);
    }
  }

  lemma OpenPasteWaits(t: Tables, s: State)
    requires Clean(s) && IsOpenPaste(s.buffer)
    ensures Drain(t, s) == (s, []) && Flush(t, s) == (s, [])
  {
    hide EscapeLen, FindFrom, ControlEnd, Valid;
    assert s.buffer[1] == 0x5B && s.buffer[2] == 0x32;
    assert DrainTurn(t, s) == Turn(s, [], false);
    assert FlushIdle(t, s) == (s, []);
    hide FlushIdle, DrainTurn;
    StillFlush(t, s);
  }

  /** A paste with nothing behind it is one event if and only if its content is UTF-8. */
  lemma PasteExtract(t: Tables, content: seq<Byte>)
    requires FindFrom(PASTE_START + content, PASTE_END, 0).None?
    ensures var paste := PASTE_START + content + PASTE_END;
            Extract(t, paste) == if Valid(content) then Some((Paste(content), |paste|)) else None
  {
    var body := PASTE_START + content;
    PasteEndsAtTerminator(body, []);
    assert body + PASTE_END + [] == body + PASTE_END;
    assert StartsWith(body + PASTE_END, PASTE_START);
    assert (body + PASTE_END)[6..|body|] == content;
    hide EscapeLen, FindFrom, Valid;
  }

  lemma ClosedPasteTurn(t: Tables, s: State, content: seq<Byte>)
    requires Clean(s) && s.buffer == PASTE_START + content + PASTE_END
    requires FindFrom(PASTE_START + content, PASTE_END, 0).None?
    ensures Extract(t, s.buffer) == if Valid(content) then Some((Paste(content), |s.buffer|)) else None
    ensures DrainTurn(t, s) == if Valid(content) then Turn(AfterPaste(s), [s.buffer], true)
                               else Turn(s, [], false)
  {
    PasteExtract(t, content);
    PasteStart(content, s.buffer);
    hide Extract, FindFrom, Valid;
    if Valid(content) {
      assert s.buffer + [] == s.buffer && s.(buffer := s.buffer + []) == s;
      ChunkTurn(t, s, s.buffer, [], Paste(content));
    } else {
      WaitingTurn(t, s);
    }
  }

  lemma WaitingTurn(t: Tables, s: State)
    requires Clean(s) && Extract(t, s.buffer).None? && |s.buffer| >= 2 && s.buffer[1] != ESC
    ensures DrainTurn(t, s) == Turn(s, [], false)
  {
    hide Extract;
  }

  lemma EmptyDrains(t: Tables, s: State)
    requires Clean(s) && s.buffer == []
    ensures Drain(t, s) == (s, []) && Flush(t, s) == (s, [])
  {
    assert DrainTurn(t, s) == Turn(s, [], false);
    StillFlush(t, s);
  }

  /** A run over a clean, empty framer that pushes nothing does nothing. */
  lemma {:induction false} NothingPushed(t: Tables, s: State, ops: seq<Op>)
    requires Clean(s) && s.buffer == [] && IsInput(ops) && Pushed(ops) == []
    ensures Run(t, s, ops) == (s, [])
    decreases |ops|
  {
    if ops != [] {
      hide Drain, Flush;
      RunStep(t, s, ops);
      EmptyDrains(t, s);
      assert Feed(s, []) == s;
      assert ops[0].Bytes? ==> ops[0].data == [] by { assert |Pushed(ops)| == 0; }
      NothingPushed(t, s, ops[1..]);
    }
  }

  lemma ClosedPasteDrain(t: Tables, s: State, content: seq<Byte>)
    requires Clean(s) && s.buffer == PASTE_START + content + PASTE_END
    requires FindFrom(PASTE_START + content, PASTE_END, 0).None?
    requires Valid(content)
    ensures Drain(t, s) == (s.(buffer := [], held := false), [s.buffer])
  {
    ClosedPasteTurn(t, s, content);
    EmptyDrains(t, s.(buffer := [], held := false));
    hide DrainTurn, Extract;
    assert [s.buffer] + [] == [s.buffer];
  }

  /** The framer right behind a paste. */
  function AfterPaste(s: State): State {
    s.(buffer := [], held := false)
  }

  /** The run emits the paste first. Operation `k` brings its last byte, and the run goes on
      as if the framer were empty and got only the `tail` of that piece. */
  predicate PasteFirst(t: Tables, s: State, paste: seq<Byte>, rest: seq<Byte>, ops: seq<Op>, k: nat, tail: seq<Byte>) {
    && k < |ops| && ops[k].Bytes?
    && |tail| <= |ops[k].data| && ops[k].data[|ops[k].data| - |tail|..] == tail
    && tail + Pushed(ops[k + 1..]) == rest
    && var (last, more) := Run(t, AfterPaste(s), [Bytes(tail)] + ops[k + 1..]);
       Run(t, s, ops) == (last, [paste] + more)
  }

  /** Once the opener is buffered, the bytes up to the first terminator arrive as one
      chunk, however they are cut, however many idle timeouts fall in between and whatever
      follows, be it in the piece that brings the terminator. */
  lemma {:induction false} PasteIsAtomic(t: Tables, s: State, content: seq<Byte>, rest: seq<Byte>, ops: seq<Op>)
    returns (k: nat, tail: seq<Byte>)
    requires Clean(s) && IsInput(ops) && Valid(content)
    requires IsOpenPaste(s.buffer)
    requires s.buffer + Pushed(ops) == PASTE_START + content + PASTE_END + rest
    requires FindFrom(PASTE_START + content, PASTE_END, 0).None?
    ensures PasteFirst(t, s, PASTE_START + content + PASTE_END, rest, ops, k, tail)
    decreases |ops|
  {
    var paste := PASTE_START + content + PASTE_END;
    hide IsOpenPaste, Clean;
    OpenPasteIsShorter(s.buffer, content, Pushed(ops), rest);
    if ops == [] {
      assert false;
    } else if ops[0].Idle? {
      hide Drain, Flush, FindFrom, Valid, PasteFirst, Run;
      OpenPasteWaits(t, s);
      assert Pushed(ops) == Pushed(ops[1..]);
      k, tail := PasteIsAtomic(t, s, content, rest, ops[1..]);
      LaterPaste(t, s, s, paste, rest, ops, k, tail);
      k := k + 1;
    } else {
      var data, later := ops[0].data, Pushed(ops[1..]);
      var fed := Feed(s, data);
      assert fed.buffer + later == paste + rest by {
        assert s.buffer + Pushed(ops) == s.buffer + data + later;
      }
      hide Drain, Flush, FindFrom, Valid, PasteFirst, Run, Pushed;
      if |fed.buffer| < |paste| {
        CleanFeed(s, data);
        OpenPrefix(fed.buffer, s.buffer, content, later, rest);
        OpenPasteWaits(t, fed);
        k, tail := PasteIsAtomic(t, fed, content, rest, ops[1..]);
        LaterPaste(t, s, fed, paste, rest, ops, k, tail);
        k := k + 1;
      } else {
        k, tail := 0, fed.buffer[|paste|..];
        CompletedPaste(s.buffer, data, later, rest, paste);
        PasteHere(t, s, content, rest, ops, tail);
      }
    }
  }

  lemma CleanFeed(s: State, data: seq<Byte>)
    requires Clean(s)
    ensures Clean(Feed(s, data))
  {
  }

  /** An operation that leaves the paste open and emits nothing. */
  lemma LaterPaste(t: Tables, s: State, next: State, paste: seq<Byte>, rest: seq<Byte>, ops: seq<Op>,
                   k: nat, tail: seq<Byte>)
    requires ops != [] && Apply(t, s, ops[0]) == (next, []) && AfterPaste(next) == AfterPaste(s)
    requires PasteFirst(t, next, paste, rest, ops[1..], k, tail)
    ensures PasteFirst(t, s, paste, rest, ops, k + 1, tail)
  {
    hide Apply, Pushed;
    assert ops[1..][k + 1..] == ops[k + 2..] && ops[1..][k] == ops[k + 1];
    assert [] + Run(t, next, ops[1..]).1 == Run(t, next, ops[1..]).1;
    assert Run(t, s, ops) == (Run(t, next, ops[1..]).0, [] + Run(t, next, ops[1..]).1);
    hide Run;
  }

  /** The piece that completes the paste. */
  lemma PasteHere(t: Tables, s: State, content: seq<Byte>, rest: seq<Byte>, ops: seq<Op>, tail: seq<Byte>)
    requires Clean(s) && Valid(content) && FindFrom(PASTE_START + content, PASTE_END, 0).None?
    requires ops != [] && ops[0].Bytes?
    requires s.buffer + ops[0].data == PASTE_START + content + PASTE_END + tail
    requires |tail| <= |ops[0].data| && ops[0].data[|ops[0].data| - |tail|..] == tail
    requires tail + Pushed(ops[1..]) == rest
    ensures PasteFirst(t, s, PASTE_START + content + PASTE_END, rest, ops, 0, tail)
  {
    hide Run, Drain, FindFrom, Valid, Clean, AfterPaste;
    LastPiece(t, s, Feed(s, ops[0].data), content, tail, ops[1..]);
    RunHead(t, s, ops);
  }

  /** Pushing the first piece, then the others. */
  lemma RunHead(t: Tables, s: State, ops: seq<Op>)
    requires ops != [] && ops[0].Bytes?
    ensures var (next, chunks) := Drain(t, Feed(s, ops[0].data));
            var (last, more) := Run(t, next, ops[1..]);
            Run(t, s, ops) == (last, chunks + more)
  {
    hide Drain;
  }

  /** An open paste lacks some byte up to its terminator. */
  lemma OpenPasteIsShorter(b: seq<Byte>, content: seq<Byte>, later: seq<Byte>, rest: seq<Byte>)
    requires IsOpenPaste(b) && b + later == PASTE_START + content + PASTE_END + rest
    requires FindFrom(PASTE_START + content, PASTE_END, 0).None?
    ensures |b| < |PASTE_START + content + PASTE_END|
  {
    var paste := PASTE_START + content + PASTE_END;
    PasteEndsAtTerminator(PASTE_START + content, []);
    assert paste + [] == paste;
    if |b| >= |paste| {
      assert b[..|paste|] == (b + later)[..|paste|] == paste;
      assert b == paste + b[|paste|..];
      FindStable(paste, b[|paste|..], PASTE_END, 0);
    }
  }

  lemma CompletedPaste(front: seq<Byte>, data: seq<Byte>, later: seq<Byte>, rest: seq<Byte>, paste: seq<Byte>)
    requires front + data + later == paste + rest && |front| < |paste| <= |front + data|
    ensures var tail := (front + data)[|paste|..];
            && front + data == paste + tail && |tail| <= |data| && data[|data| - |tail|..] == tail
            && tail + later == rest
  {
    var b := front + data;
    assert b[..|paste|] == (b + later)[..|paste|] == paste;
    assert data == b[|front|..];
    assert (b + later)[|paste|..] == b[|paste|..] + later;
    assert (paste + rest)[|paste|..] == rest;
  }

  /** As long as a byte of the paste is missing, the buffer is an open paste. */
  lemma OpenPrefix(b: seq<Byte>, front: seq<Byte>, content: seq<Byte>, later: seq<Byte>, rest: seq<Byte>)
    requires IsOpenPaste(front) && front <= b
    requires b + later == PASTE_START + content + PASTE_END + rest && |b| < |PASTE_START + content + PASTE_END|
    requires FindFrom(PASTE_START + content, PASTE_END, 0).None?
    ensures IsOpenPaste(b)
  {
    hide FindFrom;
    var paste := PASTE_START + content + PASTE_END;
    assert b == paste[..|b|] && b + paste[|b|..] == paste by {
      assert (b + later)[..|b|] == (paste + rest)[..|b|];
    }
    OpenBeforeTerminator(PASTE_START + content, b, paste[|b|..]);
    assert b[..6] == front[..6];
  }

  /** The piece that completes the paste. */
  lemma LastPiece(t: Tables, s: State, fed: State, content: seq<Byte>, tail: seq<Byte>, ops: seq<Op>)
    requires Clean(s) && fed == s.(buffer := PASTE_START + content + PASTE_END + tail) && Valid(content)
    requires FindFrom(PASTE_START + content, PASTE_END, 0).None?
    ensures var (next, chunks) := Drain(t, fed);
            var (last, more) := Run(t, next, ops);
            var (last', more') := Run(t, AfterPaste(s), [Bytes(tail)] + ops);
            last == last' && chunks + more == [PASTE_START + content + PASTE_END] + more'
  {
    var paste := PASTE_START + content + PASTE_END;
    var behind := AfterPaste(s).(buffer := tail);
    PasteTurn(t, s, content, paste, tail);
    RunPush(t, AfterPaste(s), tail, ops);
    hide DrainTurn, Run, Valid, FindFrom;
    DrainAfterTurn(t, fed);
    assert Feed(AfterPaste(s), tail) == behind by { assert [] + tail == tail; }
    hide Drain, Clean;
    Regroup([paste], Drain(t, behind).1, Run(t, Drain(t, behind).0, ops).1);
  }

  lemma RunPush(t: Tables, s: State, data: seq<Byte>, ops: seq<Op>)
    ensures var (next, chunks) := Push(t, s, data);
            var (last, more) := Run(t, next, ops);
            Run(t, s, [Bytes(data)] + ops) == (last, chunks + more)
  {
    hide Push;
    assert ([Bytes(data)] + ops)[1..] == ops;
  }

  /** A complete paste at the head is one chunk, whatever stands behind it. */
  lemma PasteTurn(t: Tables, s: State, content: seq<Byte>, paste: seq<Byte>, tail: seq<Byte>)
    requires Clean(s) && Valid(content) && paste == PASTE_START + content + PASTE_END
    requires FindFrom(PASTE_START + content, PASTE_END, 0).None?
    ensures DrainTurn(t, s.(buffer := paste + tail)) == Turn(AfterPaste(s).(buffer := tail), [paste], true)
  {
    PasteExtract(t, content);
    PasteStart(content, paste);
    hide Extract, Valid, FindFrom, Clean, AfterPaste, DrainTurn;
    ChunkTurn(t, s, paste, tail, Paste(content));
  }

  lemma PasteStart(content: seq<Byte>, paste: seq<Byte>)
    requires paste == PASTE_START + content + PASTE_END
    ensures |paste| >= 12 && paste[1] == 0x5B && paste[2] == 0x32
  {
  }

  /** A recognised event that is no colour report becomes one chunk. */
  lemma ChunkTurn(t: Tables, s: State, head: seq<Byte>, tail: seq<Byte>, event: Event)
    requires Clean(s) && Extract(t, head) == Some((event, |head|)) && |head| >= 2 && head[1] != ESC
    requires event != HostColor && event != SchemeChanged
    ensures DrainTurn(t, s.(buffer := head + tail)) == Turn(AfterPaste(s).(buffer := tail), [head], true)
  {
    ExtractStable(t, head, tail);
    assert (head + tail)[1] == head[1];
    assert (head + tail)[..|head|] == head && (head + tail)[|head|..] == tail;
    hide Extract;
  }

  lemma DrainAfterTurn(t: Tables, s: State)
    requires DrainTurn(t, s).again
    ensures var turn := DrainTurn(t, s);
            Drain(t, s) == (Drain(t, turn.next).0, turn.chunks + Drain(t, turn.next).1)
  {
    hide DrainTurn;
  }

  /** A paste with nothing behind it is the one chunk of the run. */
  lemma PasteAlone(t: Tables, s: State, content: seq<Byte>, ops: seq<Op>)
    requires Clean(s) && IsInput(ops) && Valid(content)
    requires IsOpenPaste(s.buffer)
    requires s.buffer + Pushed(ops) == PASTE_START + content + PASTE_END
    requires FindFrom(PASTE_START + content, PASTE_END, 0).None?
    ensures Run(t, s, ops) == (AfterPaste(s), [PASTE_START + content + PASTE_END])
  {
    assert PASTE_START + content + PASTE_END + [] == PASTE_START + content + PASTE_END;
    var k, tail := PasteIsAtomic(t, s, content, [], ops);
    hide IsOpenPaste;
    var later := [Bytes(tail)] + ops[k + 1..];
    assert later[1..] == ops[k + 1..];
    assert tail == [] && Pushed(ops[k + 1..]) == [] by { assert |tail + Pushed(ops[k + 1..])| == 0; }
    hide Run, FindFrom, Valid;
    NothingPushed(t, AfterPaste(s), later) by {
      assert Pushed(later) == tail + Pushed(ops[k + 1..]);
    }
    assert [PASTE_START + content + PASTE_END] + [] == [PASTE_START + content + PASTE_END];
  }

  /** ASCII in front of a text does not matter to its validity. */
  lemma {:induction false} AsciiPrefix(p: seq<Byte>, y: seq<Byte>)
    requires forall i :: 0 <= i < |p| ==> p[i] < 0x80
    requires Valid(p + y)
    ensures Valid(y)
  {
    if p == [] {
      assert p + y == y;
    } else {
      assert (p + y)[1..] == p[1..] + y;
      AsciiPrefix(p[1..], y);
    }
  }

  /** A valid text may be cut in front of an ASCII byte. */
  lemma {:induction false} AsciiBoundary(c: seq<Byte>, x: seq<Byte>)
    requires x != [] && x[0] < 0x80
    requires Valid(c + x)
    ensures Valid(c)
    decreases |c|
  {
    CutText(c, x);
    var n := ScalarLen(c);
    if n > 0 {
      AsciiBoundary(c[n..], x);
    } else if c != [] {
      IncompleteNeedsTail(c, x);
    }
  }

  lemma IncompleteNeedsTail(c: seq<Byte>, x: seq<Byte>)
    requires IsIncompleteScalar(c) && x != [] && x[0] < 0x80
    ensures ScalarLen(c + x) == 0
  {
    var n := LeadLen(c[0]);
    if |c + x| >= n {
      var head := (c + x)[..n];
      assert head[0] == c[0] && head[|c|] == x[0];
    }
  }

  lemma PasteValidity(content: seq<Byte>)
    requires Valid(PASTE_START + content + PASTE_END)
    ensures Valid(content)
  {
    assert PASTE_START + content + PASTE_END == PASTE_START + (content + PASTE_END);
    AsciiPrefix(PASTE_START, content + PASTE_END);
    AsciiBoundary(content, PASTE_END);
  }

  lemma InvalidPasteIsDropped(t: Tables, s: State, content: seq<Byte>)
    requires Clean(s) && s.buffer == PASTE_START + content + PASTE_END
    requires FindFrom(s.buffer, PASTE_END, 0).Some? && !Valid(content)
    ensures FlushIdle(t, s) == (s.(buffer := []), [])
  {
    hide Valid, FindFrom, ControlEnd, TailsFit;
    if Valid(s.buffer) {
      PasteValidity(content);
    }
    PasteStart(content, s.buffer);
  }

  /** A complete paste is delivered if and only if its content is UTF-8. Otherwise it
      blocks the framer, and the next idle timeout drops it whole. */
  lemma PasteDeliveredIffUtf8(t: Tables, s: State, content: seq<Byte>)
    requires Clean(s) && s.buffer == PASTE_START + content + PASTE_END
    requires FindFrom(PASTE_START + content, PASTE_END, 0).None?
    ensures Drain(t, s).1 == (if Valid(content) then [s.buffer] else [])
    ensures EventsOf(t, Flush(t, s).1) == (if Valid(content) then [Paste(content)] else [])
    ensures Flush(t, s).0.buffer == []
  {
    var b := s.buffer;
    ClosedPasteTurn(t, s, content);
    if Valid(content) {
      ClosedPasteDrain(t, s, content);
      hide Drain, DrainTurn, Flush, Extract;
      var next := Drain(t, s).0;
      assert Flush(t, s) == (next, [b]) by { EmptyFlushAfter(t, s, next, [b]); }
      assert EventOf(t, b) == Some(Paste(content));
      assert EventsOf(t, [b]) == [Paste(content)] + EventsOf(t, []);
    } else {
      PasteEndsAtTerminator(PASTE_START + content, []);
      assert PASTE_START + content + PASTE_END + [] == b;
      InvalidPasteIsDropped(t, s, content);
      hide DrainTurn, FlushIdle, Extract;
      assert Drain(t, s) == (s, []);
      assert |Flush(t, s).1| == 0;
    }
  }

  lemma EmptyFlushAfter(t: Tables, s: State, next: State, chunks: seq<seq<Byte>>)
    requires Drain(t, s) == (next, chunks) && Clean(next) && next.buffer == []
    ensures Flush(t, s) == (next, chunks)
  {
    hide Drain;
    assert chunks + [] == chunks;
  }
}
