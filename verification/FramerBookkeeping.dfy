/** What every run of the framer keeps, and what an idle timeout may leave behind. */
module FramerBookkeeping {
  import opened Wrappers
  import opened Bytes
  import opened Utf8
  import opened EscapeSyntax
  import opened FramerSpec
  import opened FramerFragments

  /** `out` and then `rest` are what is left of `input` after deleting bytes. */
  predicate Accounted(out: seq<seq<Byte>>, rest: seq<Byte>, input: seq<Byte>) {
    Subsequence(Concat(out) + rest, input)
  }

  /** Exactly what may still be buffered after `flush_timeout`. */
  predicate IdleBuffer(b: seq<Byte>) {
    || b == []
    || b == [ESC]
    || IsOpenPaste(b)
    || IsOpenColorReply(b)
    || IsIncompleteScalar(b)
    || IsEscapedIncompleteScalar(b)
  }

  lemma CutPrefix(b: seq<Byte>, n: nat)
    requires n <= |b|
    ensures Subsequence(b[n..], b)
  {
    hide Subsequence;
    SubsequenceCut([], b[..n], b[n..]);
    assert [] + b[n..] == b[n..];
    assert [] + b[..n] + b[n..] == b;
  }

  lemma TailRest(b: seq<Byte>, d: nat)
    ensures Subsequence(DiscardTail(b, d).rest, b)
  {
    var stop := PositionFrom(b[..Inspected(b, d)], IsNotParameter, 0);
    if stop.Some? {
      CutPrefix(b, stop.value);
      CutPrefix(b, stop.value + 1);
    }
  }

  /** One turn moves a prefix of the buffer to a chunk, or deletes a prefix of it. */
  lemma TurnTakesPrefix(t: Tables, s: State)
    ensures var r := DrainTurn(t, s);
            || (|r.chunks| == 1 && r.chunks[0] + r.next.buffer == s.buffer)
            || (r.chunks == [] && Subsequence(r.next.buffer, s.buffer))
  {
    hide Extract, DiscardTail, Subsequence, CompleteTailLen, IsIncompleteTail, Terminator, StartsWith, SettledTurn;
    var b := s.buffer;
    SubsequenceRefl(b);
    if s.loneFlushed && !IsIncompleteTail(b) && CompleteTailLen(t, b).Some? {
      CutPrefix(b, CompleteTailLen(t, b).value);
    } else {
      SettledTakesPrefix(t, s.(loneFlushed := false));
    }
  }

  lemma SettledTakesPrefix(t: Tables, s: State)
    ensures var r := SettledTurn(t, s);
            || (|r.chunks| == 1 && r.chunks[0] + r.next.buffer == s.buffer)
            || (r.chunks == [] && Subsequence(r.next.buffer, s.buffer))
  {
    hide Extract, DiscardTail, Subsequence, Terminator;
    var b := s.buffer;
    TailRest(b, s.discarded);
    SubsequenceRefl(b);
    if s.discard.Some? && Terminator(b, s.discard.value).Some? {
      CutPrefix(b, Terminator(b, s.discard.value).value);
    } else if s.splitEsc && StartsWith(b, ESC_ESC) {
      assert b == [ESC] + b[1..];
    } else if Extract(t, b).Some? {
      assert b == b[..Extract(t, b).value.1] + b[Extract(t, b).value.1..];
    }
  }

  lemma TurnAccounts(t: Tables, s: State)
    ensures var r := DrainTurn(t, s); Accounted(r.chunks, r.next.buffer, s.buffer)
  {
    TurnTakesPrefix(t, s);
    SubsequenceRefl(s.buffer);
    hide DrainTurn, Subsequence;
    var r := DrainTurn(t, s);
    if r.chunks == [] {
      assert Concat([]) + r.next.buffer == r.next.buffer;
    } else {
      assert Concat(r.chunks) == r.chunks[0] + Concat([]) == r.chunks[0];
    }
  }

  lemma AccountedAppend(out: seq<seq<Byte>>, rest: seq<Byte>, input: seq<Byte>, later: seq<Byte>)
    requires Accounted(out, rest, input)
    ensures Accounted(out, rest + later, input + later)
  {
    hide Subsequence, Concat;
    SubsequenceAppend(Concat(out) + rest, input, later);
    Regroup(Concat(out), rest, later);
  }

  lemma AccountedThen(out: seq<seq<Byte>>, mid: seq<Byte>, input: seq<Byte>,
                      more: seq<seq<Byte>>, rest: seq<Byte>)
    requires Accounted(out, mid, input) && Accounted(more, rest, mid)
    ensures Accounted(out + more, rest, input)
  {
    ConcatAppend(out, more);
    PrependSubsequence(Concat(out), Concat(more) + rest, mid);
    assert Concat(out + more) + rest == Concat(out) + (Concat(more) + rest);
    SubsequenceTrans(Concat(out + more) + rest, Concat(out) + mid, input);
  }

  lemma {:induction false} PrependSubsequence(p: seq<Byte>, x: seq<Byte>, y: seq<Byte>)
    requires Subsequence(x, y)
    ensures Subsequence(p + x, p + y)
  {
    if p == [] {
      assert p + x == x && p + y == y;
    } else {
      PrependSubsequence(p[1..], x, y);
      assert (p + x)[1..] == p[1..] + x && (p + y)[1..] == p[1..] + y;
    }
  }

  lemma {:induction false} DrainAccounts(t: Tables, s: State)
    ensures Accounted(Drain(t, s).1, Drain(t, s).0.buffer, s.buffer)
    decreases |s.buffer|, if s.discard.Some? then 1 else 0
  {
    hide DrainTurn, Accounted;
    var r := DrainTurn(t, s);
    TurnAccounts(t, s);
    if r.again {
      DrainAccounts(t, r.next);
      AccountedThen(r.chunks, r.next.buffer, s.buffer, Drain(t, r.next).1, Drain(t, r.next).0.buffer);
    } else {
      StopEmitsNothing(t, s);
    }
  }

  /** What an idle timeout keeps of `b`. */
  predicate Remainder(t: Tables, b: seq<Byte>, rest: seq<Byte>) {
    || rest == []
    || rest == b
    || (b != [] && b[|b| - 1] == ESC && rest == [ESC])
    || (CompleteTailLen(t, b).Some? && rest == b[CompleteTailLen(t, b).value..])
  }

  lemma RemainderAccounts(t: Tables, b: seq<Byte>, rest: seq<Byte>)
    requires Remainder(t, b, rest)
    ensures Subsequence(rest, b)
  {
    if rest == [] {
    } else if rest == b {
      SubsequenceRefl(b);
    } else if b[|b| - 1] == ESC && rest == [ESC] {
      CutPrefix(b, |b| - 1);
      assert b[|b| - 1..] == [ESC];
    } else {
      CutPrefix(b, CompleteTailLen(t, b).value);
    }
  }

  /** An idle timeout emits the whole buffer as one chunk, or emits nothing. */
  lemma IdleEmitsAllOrNothing(t: Tables, s: State)
    ensures var r := FlushIdle(t, s);
            || (r.1 == [s.buffer] && r.0.buffer == [])
            || (r.1 == [] && Remainder(t, s.buffer, r.0.buffer))
  {
    hide CompleteTailLen, Valid, PlausibleTail, IsIncompleteMouse, IsOpenPaste, IsOpenControl,
      IsOpenColorReply, IsOpenSchemeReport, IsIncompleteScalar, IsEscapedIncompleteScalar;
  }

  lemma IdleAccounts(t: Tables, s: State)
    ensures Accounted(FlushIdle(t, s).1, FlushIdle(t, s).0.buffer, s.buffer)
  {
    IdleEmitsAllOrNothing(t, s);
    hide FlushIdle, Subsequence, Remainder;
    var b := s.buffer;
    var r := FlushIdle(t, s);
    if r.1 == [] {
      RemainderAccounts(t, b, r.0.buffer);
      assert Concat([]) + r.0.buffer == r.0.buffer;
    } else {
      SubsequenceRefl(b);
      assert Concat(r.1) == b + Concat([]) == b;
      assert b + [] == b;
    }
  }

  /** `push` hands bytes on or deletes them; it neither invents nor reorders any. */
  lemma ApplyAccounts(t: Tables, s: State, op: Op)
    ensures var input := s.buffer + (if op.Bytes? then op.data else []);
            Accounted(Apply(t, s, op).1, Apply(t, s, op).0.buffer, input)
  {
    hide Drain, FlushIdle, Subsequence;
    assert s.buffer + [] == s.buffer;
    match op
    case Bytes(data) => DrainAccounts(t, Feed(s, data));
    case Idle =>
      var (drained, chunks) := Drain(t, s);
      DrainAccounts(t, s);
      IdleAccounts(t, drained);
      var (idle, last) := FlushIdle(t, drained);
      AccountedThen(chunks, drained.buffer, s.buffer, last, idle.buffer);
    case QuerySent => SubsequenceRefl(s.buffer); assert Concat([]) + s.buffer == s.buffer;
    case TrackSchemes => SubsequenceRefl(s.buffer); assert Concat([]) + s.buffer == s.buffer;
  }

  /** On every run, the chunks followed by the buffer are the pushed bytes with some
      deleted: nothing is invented, repeated or reordered. */
  lemma {:induction false} RunAccounts(t: Tables, s: State, ops: seq<Op>)
    ensures Accounted(Run(t, s, ops).1, Run(t, s, ops).0.buffer, s.buffer + Pushed(ops))
    decreases |ops|
  {
    hide Apply, Subsequence;
    if ops == [] {
      SubsequenceRefl(s.buffer);
      assert Concat([]) + s.buffer == s.buffer == s.buffer + [];
    } else {
      hide Run, Pushed, Concat, Accounted;
      var data := if ops[0].Bytes? then ops[0].data else [];
      var (next, chunks) := Apply(t, s, ops[0]);
      var later := Pushed(ops[1..]);
      RunStep(t, s, ops);
      PushedStep(s.buffer, ops);
      ApplyAccounts(t, s, ops[0]);
      RunAccounts(t, next, ops[1..]);
      var (last, more) := Run(t, next, ops[1..]);
      AccountedAppend(chunks, next.buffer, s.buffer + data, later);
      AccountedThen(chunks, next.buffer + later, s.buffer + Pushed(ops), more, last.buffer);
    }
  }

  lemma ApplyConserves(t: Tables, s: State, op: Op)
    requires Clean(s) && !op.Idle?
    ensures Clean(Apply(t, s, op).0)
    ensures var input := s.buffer + (if op.Bytes? then op.data else []);
            Concat(Apply(t, s, op).1) + Apply(t, s, op).0.buffer == input
  {
    hide Drain;
    if op.Bytes? {
      CleanDrainConserves(t, Feed(s, op.data));
    } else {
      assert Concat([]) + s.buffer == s.buffer + [];
    }
  }

  lemma RunStep(t: Tables, s: State, ops: seq<Op>)
    requires ops != []
    ensures var (next, chunks) := Apply(t, s, ops[0]);
            var (last, more) := Run(t, next, ops[1..]);
            Run(t, s, ops) == (last, chunks + more)
  {
    hide Apply;
  }

  lemma PushedStep(b: seq<Byte>, ops: seq<Op>)
    requires ops != []
    ensures var data := if ops[0].Bytes? then ops[0].data else [];
            b + Pushed(ops) == b + data + Pushed(ops[1..])
  {
    Regroup(b, if ops[0].Bytes? then ops[0].data else [], Pushed(ops[1..]));
  }

  lemma Splice(out: seq<Byte>, mid: seq<Byte>, input: seq<Byte>,
               more: seq<Byte>, rest: seq<Byte>, later: seq<Byte>)
    requires out + mid == input && more + rest == mid + later
    ensures out + more + rest == input + later
  {
    assert out + more + rest == out + (more + rest);
    assert out + (mid + later) == out + mid + later;
  }

  /** Without an idle timeout a clean framer loses nothing at all. */
  lemma {:induction false} RunWithoutIdleConserves(t: Tables, s: State, ops: seq<Op>)
    requires Clean(s)
    requires forall i :: 0 <= i < |ops| ==> !ops[i].Idle?
    ensures Concat(Run(t, s, ops).1) + Run(t, s, ops).0.buffer == s.buffer + Pushed(ops)
    decreases |ops|
  {
    assert Concat([]) + s.buffer == s.buffer + [];
    hide Apply, Concat;
    if ops != [] {
      RunStep(t, s, ops);
      PushedStep(s.buffer, ops);
      hide Run, Pushed;
      var (next, chunks) := Apply(t, s, ops[0]);
      var (last, more) := Run(t, next, ops[1..]);
      var data := if ops[0].Bytes? then ops[0].data else [];
      ApplyConserves(t, s, ops[0]);
      RunWithoutIdleConserves(t, next, ops[1..]);
      ConcatAppend(chunks, more);
      Splice(Concat(chunks), next.buffer, s.buffer + data, Concat(more), last.buffer, Pushed(ops[1..]));
    }
  }

  // --- The invariant ---

  lemma IdleKeepsInvariant(t: Tables, s: State)
    requires Invariant(s)
    requires s.loneFlushed ==> IsIncompleteTail(s.buffer)
    ensures Invariant(FlushIdle(t, s).0)
  {
    hide CompleteTailLen, Valid, PlausibleTail, ControlEnd, FindFrom;
    if s.loneFlushed && s.buffer != [] {
      assert s.buffer[0] == MOUSE_TAIL[0];
    }
  }

  /** The framer's invariant holds after every run from a fresh framer. */
  lemma {:induction false} RunKeepsInvariant(t: Tables, s: State, ops: seq<Op>)
    requires Invariant(s)
    ensures Invariant(Run(t, s, ops).0)
    decreases |ops|
  {
    hide Drain, FlushIdle;
    if ops != [] {
      match ops[0] {
        case Bytes(data) => DrainKeepsInvariant(t, Feed(s, data));
        case Idle =>
          DrainKeepsInvariant(t, s);
          DrainedLoneIsTail(t, s);
          IdleKeepsInvariant(t, Drain(t, s).0);
        case QuerySent =>
        case TrackSchemes =>
      }
      RunKeepsInvariant(t, Apply(t, s, ops[0]).0, ops[1..]);
    }
  }

  // --- What an idle timeout leaves ---

  lemma LoneStop(t: Tables, s: State)
    requires !DrainTurn(t, s).again
    ensures var next := DrainTurn(t, s).next; next.loneFlushed ==> IsIncompleteTail(next.buffer)
  {
  }

  /** After draining, the lone-ESC window is open only over a possible mouse tail. */
  lemma {:induction false} DrainedLoneIsTail(t: Tables, s: State)
    ensures var next := Drain(t, s).0; next.loneFlushed ==> IsIncompleteTail(next.buffer)
    decreases |s.buffer|, if s.discard.Some? then 1 else 0
  {
    hide DrainTurn;
    var r := DrainTurn(t, s);
    if r.again {
      DrainedLoneIsTail(t, r.next);
    } else {
      LoneStop(t, s);
    }
  }

  /** After any idle timeout the buffer is empty, one ESC, an unterminated paste, an
      unterminated OSC 10/11 reply or a (possibly escaped) incomplete UTF-8 scalar. */
  lemma FlushLeavesIdleBuffer(t: Tables, s: State)
    ensures IdleBuffer(Flush(t, s).0.buffer)
  {
    hide Drain, Extract, Valid, FindFrom, IsIncompleteScalar, StartsWith, PlausibleTail;
    DrainedLoneIsTail(t, s);
    var drained := Drain(t, s).0;
    if drained.loneFlushed && CompleteTailLen(t, drained.buffer).Some? {
      CompleteTailIsNotIncomplete(t, drained.buffer);
    }
  }

  /** The colour-reply hold delays a lone ESC by at most one idle timeout. */
  lemma LoneEscapeDelivered(t: Tables, s: State)
    requires Clean(s) && s.buffer == [ESC]
    ensures Run(t, s, [Idle, Idle]).1 == [[ESC]]
    ensures Run(t, s, [Idle]).1 == (if s.awaited > 0 && !s.held then [] else [[ESC]])
  {
    RunTwo(t, s, Idle, Idle);
    RunOne(t, s, Idle);
    EscFlushes(t, s);
    if s.awaited > 0 && !s.held {
      EscFlushes(t, s.(held := true));
    } else {
      WindowIsQuiet(t, s.(awaited := 0, held := false, loneFlushed := true, buffer := []));
    }
  }

  lemma EscFlushes(t: Tables, s: State)
    requires Clean(s) && s.buffer == [ESC]
    ensures Flush(t, s) == if s.awaited > 0 && !s.held then (s.(held := true), [])
                           else (s.(awaited := 0, held := false, loneFlushed := true, buffer := []), [[ESC]])
  {
    EscDrains(t, s);
    hide Drain;
    assert |s.buffer| == 1;
    var r := FlushIdle(t, s);
    hide FlushIdle;
    assert [] + r.1 == r.1;
  }

  lemma WindowIsQuiet(t: Tables, s: State)
    requires s.loneFlushed && s.buffer == [] && s.discard.None?
    ensures Flush(t, s) == (s, [])
  {
    assert DrainTurn(t, s) == Turn(s, [], false);
    hide DrainTurn;
    assert Drain(t, s) == (s, []);
    assert |Flush(t, s).1| == 0;
  }

  lemma EscDrains(t: Tables, s: State)
    requires Clean(s) && s.buffer == [ESC]
    ensures Drain(t, s) == (s, [])
  {
    LoneEscIsIncomplete(t);
  }
}
