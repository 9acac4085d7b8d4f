/** When does cutting the input stream into different fragments change nothing? */
module FramerFragments {
  import opened Wrappers
  import opened Bytes
  import opened Utf8
  import opened EscapeSyntax
  import opened FramerSpec

  /** Holds in every reachable state (`FramerBookkeeping.RunKeepsInvariant`). */
  predicate Invariant(s: State) {
    && (s.loneFlushed ==> s.discard.None?)
    && (s.discard.Some? ==> s.discarded <= MAX_DISCARDED_TAIL)
    && s.awaited <= COLOR_QUERY_REPLIES
  }

  /** A lone ESC was just flushed, the buffer cannot become a mouse tail by itself, yet
      with `x` behind it the same bytes complete one. */
  predicate CompletesTailLate(t: Tables, s: State, x: seq<Byte>) {
    && s.loneFlushed
    && !IsIncompleteTail(s.buffer)
    && CompleteTailLen(t, s.buffer).None?
    && CompleteTailLen(t, s.buffer + x).Some?
  }

  /** The buffer runs past the discard limit of an orphaned mouse tail. */
  predicate OverrunsTail(s: State) {
    && s.discard == Some(OrphanedSgrMouseTail)
    && PositionFrom(s.buffer[..Inspected(s.buffer, s.discarded)], IsNotParameter, 0).None?
    && |s.buffer| > Inspected(s.buffer, s.discarded)
  }

  /** The two corners in which the framer does depend on where the stream is cut. */
  predicate CutSensitive(t: Tables, s: State, x: seq<Byte>) {
    CompletesTailLate(t, s, x) || (OverrunsTail(s) && x != [])
  }

  predicate Clean(s: State) {
    s.discard.None? && !s.loneFlushed
  }

  // --- One turn ---

  lemma IncompleteTailPrefix(b: seq<Byte>, x: seq<Byte>)
    requires IsIncompleteTail(b + x)
    ensures IsIncompleteTail(b)
  {
    assert (b + x)[..|b|] == b;
    if |b| >= 3 {
      assert b[..2] == (b + x)[..2];
      assert forall i :: 0 <= i < |b[2..]| ==> b[2..][i] == (b + x)[2..][i];
    } else if |b + x| >= 3 {
      assert b == MOUSE_TAIL[..|b|];
    } else {
      assert b == MOUSE_TAIL[..|b|];
    }
  }

  lemma CompleteTailIsNotIncomplete(t: Tables, b: seq<Byte>)
    requires CompleteTailLen(t, b).Some?
    ensures !IsIncompleteTail(b)
  {
    var n := CompleteTailLen(t, b).value;
    assert IsMouseFinal(b[n - 1]);
    assert b[n - 1] in b;
    if |b| >= 3 {
      assert StartsWith(b, MOUSE_TAIL) ==> b[..2] == MOUSE_TAIL;
      assert n >= 3 ==> b[2..][n - 3] == b[n - 1];
    }
  }

  lemma CompleteTailStable(t: Tables, b: seq<Byte>, x: seq<Byte>)
    requires CompleteTailLen(t, b).Some?
    ensures CompleteTailLen(t, b + x) == CompleteTailLen(t, b)
  {
    var n := CompleteTailLen(t, b).value;
    TerminatorStable(b, x, OrphanedSgrMouseTail);
    assert (b + x)[..n] == b[..n];
  }

  lemma DiscardTailStable(b: seq<Byte>, x: seq<Byte>, d: nat)
    requires PositionFrom(b[..Inspected(b, d)], IsNotParameter, 0).Some?
    ensures var r := DiscardTail(b, d);
            DiscardTail(b + x, d) == TailScan(r.rest + x, d, true) && r.done && r.discarded == d
  {
    var n, m := Inspected(b, d), Inspected(b + x, d);
    assert (b + x)[..m] == b[..n] + (b + x)[n..m];
    PositionStable(b[..n], (b + x)[n..m], IsNotParameter, 0);
    var stop := PositionFrom(b[..n], IsNotParameter, 0).value;
    var k := if IsMouseFinal(b[stop]) then stop + 1 else stop;
    assert b[..n][stop] == b[stop] == (b + x)[stop];
    assert (b + x)[k..] == b[k..] + x;
  }

  /** A turn of the drain loop that makes progress makes the same progress with more
      bytes behind it. */
  lemma TurnStable(t: Tables, s: State, x: seq<Byte>)
    requires Invariant(s) && !CutSensitive(t, s, x)
    requires DrainTurn(t, s).again
    ensures var r := DrainTurn(t, s);
            DrainTurn(t, Feed(s, x)) == Turn(Feed(r.next, x), r.chunks, true)
  {
    if x == [] {
      assert Feed(s, x) == s && Feed(DrainTurn(t, s).next, x) == DrainTurn(t, s).next;
    } else if s.loneFlushed && CompleteTailLen(t, s.buffer).Some? {
      CompleteTailStable(t, s.buffer, x);
      CompleteTailIsNotIncomplete(t, s.buffer + x);
      var n := CompleteTailLen(t, s.buffer).value;
      assert (s.buffer + x)[n..] == s.buffer[n..] + x;
    } else {
      if IsIncompleteTail(s.buffer + x) {
        IncompleteTailPrefix(s.buffer, x);
      }
      SettledTurnStable(t, s.(loneFlushed := false), x);
    }
  }

  lemma SettledTurnStable(t: Tables, s: State, x: seq<Byte>)
    requires !OverrunsTail(s)
    requires SettledTurn(t, s).again
    ensures var r := SettledTurn(t, s);
            SettledTurn(t, Feed(s, x)) == Turn(Feed(r.next, x), r.chunks, true)
  {
    hide Extract, DiscardTail, Terminator;
    var b := s.buffer;
    if s.discard == Some(OrphanedSgrMouseTail) {
      DiscardTailDoneStable(s, x);
    } else if s.discard.Some? {
      TerminatorStable(b, x, s.discard.value);
      var n := Terminator(b, s.discard.value).value;
      assert (b + x)[n..] == b[n..] + x;
    } else {
      CleanTurnStable(t, s, x);
    }
  }

  lemma DiscardTailDoneStable(s: State, x: seq<Byte>)
    requires s.discard == Some(OrphanedSgrMouseTail) && !OverrunsTail(s)
    requires DiscardTail(s.buffer, s.discarded).done
    ensures var r := DiscardTail(s.buffer, s.discarded);
            DiscardTail(s.buffer + x, s.discarded) == TailScan(r.rest + x, s.discarded, true)
            && r.discarded == s.discarded
  {
    DiscardTailStable(s.buffer, x, s.discarded);
  }

  lemma CleanTurnStable(t: Tables, s: State, x: seq<Byte>)
    requires s.discard.None?
    requires SettledTurn(t, s).again
    ensures var r := SettledTurn(t, s);
            SettledTurn(t, Feed(s, x)) == Turn(Feed(r.next, x), r.chunks, true)
  {
    hide Extract, StartsWith;
    var b := s.buffer;
    if s.splitEsc && StartsWith(b, ESC_ESC) {
      StartsWithAppend(b, x, ESC_ESC);
      assert (b + x)[1..] == b[1..] + x;
    } else {
      var n := Extract(t, b).value.1;
      ExtractStable(t, b, x);
      ExtractedIsNotLoneEsc(t, b);
      SplitBehind(b, x, n);
      NoNewDoubledEsc(b, x);
    }
  }

  lemma SplitBehind(b: seq<Byte>, x: seq<Byte>, n: nat)
    requires n <= |b|
    ensures (b + x)[n..] == b[n..] + x && (b + x)[..n] == b[..n]
  {
  }

  /** More bytes make a doubled ESC out of nothing but a lone one. */
  lemma NoNewDoubledEsc(b: seq<Byte>, x: seq<Byte>)
    requires b != [] && b != [ESC]
    ensures StartsWith(b + x, ESC_ESC) ==> StartsWith(b, ESC_ESC)
  {
    if |b| >= 2 {
      assert (b + x)[..2] == b[..2];
    } else {
      NotPrefix(b + x, ESC_ESC, 0);
    }
  }

  lemma ExtractedIsNotLoneEsc(t: Tables, b: seq<Byte>)
    requires Extract(t, b).Some?
    ensures b != [] && b != [ESC]
  {
    LoneEscIsIncomplete(t);
  }

  lemma LoneEscIsIncomplete(t: Tables)
    ensures Extract(t, [ESC]).None?
  {
  }

  predicate SameScan(whole: TailScan, part: TailScan) {
    whole == part || (whole.done && part.done && whole.rest == part.rest)
  }

  /** Where the scan of the joined bytes stops, given that it runs through `b`. */
  lemma JoinedScan(b: seq<Byte>, x: seq<Byte>, d: nat)
    requires !DiscardTail(b, d).done
    ensures DiscardTail(b, d) == TailScan([], d + |b|, false)
    ensures Inspected(b + x, d) == |b| + Inspected(x, d + |b|)
    ensures var part := PositionFrom(x[..Inspected(x, d + |b|)], IsNotParameter, 0);
            PositionFrom((b + x)[..Inspected(b + x, d)], IsNotParameter, 0)
            == if part.Some? then Some(|b| + part.value) else None
  {
    assert Inspected(b, d) == |b| && b[..|b|] == b;
    var m := Inspected(x, d + |b|);
    assert (b + x)[..|b| + m] == b + x[..m];
    PositionShift(b, x[..m], IsNotParameter);
  }

  /** A tail that is swallowed in two goes is swallowed as in one. */
  lemma DiscardTailSplit(b: seq<Byte>, x: seq<Byte>, d: nat)
    requires !DiscardTail(b, d).done
    ensures DiscardTail(b, d).rest == []
    ensures SameScan(DiscardTail(b + x, d), DiscardTail(x, DiscardTail(b, d).discarded))
  {
    JoinedScan(b, x, d);
    var m := Inspected(x, d + |b|);
    var stop := PositionFrom(x[..m], IsNotParameter, 0);
    if stop.Some? {
      KeptAfterStop(b, x, m, stop.value);
    }
    hide PositionFrom, Inspected, IsNotParameter;
  }

  lemma KeptAfterStop(b: seq<Byte>, x: seq<Byte>, m: nat, stop: nat)
    requires stop < m <= |x|
    ensures (b + x)[|b| + stop] == x[stop]
    ensures (b + x)[|b| + stop..] == x[stop..] && (b + x)[|b| + stop + 1..] == x[stop + 1..]
  {
  }

  /** A turn that stops leaves a state from which more bytes lead to the same turn. */
  lemma StopThenFeed(t: Tables, s: State, x: seq<Byte>)
    requires Invariant(s) && !CutSensitive(t, s, x)
    requires !DrainTurn(t, s).again
    ensures Drain(t, Feed(s, x)) == Drain(t, Feed(DrainTurn(t, s).next, x))
  {
    var next := DrainTurn(t, s).next;
    if s.discard == Some(OrphanedSgrMouseTail) {
      DiscardTailSplit(s.buffer, x, s.discarded);
      hide DiscardTail;
      assert [] + x == x;
      assert DrainTurn(t, Feed(s, x)) == DrainTurn(t, Feed(next, x));
    } else if s.loneFlushed && !IsIncompleteTail(s.buffer) {
      if IsIncompleteTail(s.buffer + x) {
        IncompleteTailPrefix(s.buffer, x);
      }
      assert DrainTurn(t, Feed(s, x)) == DrainTurn(t, Feed(next, x));
    } else {
      assert next == s;
    }
  }

  lemma TurnKeepsInvariant(t: Tables, s: State)
    requires Invariant(s)
    ensures Invariant(DrainTurn(t, s).next)
    ensures DrainTurn(t, s).again ==> !DrainTurn(t, s).next.loneFlushed
    ensures DrainTurn(t, s).again ==> DrainTurn(t, s).next.discard.None?
  {
    hide Extract, Terminator, CompleteTailLen, IsIncompleteTail, StartsWith;
  }

  lemma CleanIsCutInsensitive(t: Tables, s: State, x: seq<Byte>)
    requires Clean(s)
    ensures !CutSensitive(t, s, x)
  {
  }

  /** A turn from a clean state cuts one chunk off the buffer or stops. */
  lemma CleanTurn(t: Tables, s: State)
    requires Clean(s)
    ensures var r := DrainTurn(t, s);
            && Clean(r.next)
            && (if r.again then |r.chunks| == 1 && r.chunks[0] + r.next.buffer == s.buffer
                           && |r.next.buffer| < |s.buffer|
                else r.next == s)
  {
    hide Extract;
    if s.splitEsc && StartsWith(s.buffer, ESC_ESC) {
      assert s.buffer == [ESC] + s.buffer[1..];
    } else if Extract(t, s.buffer).Some? {
      var n := Extract(t, s.buffer).value.1;
      assert s.buffer == s.buffer[..n] + s.buffer[n..];
    }
  }

  // --- Draining ---

  /** Draining, feeding and draining again is draining once, away from the corners. */
  lemma {:induction false} DrainSplit(t: Tables, s: State, x: seq<Byte>)
    requires Invariant(s) && !CutSensitive(t, s, x)
    ensures var first := Drain(t, s);
            var second := Drain(t, Feed(first.0, x));
            Drain(t, Feed(s, x)) == (second.0, first.1 + second.1)
    decreases |s.buffer|, if s.discard.Some? then 1 else 0
  {
    hide DrainTurn, CutSensitive;
    var turn := DrainTurn(t, s);
    if turn.again {
      TurnStable(t, s, x);
      TurnKeepsInvariant(t, s);
      CleanIsCutInsensitive(t, turn.next, x);
      DrainSplit(t, turn.next, x);
      var first := Drain(t, turn.next);
      var second := Drain(t, Feed(first.0, x));
      assert (turn.chunks + first.1) + second.1 == turn.chunks + (first.1 + second.1);
    } else {
      StopThenFeed(t, s, x);
      var second := Drain(t, Feed(turn.next, x));
      assert [] + second.1 == second.1;
    }
  }

  /** From a clean state nothing is lost: chunks and buffer together are the input. */
  lemma {:induction false} CleanDrainConserves(t: Tables, s: State)
    requires Clean(s)
    ensures Clean(Drain(t, s).0)
    ensures Concat(Drain(t, s).1) + Drain(t, s).0.buffer == s.buffer
    decreases |s.buffer|
  {
    hide DrainTurn;
    var turn := DrainTurn(t, s);
    CleanTurn(t, s);
    if turn.again {
      CleanDrainConserves(t, turn.next);
      ConcatAppend(turn.chunks, Drain(t, turn.next).1);
      assert Concat(turn.chunks) == turn.chunks[0] + Concat([]);
    }
  }

  // --- Fragmentation, exactly ---

  /** In a corner, cutting the stream delivers bytes that the uncut stream swallows. */
  lemma CutChangesOutcome(t: Tables, s: State, x: seq<Byte>)
    requires Invariant(s) && CutSensitive(t, s, x)
    ensures var first := Drain(t, s);
            var second := Drain(t, Feed(first.0, x));
            Drain(t, Feed(s, x)) != (second.0, first.1 + second.1)
  {
    hide Drain, CompletesTailLate, OverrunsTail;
    var first := Drain(t, s);
    ConcatAppend(first.1, Drain(t, Feed(first.0, x)).1);
    if CompletesTailLate(t, s, x) {
      LateTailCounts(t, s, x);
    } else {
      OverrunCounts(t, s, x);
    }
  }

  /** The bytes a framer has delivered or still holds after draining `s`. */
  function Kept(r: (State, seq<seq<Byte>>)): nat {
    |Concat(r.1)| + |r.0.buffer|
  }

  lemma LateTailCounts(t: Tables, s: State, x: seq<Byte>)
    requires Invariant(s) && CompletesTailLate(t, s, x)
    ensures var first := Drain(t, s);
            var second := Drain(t, Feed(first.0, x));
            && |Concat(first.1)| + Kept(second) == |s.buffer| + |x|
            && Kept(Drain(t, Feed(s, x))) < |s.buffer| + |x|
  {
    LateTurns(t, s, x);
    hide DrainTurn, CompletesTailLate;
    var settled := s.(loneFlushed := false);
    assert Drain(t, s) == Drain(t, settled);
    CleanDrainConserves(t, settled);
    CleanDrainConserves(t, Feed(Drain(t, s).0, x));
    var swallowed := DrainTurn(t, Feed(s, x)).next;
    CleanDrainConserves(t, swallowed);
    assert [] + Drain(t, swallowed).1 == Drain(t, swallowed).1;
  }

  /** The cut stream settles; the uncut stream swallows a tail first. */
  lemma LateTurns(t: Tables, s: State, x: seq<Byte>)
    requires Invariant(s) && CompletesTailLate(t, s, x)
    ensures DrainTurn(t, s) == DrainTurn(t, s.(loneFlushed := false))
    ensures var r := DrainTurn(t, Feed(s, x));
            r.again && r.chunks == [] && Clean(r.next) && |r.next.buffer| < |s.buffer + x|
  {
    hide SettledTurn;
    CompleteTailIsNotIncomplete(t, s.buffer + x);
    hide CompleteTailLen, IsIncompleteTail;
  }

  lemma OverrunCounts(t: Tables, s: State, x: seq<Byte>)
    requires Invariant(s) && OverrunsTail(s) && x != []
    ensures var first := Drain(t, s);
            var second := Drain(t, Feed(first.0, x));
            && |Concat(first.1)| + Kept(second) == |x|
            && Kept(Drain(t, Feed(s, x))) == 0
  {
    var reset := s.(buffer := [], discard := None, discarded := 0);
    OverrunKeepsOverrunning(s, x);
    OverrunTurn(t, s);
    OverrunTurn(t, Feed(s, x));
    hide DrainTurn, OverrunsTail;
    CleanDrainConserves(t, reset);
    assert [] + Drain(t, reset).1 == Drain(t, reset).1;
    assert Drain(t, s) == Drain(t, reset) == Drain(t, Feed(s, x));
    CleanDrainConserves(t, Feed(Drain(t, s).0, x));
  }

  lemma OverrunTurn(t: Tables, s: State)
    requires Invariant(s) && OverrunsTail(s)
    ensures DrainTurn(t, s) == Turn(s.(buffer := [], discard := None, discarded := 0), [], true)
  {
  }

  lemma OverrunKeepsOverrunning(s: State, x: seq<Byte>)
    requires OverrunsTail(s)
    ensures OverrunsTail(Feed(s, x))
  {
    var n := Inspected(s.buffer, s.discarded);
    assert Inspected(s.buffer + x, s.discarded) == n;
    assert (s.buffer + x)[..n] == s.buffer[..n];
  }

  /** Two pushes equal one push of the joined bytes, in chunks and in the whole state,
      if and only if the first push does not end in one of the two corners. */
  lemma FragmentationIsInvisibleIff(t: Tables, s: State, a: seq<Byte>, b: seq<Byte>)
    requires Invariant(s)
    ensures Run(t, s, [Bytes(a), Bytes(b)]) == Run(t, s, [Bytes(a + b)])
            <==> !CutSensitive(t, Feed(s, a), b)
  {
    hide CutSensitive, Drain;
    RunTwo(t, s, Bytes(a), Bytes(b));
    RunOne(t, s, Bytes(a + b));
    FeedKeeps(s, a);
    FeedTwice(s, a, b);
    if CutSensitive(t, Feed(s, a), b) {
      CutChangesOutcome(t, Feed(s, a), b);
    } else {
      DrainSplit(t, Feed(s, a), b);
    }
  }

  lemma RunOne(t: Tables, s: State, op: Op)
    ensures Run(t, s, [op]) == Apply(t, s, op)
  {
    var r := Apply(t, s, op);
    assert Run(t, r.0, []) == (r.0, []);
    assert r.1 + [] == r.1;
  }

  lemma RunTwo(t: Tables, s: State, p: Op, q: Op)
    ensures var first := Apply(t, s, p);
            var second := Apply(t, first.0, q);
            Run(t, s, [p, q]) == (second.0, first.1 + second.1)
  {
    assert [p, q][1..] == [q];
    RunOne(t, Apply(t, s, p).0, q);
  }

  // --- Any number of fragments ---

  /** Neither corner can be entered from here by pushing bytes. */
  predicate CutInsensitive(s: State) {
    !s.loneFlushed && s.discard != Some(OrphanedSgrMouseTail)
  }

  lemma {:induction false} DrainKeepsCutInsensitive(t: Tables, s: State)
    requires CutInsensitive(s)
    ensures CutInsensitive(Drain(t, s).0)
    decreases |s.buffer|, if s.discard.Some? then 1 else 0
  {
    if DrainTurn(t, s).again {
      DrainKeepsCutInsensitive(t, DrainTurn(t, s).next);
    }
  }

  function Pieces(fragments: seq<seq<Byte>>): (ops: seq<Op>)
    ensures |ops| == |fragments|
  {
    seq(|fragments|, i requires 0 <= i < |fragments| => Bytes(fragments[i]))
  }

  /** Two pushes from such a state are one push of the joined bytes. */
  lemma PushesJoin(t: Tables, s: State, a: seq<Byte>, x: seq<Byte>)
    requires Invariant(s) && CutInsensitive(s)
    ensures var first := Push(t, s, a);
            var second := Push(t, first.0, x);
            && Push(t, s, a + x) == (second.0, first.1 + second.1)
            && Invariant(first.0) && CutInsensitive(first.0)
  {
    hide Drain, Invariant, CutInsensitive, CutSensitive, DrainTurn, Feed;
    var fed := Feed(s, a);
    FeedKeeps(s, a);
    InsensitiveMeansNotSensitive(t, fed, x);
    DrainKeepsCutInsensitive(t, fed);
    DrainKeepsInvariant(t, fed);
    DrainSplit(t, fed, x);
    FeedTwice(s, a, x);
  }

  lemma FeedKeeps(s: State, a: seq<Byte>)
    ensures Invariant(s) ==> Invariant(Feed(s, a))
    ensures CutInsensitive(s) ==> CutInsensitive(Feed(s, a))
  {
  }

  lemma FeedTwice(s: State, a: seq<Byte>, b: seq<Byte>)
    ensures Feed(Feed(s, a), b) == Feed(s, a + b)
  {
    assert (s.buffer + a) + b == s.buffer + (a + b);
  }

  lemma InsensitiveMeansNotSensitive(t: Tables, s: State, x: seq<Byte>)
    requires CutInsensitive(s)
    ensures !CutSensitive(t, s, x)
  {
    hide CompleteTailLen, IsIncompleteTail;
  }

  /** However the stream is cut, the chunks and the final state are those of one push. */
  lemma {:induction false} AnyFragmentation(t: Tables, s: State, fragments: seq<seq<Byte>>)
    requires Invariant(s) && CutInsensitive(s) && fragments != []
    ensures Run(t, s, Pieces(fragments)) == Push(t, s, Concat(fragments))
    decreases |fragments|
  {
    var a, rest := fragments[0], fragments[1..];
    if |fragments| == 1 {
      hide Push, Run;
      OnePiece(t, s, fragments);
    } else {
      assert Concat(fragments) == a + Concat(rest);
      RunPieces(t, s, fragments);
      PushesJoin(t, s, a, Concat(rest));
      hide Push, Run, Pieces, Invariant, CutInsensitive, Concat;
      AnyFragmentation(t, Push(t, s, a).0, rest);
    }
  }

  /** The first piece, then the others. */
  lemma RunPieces(t: Tables, s: State, fragments: seq<seq<Byte>>)
    requires fragments != []
    ensures var first := Push(t, s, fragments[0]);
            var (last, more) := Run(t, first.0, Pieces(fragments[1..]));
            Run(t, s, Pieces(fragments)) == (last, first.1 + more)
  {
    hide Drain;
    assert Pieces(fragments)[0] == Bytes(fragments[0]);
    assert Pieces(fragments)[1..] == Pieces(fragments[1..]);
  }

  lemma OnePiece(t: Tables, s: State, fragments: seq<seq<Byte>>)
    requires |fragments| == 1
    ensures Run(t, s, Pieces(fragments)) == Push(t, s, Concat(fragments))
  {
    var a := fragments[0];
    assert Concat(fragments) == a + Concat([]) == a;
    assert Pieces(fragments) == [Bytes(a)];
    hide Drain;
    RunOne(t, s, Bytes(a));
  }

  lemma {:induction false} DrainKeepsInvariant(t: Tables, s: State)
    requires Invariant(s)
    ensures Invariant(Drain(t, s).0)
    decreases |s.buffer|, if s.discard.Some? then 1 else 0
  {
    TurnKeepsInvariant(t, s);
    if DrainTurn(t, s).again {
      DrainKeepsInvariant(t, DrainTurn(t, s).next);
    }
  }
}
