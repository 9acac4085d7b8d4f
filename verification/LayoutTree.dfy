/** Tree operations keep the layout well formed, and which of them undo each other. */
module LayoutTree {
  import opened Wrappers
  import opened Layout

  // --- Inserting ---

  /** `ids` with `newId` placed directly behind `target`. */
  function InsertedAfter(ids: seq<PaneId>, target: PaneId, newId: PaneId): seq<PaneId> {
    if ids == [] then []
    else (if ids[0] == target then [target, newId] else [ids[0]]) + InsertedAfter(ids[1..], target, newId)
  }

  lemma {:induction false} InsertedAfterConcat(a: seq<PaneId>, b: seq<PaneId>, target: PaneId, newId: PaneId)
    ensures InsertedAfter(a + b, target, newId) == InsertedAfter(a, target, newId) + InsertedAfter(b, target, newId)
  {
    if a == [] {
      assert a + b == b;
    } else {
      assert (a + b)[1..] == a[1..] + b;
      InsertedAfterConcat(a[1..], b, target, newId);
    }
  }

  lemma {:induction false} InsertedAfterAbsent(ids: seq<PaneId>, target: PaneId, newId: PaneId)
    requires target !in ids
    ensures InsertedAfter(ids, target, newId) == ids
  {
    if ids != [] {
      InsertedAfterAbsent(ids[1..], target, newId);
      assert ids == [ids[0]] + ids[1..];
    }
  }

  /** For a pane that occurs once, the new pane comes directly behind it in the order. */
  lemma InsertedAfterOnce(ids: seq<PaneId>, k: nat, newId: PaneId)
    requires Distinct(ids) && k < |ids|
    ensures InsertedAfter(ids, ids[k], newId) == ids[..k + 1] + [newId] + ids[k + 1..]
  {
    var front, back := ids[..k], ids[k + 1..];
    assert ids == front + ([ids[k]] + back);
    InsertedAfterConcat(front, [ids[k]] + back, ids[k], newId);
    InsertedAfterConcat([ids[k]], back, ids[k], newId);
    InsertedAfterAbsent(front, ids[k], newId);
    InsertedAfterAbsent(back, ids[k], newId);
    assert InsertedAfter([ids[k]], ids[k], newId) == [ids[k], newId] + InsertedAfter([], ids[k], newId);
  }

  lemma {:induction false} SplitAtOrder(node: Node, target: PaneId, d: Direction, newId: PaneId, ratio: real)
    ensures Ids(SplitAt(node, target, d, newId, ratio)) == InsertedAfter(Ids(node), target, newId)
  {
    match node
    case Pane(id) =>
      assert [id][1..] == [] && InsertedAfter([], target, newId) == [];
    case Split(_, _, first, second) =>
      SplitAtOrder(first, target, d, newId, ratio);
      SplitAtOrder(second, target, d, newId, ratio);
      InsertedAfterConcat(Ids(first), Ids(second), target, newId);
  }

  /** Splitting or inserting keeps ids unique and puts the new pane right behind its target. */
  lemma InsertKeepsUnique(node: Node, k: nat, d: Direction, newId: PaneId, ratio: real)
    requires UniqueIds(node) && k < CountPanes(node) && newId !in Ids(node)
    ensures var ids := Ids(node);
            var after := SplitAt(node, ids[k], d, newId, ratio);
            && Ids(after) == ids[..k + 1] + [newId] + ids[k + 1..]
            && UniqueIds(after) && newId in Ids(after)
  {
    var ids := Ids(node);
    SplitAtOrder(node, ids[k], d, newId, ratio);
    InsertedAfterOnce(ids, k, newId);
    var out := ids[..k + 1] + [newId] + ids[k + 1..];
    assert out[k + 1] == newId;
    assert forall i, j :: 0 <= i < j < |ids| ==> ids[i] != ids[j];
    InsertedDiffer(ids, k, newId, out);
    hide Ids, SplitAt, InsertedAfter;
  }

  lemma InsertedDiffer(ids: seq<PaneId>, k: nat, newId: PaneId, out: seq<PaneId>)
    requires k < |ids| && newId !in ids && out == ids[..k + 1] + [newId] + ids[k + 1..]
    requires forall i, j :: 0 <= i < j < |ids| ==> ids[i] != ids[j]
    ensures forall i, j :: 0 <= i < j < |out| ==> out[i] != out[j]
  {
    assert forall n :: 0 <= n < |out| ==>
      out[n] == if n <= k then ids[n] else if n == k + 1 then newId else ids[n - 1];
  }

  // --- Removing ---

  function WithoutId(ids: seq<PaneId>, target: PaneId): seq<PaneId> {
    if ids == [] then []
    else (if ids[0] == target then [] else [ids[0]]) + WithoutId(ids[1..], target)
  }

  lemma {:induction false} WithoutIdConcat(a: seq<PaneId>, b: seq<PaneId>, target: PaneId)
    ensures WithoutId(a + b, target) == WithoutId(a, target) + WithoutId(b, target)
  {
    if a == [] {
      assert a + b == b;
    } else {
      assert (a + b)[1..] == a[1..] + b;
      WithoutIdConcat(a[1..], b, target);
    }
  }

  lemma {:induction false} WithoutIdAbsent(ids: seq<PaneId>, target: PaneId)
    requires target !in ids
    ensures WithoutId(ids, target) == ids
  {
    if ids != [] {
      WithoutIdAbsent(ids[1..], target);
      assert ids == [ids[0]] + ids[1..];
    }
  }

  /** Removing keeps the order of the others; nothing remains exactly if nothing else was there. */
  lemma {:induction false} RemoveOrder(node: Node, target: PaneId)
    ensures var r := RemovePane(node, target);
            if r.Some? then Ids(r.value) == WithoutId(Ids(node), target) else WithoutId(Ids(node), target) == []
  {
    match node
    case Pane(id) =>
      assert [id][1..] == [] && WithoutId([], target) == [];
    case Split(_, _, first, second) =>
      RemoveOrder(first, target);
      RemoveOrder(second, target);
      WithoutIdConcat(Ids(first), Ids(second), target);
  }

  /** Nothing remains if and only if every pane carries the removed id. */
  lemma RemoveNoneIff(node: Node, target: PaneId)
    ensures RemovePane(node, target).None? <==> forall id :: id in Ids(node) ==> id == target
  {
    RemoveOrder(node, target);
    WithoutIdNoneIff(Ids(node), target);
    if RemovePane(node, target).Some? {
      assert Ids(RemovePane(node, target).value) != [];
    }
    hide RemovePane, Ids, WithoutId;
  }

  lemma {:induction false} WithoutIdNoneIff(ids: seq<PaneId>, target: PaneId)
    ensures WithoutId(ids, target) == [] <==> forall id :: id in ids ==> id == target
  {
    if ids != [] {
      WithoutIdNoneIff(ids[1..], target);
      assert ids == [ids[0]] + ids[1..];
      assert WithoutId(ids, target) == [] <==> ids[0] == target && WithoutId(ids[1..], target) == [];
      assert ids[0] in ids && forall id :: id in ids[1..] ==> id in ids;
    }
  }

  lemma {:induction false} WithoutIdOnce(ids: seq<PaneId>, k: nat)
    requires Distinct(ids) && k < |ids|
    ensures WithoutId(ids, ids[k]) == ids[..k] + ids[k + 1..]
  {
    if k == 0 {
      assert forall i :: 0 <= i < |ids[1..]| ==> ids[1..][i] == ids[i + 1];
      WithoutIdAbsent(ids[1..], ids[0]);
    } else {
      assert forall i :: 0 <= i < |ids[1..]| ==> ids[1..][i] == ids[i + 1];
      WithoutIdOnce(ids[1..], k - 1);
      assert ids[..k] == [ids[0]] + ids[1..][..k - 1];
    }
  }

  lemma IndexOfDistinct(ids: seq<PaneId>, k: nat)
    requires Distinct(ids) && k < |ids|
    ensures IndexOf(ids, ids[k]) == k
  {
  }

  /** Closing a pane of a larger layout always succeeds, drops exactly that pane and moves
      the focus to a pane that is still there: its successor, or its predecessor if last. */
  lemma CloseKeepsWellFormed(node: Node, k: nat)
    requires UniqueIds(node) && k < CountPanes(node) && CountPanes(node) > 1
    ensures var ids := Ids(node);
            var r := RemovePane(node, ids[k]);
            && r.Some? && UniqueIds(r.value)
            && Ids(r.value) == ids[..k] + ids[k + 1..]
            && NextFocus(ids, ids[k]) == (if k + 1 < |ids| then ids[k + 1] else ids[k - 1])
            && NextFocus(ids, ids[k]) in Ids(r.value)
  {
    hide RemovePane, Ids, WithoutId, IndexOf, Distinct;
    var ids := Ids(node);
    RemoveOrder(node, ids[k]);
    WithoutIdOnce(ids, k);
    IndexOfDistinct(ids, k);
    DroppedStaysDistinct(ids, k);
  }

  lemma DroppedStaysDistinct(ids: seq<PaneId>, k: nat)
    requires Distinct(ids) && k < |ids| && |ids| > 1
    ensures var out := ids[..k] + ids[k + 1..];
            && |out| >= 1 && Distinct(out)
            && (if k + 1 < |ids| then ids[k + 1] else ids[k - 1]) in out
  {
    var out := ids[..k] + ids[k + 1..];
    assert forall n :: 0 <= n < |out| ==> out[n] == ids[if n < k then n else n + 1];
    assert if k + 1 < |ids| then out[k] == ids[k + 1] else out[k - 1] == ids[k - 1];
  }

  /** Closing the pane that was just split off or inserted restores the tree exactly. */
  lemma {:induction false} RemoveUndoesSplit(node: Node, target: PaneId, d: Direction, newId: PaneId, ratio: real)
    requires newId !in Ids(node) && target != newId
    ensures RemovePane(SplitAt(node, target, d, newId, ratio), newId) == Some(node)
  {
    if node.Split? {
      RemoveUndoesSplit(node.first, target, d, newId, ratio);
      RemoveUndoesSplit(node.second, target, d, newId, ratio);
    }
  }

  /** Insert near a pane, then close: the old tree, with the focus on the pane behind the
      target, or on the target itself if it was the last. */
  lemma InsertThenClose(node: Node, k: nat, moved: PaneId, d: Direction, ratio: real)
    requires UniqueIds(node) && k < CountPanes(node) && moved !in Ids(node)
    ensures var ids := Ids(node);
            var longer := SplitAt(node, ids[k], d, moved, ratio);
            && UniqueIds(longer) && moved in Ids(longer)
            && RemovePane(longer, moved) == Some(node)
            && CountPanes(longer) == CountPanes(node) + 1
            && NextFocus(Ids(longer), moved) == (if k + 1 < |ids| then ids[k + 1] else ids[k])
  {
    var ids := Ids(node);
    InsertKeepsUnique(node, k, d, moved, ratio);
    RemoveUndoesSplit(node, ids[k], d, moved, ratio);
    var longer := SplitAt(node, ids[k], d, moved, ratio);
    assert Ids(longer)[k + 1] == moved && Ids(longer)[k] == ids[k];
    assert k + 1 < |ids| ==> Ids(longer)[k + 2] == ids[k + 1];
    CloseKeepsWellFormed(longer, k + 1);
  }

  // --- Swapping ---

  function SwapId(id: PaneId, a: PaneId, b: PaneId): PaneId {
    if id == a then b else if id == b then a else id
  }

  lemma {:induction false} SwapInvolutive(node: Node, a: PaneId, b: PaneId)
    ensures SwapIds(SwapIds(node, a, b), a, b) == node
  {
    if node.Split? {
      SwapInvolutive(node.first, a, b);
      SwapInvolutive(node.second, a, b);
    }
  }

  /** Swapping exchanges the two ids and leaves every rectangle where it is. */
  lemma {:induction false} SwapKeepsRects(node: Node, area: Rect, focus: PaneId, a: PaneId, b: PaneId, i: nat)
    requires i < CountPanes(node)
    ensures CountPanes(SwapIds(node, a, b)) == CountPanes(node)
    ensures Panes(SwapIds(node, a, b), area, focus)[i].rect == Panes(node, area, focus)[i].rect
    ensures Ids(SwapIds(node, a, b))[i] == SwapId(Ids(node)[i], a, b)
    decreases node
  {
    if node.Split? {
      var (ra, rb) := SplitRect(area, node.direction, node.ratio);
      var n := CountPanes(node.first);
      SwapKeepsRects(node.first, ra, focus, a, b, if i < n then i else 0);
      SwapKeepsRects(node.second, rb, focus, a, b, if i < n then 0 else i - n);
    }
  }

  lemma {:induction false} SwapKeepsSplits(node: Node, area: Rect, path: seq<bool>, a: PaneId, b: PaneId)
    ensures Splits(SwapIds(node, a, b), area, path) == Splits(node, area, path)
    decreases node
  {
    if node.Split? {
      var (ra, rb) := SplitRect(area, node.direction, node.ratio);
      SwapKeepsSplits(node.first, ra, path + [false], a, b);
      SwapKeepsSplits(node.second, rb, path + [true], a, b);
    }
  }

  lemma SwapKeepsUnique(node: Node, a: PaneId, b: PaneId)
    requires UniqueIds(node) && a in Ids(node) && b in Ids(node)
    ensures UniqueIds(SwapIds(node, a, b))
    ensures forall id :: id in Ids(SwapIds(node, a, b)) <==> id in Ids(node)
  {
    var ids, swapped := Ids(node), Ids(SwapIds(node, a, b));
    forall i | 0 <= i < |ids|
      ensures |swapped| == |ids| && swapped[i] == SwapId(ids[i], a, b)
    {
      SwapKeepsRects(node, Rect(0, 0, 0, 0), 0, a, b, i);
    }
    hide Ids, SwapIds, IndexOf;
    SwappedIds(ids, swapped, a, b);
  }

  lemma SwappedIds(ids: seq<PaneId>, swapped: seq<PaneId>, a: PaneId, b: PaneId)
    requires |swapped| == |ids| && forall i :: 0 <= i < |ids| ==> swapped[i] == SwapId(ids[i], a, b)
    requires Distinct(ids) && a in ids && b in ids
    ensures Distinct(swapped)
    ensures forall id :: id in swapped <==> id in ids
  {
    var ka, kb := IndexOf(ids, a), IndexOf(ids, b);
    hide IndexOf;
    assert swapped[ka] == b && swapped[kb] == a;
    forall id | id in ids
      ensures id in swapped
    {
      var i := IndexOf(ids, id);
      assert swapped[i] == SwapId(id, a, b);
    }
  }
}
