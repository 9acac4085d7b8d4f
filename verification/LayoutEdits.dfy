/** What splitting, closing and resizing do to the tree and to the rectangles of its panes. */
module LayoutEdits {
  import opened Wrappers
  import opened Layout
  import opened LayoutGeometry
  import opened LayoutTree
  import opened LayoutPaths
  import opened LayoutResize
  import opened LayoutRounding

  /** The path to pane `k`. */
  function PathTo(node: Node, k: nat): (path: seq<bool>)
    requires k < CountPanes(node)
    ensures HasPath(node, path) && PartAt(node, path) == Pane(Ids(node)[k]) && PanesBefore(node, path) == k
    ensures path == [] <==> node.Pane?
  {
    match node
    case Pane(_) => []
    case Split(_, _, first, second) =>
      var n := CountPanes(first);
      if k < n then [false] + PathTo(first, k) else [true] + PathTo(second, k - n)
  }

  lemma PathToPart(node: Node, k: nat)
    requires node.Split? && k < CountPanes(node)
    ensures var n := CountPanes(node.first);
            var path := PathTo(node, k);
            path[0] == (k >= n) && path[1..] == if k < n then PathTo(node.first, k) else PathTo(node.second, k - n)
  {
  }

  lemma UniqueParts(node: Node)
    requires node.Split? && UniqueIds(node)
    ensures UniqueIds(node.first) && UniqueIds(node.second)
    ensures forall id :: id in Ids(node.first) ==> id !in Ids(node.second)
  {
    var a, b := Ids(node.first), Ids(node.second);
    assert forall i :: 0 <= i < |a| ==> Ids(node)[i] == a[i];
    assert forall i :: 0 <= i < |b| ==> Ids(node)[|a| + i] == b[i];
    hide Ids;
  }

  // --- Splitting ---

  lemma {:induction false} SplitAtAbsent(node: Node, target: PaneId, d: Direction, newId: PaneId, ratio: real)
    requires target !in Ids(node)
    ensures SplitAt(node, target, d, newId, ratio) == node
  {
    if node.Split? {
      SplitAtAbsent(node.first, target, d, newId, ratio);
      SplitAtAbsent(node.second, target, d, newId, ratio);
    }
  }

  /** Splitting a pane puts in its place a split with that direction and ratio, the old pane
      first, the new one second. */
  lemma {:induction false} SplitReplacesPane(node: Node, k: nat, d: Direction, newId: PaneId, ratio: real)
    requires UniqueIds(node) && k < CountPanes(node)
    ensures SplitAt(node, Ids(node)[k], d, newId, ratio)
            == Replaced(node, PathTo(node, k), Split(d, ratio, Pane(Ids(node)[k]), Pane(newId)))
  {
    var id := Ids(node)[k];
    if node.Split? {
      var n := CountPanes(node.first);
      PathToPart(node, k);
      UniqueParts(node);
      IdOfPart(node, k);
      if k < n {
        SplitReplacesPane(node.first, k, d, newId, ratio);
        SplitAtAbsent(node.second, id, d, newId, ratio);
      } else {
        SplitReplacesPane(node.second, k - n, d, newId, ratio);
        SplitAtAbsent(node.first, id, d, newId, ratio);
      }
    }
  }

  lemma TwoPanes(d: Direction, ratio: real, id: PaneId, newId: PaneId, area: Rect, focus: PaneId)
    ensures var parts := SplitRect(area, d, ratio);
            Panes(Split(d, ratio, Pane(id), Pane(newId)), area, focus)
            == [PaneInfo(id, parts.0, id == focus), PaneInfo(newId, parts.1, newId == focus)]
  {
    hide SplitRect;
  }

  /** The two divide the old pane's rectangle in that direction and ratio; every other pane
      keeps its rectangle. */
  lemma SplitDividesPane(node: Node, area: Rect, focus: PaneId, k: nat, d: Direction, newId: PaneId, ratio: real)
    requires UniqueIds(node) && k < CountPanes(node)
    ensures var after := SplitAt(node, Ids(node)[k], d, newId, ratio);
            var was, now := Panes(node, area, focus), Panes(after, area, focus);
            var parts := SplitRect(was[k].rect, d, ratio);
            && |now| == |was| + 1
            && now[k] == was[k].(rect := parts.0) && now[k + 1] == PaneInfo(newId, parts.1, newId == focus)
            && (forall i :: 0 <= i < k ==> now[i] == was[i])
            && (forall i :: k < i < |was| ==> now[i + 1] == was[i])
  {
    hide UniqueIds, Panes, SplitAt, Replaced, PathTo, SplitRect, PanesBefore, PartAt, RectAt, HasPath;
    var id, path := Ids(node)[k], PathTo(node, k);
    var part := Split(d, ratio, Pane(id), Pane(newId));
    var after := Replaced(node, path, part);
    SplitReplacesPane(node, k, d, newId, ratio);
    ReplacedCount(node, path, part);
    TwoPanes(d, ratio, id, newId, RectAt(node, area, path), focus);
    PaneDivided(node, area, focus, k, part);
    hide Ids;
    forall i | 0 <= i < CountPanes(node) && i != k
      ensures Panes(after, area, focus)[if i < k then i else i + 1] == Panes(node, area, focus)[i]
    {
      OtherPanesStay(node, area, focus, path, part, i);
    }
    hide CountPanes;
  }

  lemma PaneDivided(node: Node, area: Rect, focus: PaneId, k: nat, part: Node)
    requires k < CountPanes(node) && CountPanes(part) == 2
    ensures var path := PathTo(node, k);
            var after, rect := Replaced(node, path, part), RectAt(node, area, path);
            && CountPanes(after) == CountPanes(node) + 1
            && Panes(node, area, focus)[k] == PaneInfo(Ids(node)[k], rect, Ids(node)[k] == focus)
            && Panes(after, area, focus)[k] == Panes(part, rect, focus)[0]
            && Panes(after, area, focus)[k + 1] == Panes(part, rect, focus)[1]
  {
    hide Panes, Replaced, PathTo, SplitRect, PanesBefore, PartAt, RectAt, HasPath;
    var path := PathTo(node, k);
    ReplacedAt(node, area, path, part);
    ReplacedCount(node, path, part);
    PartPanes(node, area, focus, path, 0);
    PartPanes(Replaced(node, path, part), area, focus, path, 0);
    PartPanes(Replaced(node, path, part), area, focus, path, 1);
    LonePaneInfo(Ids(node)[k], RectAt(node, area, path), focus);
  }

  lemma LonePaneInfo(id: PaneId, area: Rect, focus: PaneId)
    ensures Panes(Pane(id), area, focus) == [PaneInfo(id, area, id == focus)]
    ensures CountPanes(Pane(id)) == 1
  {
  }

  // --- Closing ---

  lemma {:induction false} RemoveAbsent(node: Node, target: PaneId)
    requires target !in Ids(node)
    ensures RemovePane(node, target) == Some(node)
  {
    if node.Split? {
      RemoveAbsent(node.first, target);
      RemoveAbsent(node.second, target);
    }
  }

  /** The path to the split right above pane `k`, and to the other side of that split. */
  function ParentOf(node: Node, k: nat): (path: seq<bool>)
    requires k < CountPanes(node) && node.Split?
  {
    var path := PathTo(node, k);
    path[..|path| - 1]
  }

  function SiblingOf(node: Node, k: nat): (path: seq<bool>)
    requires k < CountPanes(node) && node.Split?
  {
    var path := PathTo(node, k);
    path[..|path| - 1] + [!path[|path| - 1]]
  }

  lemma {:induction false} SiblingPath(node: Node, k: nat)
    requires k < CountPanes(node) && node.Split?
    ensures HasPath(node, ParentOf(node, k)) && HasPath(node, SiblingOf(node, k))
    ensures PartAt(node, ParentOf(node, k)).Split?
    decreases node
  {
    PathToPart(node, k);
    var n, path := CountPanes(node.first), PathTo(node, k);
    var side, j := if k < n then node.first else node.second, if k < n then k else k - n;
    if side.Split? {
      SiblingPath(side, j);
      Deeper(node, k);
    } else {
      assert path[1..] == [];
      assert ParentOf(node, k) == [] && SiblingOf(node, k) == [!path[0]];
      assert [!path[0]][1..] == [];
    }
  }

  lemma LongerPath(path: seq<bool>, front: bool, rest: seq<bool>)
    requires path != [] && path[0] == front && path[1..] == rest && rest != []
    ensures path[..|path| - 1] == [front] + rest[..|rest| - 1]
    ensures path[..|path| - 1] + [!path[|path| - 1]] == [front] + (rest[..|rest| - 1] + [!rest[|rest| - 1]])
  {
    assert path == [front] + rest;
  }

  lemma Deeper(node: Node, k: nat)
    requires k < CountPanes(node) && node.Split?
    ensures var n := CountPanes(node.first);
            var side, j := if k < n then node.first else node.second, if k < n then k else k - n;
            side.Split? ==>
              && ParentOf(node, k) == [k >= n] + ParentOf(side, j)
              && SiblingOf(node, k) == [k >= n] + SiblingOf(side, j)
  {
    hide PathTo, HasPath, PartAt, PanesBefore, Ids;
    PathToPart(node, k);
    var n := CountPanes(node.first);
    var side, j := if k < n then node.first else node.second, if k < n then k else k - n;
    if side.Split? {
      LongerPath(PathTo(node, k), k >= n, PathTo(side, j));
    }
  }

  /** Closing a pane puts the other side of its split in the place of that split. */
  lemma {:induction false} RemoveLiftsSibling(node: Node, k: nat)
    requires UniqueIds(node) && k < CountPanes(node) && node.Split?
    ensures HasPath(node, ParentOf(node, k)) && HasPath(node, SiblingOf(node, k))
    ensures RemovePane(node, Ids(node)[k])
            == Some(Replaced(node, ParentOf(node, k), PartAt(node, SiblingOf(node, k))))
    decreases node
  {
    SiblingPath(node, k);
    PathToPart(node, k);
    UniqueParts(node);
    IdOfPart(node, k);
    var n, path := CountPanes(node.first), PathTo(node, k);
    var side, j := if k < n then node.first else node.second, if k < n then k else k - n;
    RemoveAbsent(if k < n then node.second else node.first, Ids(node)[k]);
    if side.Split? {
      RemoveLiftsSibling(side, j);
      Deeper(node, k);
    } else {
      assert path[1..] == [];
      assert ParentOf(node, k) == [] && SiblingOf(node, k) == [!path[0]];
      assert [!path[0]][1..] == [];
    }
  }

  /** That side then fills the whole rectangle of the split; panes elsewhere keep theirs. */
  lemma CloseFillsSplit(node: Node, area: Rect, focus: PaneId, k: nat)
    requires UniqueIds(node) && k < CountPanes(node) && node.Split?
    ensures HasPath(node, ParentOf(node, k)) && HasPath(node, SiblingOf(node, k))
    ensures RemovePane(node, Ids(node)[k]).Some?
    ensures var was, now := Panes(node, area, focus), Panes(RemovePane(node, Ids(node)[k]).value, area, focus);
            var freed, other := RectAt(node, area, ParentOf(node, k)), PartAt(node, SiblingOf(node, k));
            var m, n := PanesBefore(node, ParentOf(node, k)), CountPanes(other);
            && |now| == |was| - 1 && m <= k <= m + n && m + n < |was|
            && (forall i :: 0 <= i < m ==> now[i] == was[i])
            && (forall i :: 0 <= i < n ==> now[m + i] == Panes(other, freed, focus)[i])
            && (forall i :: m + n < i < |was| ==> now[i - 1] == was[i])
  {
    hide UniqueIds, Panes, RemovePane, Replaced, SplitRect, PanesBefore, PartAt, RectAt, HasPath, ParentOf, SiblingOf;
    RemoveLiftsSibling(node, k);
    var path, part := ParentOf(node, k), PartAt(node, SiblingOf(node, k));
    var after := Replaced(node, path, part);
    ParentHoldsBoth(node, k);
    ReplacedAt(node, area, path, part);
    ReplacedCount(node, path, part);
    forall i | 0 <= i < CountPanes(node)
               && (i < PanesBefore(node, path) || i > PanesBefore(node, path) + CountPanes(part))
      ensures Panes(after, area, focus)[if i < PanesBefore(node, path) then i else i - 1] == Panes(node, area, focus)[i]
    {
      OtherPanesStay(node, area, focus, path, part, i);
    }
    forall i | 0 <= i < CountPanes(part)
      ensures PanesBefore(node, path) + i < CountPanes(after)
      ensures Panes(after, area, focus)[PanesBefore(node, path) + i]
              == Panes(part, RectAt(node, area, path), focus)[i]
    {
      PartPanes(after, area, focus, path, i);
    }
    hide CountPanes, Ids;
  }

  /** Above the pane are the pane and its sibling, and nothing else. */
  lemma {:induction false} ParentHoldsBoth(node: Node, k: nat)
    requires k < CountPanes(node) && node.Split?
    ensures HasPath(node, ParentOf(node, k)) && HasPath(node, SiblingOf(node, k))
    ensures var m, n := PanesBefore(node, ParentOf(node, k)), CountPanes(PartAt(node, SiblingOf(node, k)));
            m <= k <= m + n && m + n < CountPanes(node) && CountPanes(PartAt(node, ParentOf(node, k))) == n + 1
    decreases node
  {
    SiblingPath(node, k);
    PathToPart(node, k);
    var n, path := CountPanes(node.first), PathTo(node, k);
    var side, j := if k < n then node.first else node.second, if k < n then k else k - n;
    if side.Split? {
      ParentHoldsBoth(side, j);
      Deeper(node, k);
    } else {
      assert path[1..] == [];
      assert ParentOf(node, k) == [] && SiblingOf(node, k) == [!path[0]];
      assert [!path[0]][1..] == [];
    }
  }

  // --- What `resize_pane` reports ---

  /** `split_ratios` lists each split's path with its ratio, and nothing else. */
  lemma {:induction false} RatiosListed(node: Node, prefix: seq<bool>, path: seq<bool>, ratio: real)
    ensures (path, ratio) in SplitRatios(node, prefix)
            <==> prefix <= path && GetRatioAt(node, path[|prefix|..]) == Some(ratio)
    decreases node
  {
    if node.Split? {
      RatiosListed(node.first, prefix + [false], path, ratio);
      RatiosListed(node.second, prefix + [true], path, ratio);
      if prefix <= path {
        var rel := path[|prefix|..];
        if rel == [] {
          assert path == prefix;
          assert |prefix + [false]| > |path|;
        } else {
          assert path == prefix + rel;
          assert rel[1..] == path[|prefix| + 1..];
          assert prefix + [rel[0]] <= path;
          assert (prefix + [!rel[0]])[|prefix|] != path[|prefix|];
        }
      } else {
        assert prefix == (prefix + [false])[..|prefix|] == (prefix + [true])[..|prefix|];
      }
    }
  }

  /** A new ratio shows in that list exactly if it changes the tree. */
  lemma {:induction false} RewriteShows(node: Node, path: seq<bool>, ratio: real)
    ensures SplitRatios(SetRatioAt(node, path, ratio).0, []) == SplitRatios(node, [])
            <==> SetRatioAt(node, path, ratio).0 == node
  {
    var after := SetRatioAt(node, path, ratio).0;
    if SplitRatios(after, []) == SplitRatios(node, []) {
      SetThenGet(node, path, ratio);
      if GetRatioAt(node, path).Some? {
        assert path[0..] == path;
        RatiosListed(after, [], path, ratio);
        RatiosListed(node, [], path, ratio);
        SameRatioStays(node, path, ratio);
      }
    }
  }

  lemma {:induction false} SameRatioStays(node: Node, path: seq<bool>, ratio: real)
    requires GetRatioAt(node, path) == Some(ratio)
    ensures SetRatioAt(node, path, ratio).0 == node
    decreases node
  {
    if path != [] {
      SameRatioStays(if path[0] then node.second else node.first, path[1..], ratio);
    }
  }

  /** So a resize shows there exactly if it changes the tree. */
  lemma ResizeShows(node: Node, focus: PaneId, nav: NavDirection, delta: real, area: Rect)
    ensures var after := Resized(node, focus, nav, delta, area);
            SplitRatios(after, []) == SplitRatios(node, []) <==> after == node
  {
    hide SplitRatios, SetRatioAt, Panes, Splits, FocusedRect, ResizeTarget, GetRatioAt;
    var focused := FocusedRect(Panes(node, area, focus));
    if focused.Some? {
      var target := ResizeTarget(node, area, focused.value, nav);
      if target.Some? {
        var current := GetRatioAt(node, target.value.path);
        var ratio := (if current.Some? then current.value else 0.5) + (if Forward(nav) then delta else 0.0 - delta);
        RewriteShows(node, target.value.path, Clamp(ratio));
      }
    }
  }

  // --- Resizing at the rim ---

  /** Towards the rim a resize moves the divider at the focused pane's other edge instead, in
      the direction of the key: that edge lands on the cell nearest to the clamped ratio. */
  lemma RimResize(node: Node, area: Rect, k: nat, nav: NavDirection, delta: real) returns (s: SplitBorder, pos: int)
    requires Regular(node, area) && UniqueIds(node) && k < CountPanes(node)
    requires !IsInterior(Panes(node, area, Ids(node)[k])[k].rect, area, nav)
    requires IsInterior(Panes(node, area, Ids(node)[k])[k].rect, area, Opposite(nav))
    ensures var focus := Ids(node)[k];
            var after := Resized(node, focus, nav, delta, area);
            var ratio := Clamp(s.ratio + (if Forward(nav) then delta else 0.0 - delta));
            && s in Splits(node, area, []) && OwnsEdge(s, Panes(node, area, focus)[k].rect, Opposite(nav))
            && after == SetRatioAt(node, s.path, ratio).0
            && IsShare(pos - Lo(s.area, s.direction), Len(s.area, s.direction), ratio)
            && CountPanes(after) == CountPanes(node)
            && Edge(Panes(after, area, focus)[k].rect, Opposite(nav)) == pos
  {
    hide UniqueIds, Regular, IsInterior, Splits, Panes, SetRatioAt, Clamp, ResizeTarget, FocusedRect, IsShare, PartAt;
    hide AtEdge, Fitted, HasPath, PanesBefore, Room, SideOf, OwnsEdge;
    var focus := Ids(node)[k];
    FocusIsAt(node, area, k);
    ResizeSelects(node, area, focus, k, nav);
    s := ResizeTarget(node, area, Panes(node, area, focus)[k].rect, nav).value;
    BorderPath(node, area, [], s);
    assert s.path[0..] == s.path;
    OwnerFacts(s, Panes(node, area, focus)[k].rect, Opposite(nav));
    OwnerInSide(node, area, focus, s, k, Opposite(nav));
    var ratio := Clamp(s.ratio + (if Forward(nav) then delta else 0.0 - delta));
    pos := RewrittenOwner(node, area, focus, s, ratio, k, Opposite(nav));
  }

  /** A pane that fills the area along the axis is not resized along it. */
  lemma NoDividerNoResize(node: Node, area: Rect, k: nat, nav: NavDirection, delta: real)
    requires Regular(node, area) && UniqueIds(node) && k < CountPanes(node)
    requires !IsInterior(Panes(node, area, Ids(node)[k])[k].rect, area, nav)
    requires !IsInterior(Panes(node, area, Ids(node)[k])[k].rect, area, Opposite(nav))
    ensures Resized(node, Ids(node)[k], nav, delta, area) == node
  {
    hide UniqueIds, Regular, IsInterior, Splits, Panes, SetRatioAt, Clamp, ResizeTarget, FocusedRect;
    FocusIsAt(node, area, k);
    ResizeSelects(node, area, Ids(node)[k], k, nav);
  }
}
