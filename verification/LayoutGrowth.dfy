/** A positive delta never shrinks the focused pane: rounding is monotone on both sides of
    every divider below the one that moves. */
module LayoutGrowth {
  import opened Wrappers
  import opened Layout
  import opened LayoutGeometry
  import opened LayoutResize

  /** `b` is at least as long as `a` along `d` and equal across it. */
  predicate Grown(a: Rect, b: Rect, d: Direction) {
    && Len(a, d) <= Len(b, d)
    && Lo(a, Other(d)) == Lo(b, Other(d)) && Len(a, Other(d)) == Len(b, Other(d))
  }

  lemma ScaledGrowsWithLen(len: nat, longer: nat, ratio: real)
    requires len <= longer && 0.0 <= ratio <= 1.0
    ensures Scaled(len, ratio) <= Scaled(longer, ratio) <= Scaled(len, ratio) + (longer - len) as real
  {
    var d := (longer - len) as real;
    NonNegativeProduct(d, ratio);
    NonNegativeProduct(d, 1.0 - ratio);
    assert Scaled(longer, ratio) == Scaled(len, ratio) + d * ratio;
    assert d - d * ratio == d * (1.0 - ratio);
  }

  lemma ScaledGrowsWithRatio(len: nat, ratio: real, larger: real)
    requires ratio <= larger
    ensures Scaled(len, ratio) <= Scaled(len, larger)
  {
    NonNegativeProduct(len as real, larger - ratio);
    assert Scaled(len, larger) == Scaled(len, ratio) + len as real * (larger - ratio);
  }

  lemma FloorMono(x: real, y: real, n: int)
    requires x <= y <= x + n as real
    ensures x.Floor <= y.Floor <= x.Floor + n
  {
    assert (x + n as real).Floor == x.Floor + n;
  }

  /** More cells to divide: neither part gets fewer. */
  lemma PartsGrowWithLen(len: nat, longer: nat, ratio: real)
    requires len <= longer <= U16_MAX && 0.0 <= ratio <= 1.0
    ensures FirstLen(len, ratio) <= FirstLen(longer, ratio) <= FirstLen(len, ratio) + (longer - len)
  {
    ScaledGrowsWithLen(len, longer, ratio);
    ScaledWithin(len, ratio);
    ScaledWithin(longer, ratio);
    hide Scaled;
    var x, y := Scaled(len, ratio), Scaled(longer, ratio);
    RoundWithin(x, len);
    RoundWithin(y, longer);
    FloorMono(x + 0.5, y + 0.5, longer - len);
  }

  /** A larger ratio moves the divider forward, never back. */
  lemma DividerFollowsRatio(len: nat, ratio: real, larger: real)
    requires len <= U16_MAX && 0.0 <= ratio <= larger <= 1.0
    ensures FirstLen(len, ratio) <= FirstLen(len, larger)
  {
    ScaledGrowsWithRatio(len, ratio, larger);
    ScaledWithin(len, ratio);
    ScaledWithin(len, larger);
    hide Scaled;
    var x, y := Scaled(len, ratio), Scaled(len, larger);
    RoundWithin(x, len);
    RoundWithin(y, len);
    assert (x + 0.5).Floor <= (y + 0.5).Floor;
  }

  lemma PartsGrow(area: Rect, larger: Rect, d: Direction, split: Direction, ratio: real)
    requires Grown(area, larger, d) && FitsU16(area) && FitsU16(larger) && 0.0 <= ratio <= 1.0
    ensures var (a, b) := SplitRect(area, split, ratio);
            var (a', b') := SplitRect(larger, split, ratio);
            Grown(a, a', d) && Grown(b, b', d)
  {
    SplitRectExact(area, split, ratio);
    SplitRectExact(larger, split, ratio);
    if split == d {
      PartsGrowWithLen(Len(area, d), Len(larger, d), ratio);
    }
  }

  /** In a longer area no pane gets shorter, and nothing changes across. */
  lemma {:induction false} PanesGrow(node: Node, area: Rect, larger: Rect, focus: PaneId, d: Direction, i: nat)
    requires UnitRatios(node) && FitsU16(area) && FitsU16(larger) && Grown(area, larger, d) && i < CountPanes(node)
    ensures Grown(Panes(node, area, focus)[i].rect, Panes(node, larger, focus)[i].rect, d)
    decreases node
  {
    if node.Split? {
      var (a, b) := SplitRect(area, node.direction, node.ratio);
      var (a', b') := SplitRect(larger, node.direction, node.ratio);
      var n := CountPanes(node.first);
      SplitRectExact(area, node.direction, node.ratio);
      SplitRectExact(larger, node.direction, node.ratio);
      PartsGrow(area, larger, d, node.direction, node.ratio);
      if i < n {
        PanesGrow(node.first, a, a', focus, d, i);
      } else {
        PanesGrow(node.second, b, b', focus, d, i - n);
      }
    }
  }

  /** The new ratio moves the divider away from the pane that owns it as its `nav` edge. */
  predicate MovesOutward(ratio: real, moved: real, nav: NavDirection) {
    if Forward(nav) then ratio <= moved else moved <= ratio
  }

  /** The side that grows is as long as before or longer. */
  lemma SideGrows(area: Rect, d: Direction, ratio: real, moved: real, nav: NavDirection)
    requires FitsU16(area) && 0.0 <= ratio <= 1.0 && 0.0 <= moved <= 1.0 && MovesOutward(ratio, moved, nav)
    ensures var (a, b) := SplitRect(area, d, ratio);
            var (a', b') := SplitRect(area, d, moved);
            if Forward(nav) then Grown(a, a', d) else Grown(b, b', d)
  {
    SplitRectExact(area, d, ratio);
    SplitRectExact(area, d, moved);
    if Forward(nav) {
      DividerFollowsRatio(Len(area, d), ratio, moved);
    } else {
      DividerFollowsRatio(Len(area, d), moved, ratio);
    }
    hide FirstLen;
  }

  /** The pane that owns the split's own divider lies in front of it or behind it. */
  lemma OwnerSide(node: Node, area: Rect, focus: PaneId, path: seq<bool>, k: nat, nav: NavDirection)
    requires node.Split? && Regular(node, area) && k < CountPanes(node)
    requires OwnsEdge(BorderOf(node, area, path), Panes(node, area, focus)[k].rect, nav)
    ensures Forward(nav) <==> k < CountPanes(node.first)
  {
    var (a, b) := SplitRect(area, node.direction, node.ratio);
    var n := CountPanes(node.first);
    SplitRectExact(area, node.direction, node.ratio);
    PaneNonEmpty(node, area, focus, k);
    PaneOfPart(node, area, focus, k);
    if k < n {
      PanesInside(node.first, a, focus, k);
    } else {
      PanesInside(node.second, b, focus, k - n);
    }
    hide Panes, SplitRect, NoEmptyPane;
  }

  /** At the split itself: the side of the owning pane gets longer. */
  lemma OwnerSideGrows(node: Node, area: Rect, focus: PaneId, path: seq<bool>, moved: real, k: nat, nav: NavDirection)
    requires node.Split? && Regular(node, area) && k < CountPanes(node) && 0.0 <= moved <= 1.0
    requires OwnsEdge(BorderOf(node, area, path), Panes(node, area, focus)[k].rect, nav)
    requires MovesOutward(node.ratio, moved, nav)
    ensures Grown(Panes(node, area, focus)[k].rect, Panes(node.(ratio := moved), area, focus)[k].rect, AxisOf(nav))
  {
    hide Panes, Grown, SplitRect, NoEmptyPane, MovesOutward;
    var d := AxisOf(nav);
    assert node.direction == d;
    var (a, b) := SplitRect(area, d, node.ratio);
    var (a', b') := SplitRect(area, d, moved);
    OwnerSide(node, area, focus, path, k, nav);
    SplitRectExact(area, d, node.ratio);
    SplitRectExact(area, d, moved);
    SideGrows(area, d, node.ratio, moved, nav);
    PaneOfPart(node, area, focus, k);
    PaneOfPart(node.(ratio := moved), area, focus, k);
    hide OwnsEdge, BorderOf, Inside;
    if Forward(nav) {
      PanesGrow(node.first, a, a', focus, d, k);
    } else {
      PanesGrow(node.second, b, b', focus, d, k - CountPanes(node.first));
    }
  }

  lemma CountStays(node: Node, rel: seq<bool>, moved: real)
    ensures CountPanes(SetRatioAt(node, rel, moved).0) == CountPanes(node)
  {
    SetRatioKeepsIds(node, rel, moved);
    assert |Ids(SetRatioAt(node, rel, moved).0)| == |Ids(node)|;
  }

  /** The path to a border of a part goes on with the side of that part. */
  lemma PathOfPart(node: Node, area: Rect, path: seq<bool>, second: bool, s: SplitBorder)
    requires s in Splits(node, area, path + [second])
    ensures path <= s.path && s.path[|path|..] != [] && s.path[|path|..][0] == second
    ensures s.path[|path|..][1..] == s.path[|path + [second]|..]
    ensures path + [second] <= s.path
  {
    BorderPath(node, area, path + [second], s);
    assert s.path[|path|] == (path + [second])[|path|];
    assert path == (path + [second])[..|path|] == s.path[..|path|];
  }

  /** Moving the divider a pane owns outwards never shrinks that pane. */
  lemma {:induction false} OwnerGrows(node: Node, area: Rect, focus: PaneId, path: seq<bool>, s: SplitBorder,
                                      moved: real, k: nat, nav: NavDirection)
    requires Regular(node, area) && k < CountPanes(node) && s in Splits(node, area, path) && 0.0 <= moved <= 1.0
    requires path <= s.path && OwnsEdge(s, Panes(node, area, focus)[k].rect, nav)
    requires MovesOutward(s.ratio, moved, nav)
    ensures var after := SetRatioAt(node, s.path[|path|..], moved).0;
            CountPanes(after) == CountPanes(node)
            && Grown(Panes(node, area, focus)[k].rect, Panes(after, area, focus)[k].rect, AxisOf(nav))
    decreases node
  {
    hide Grown, OwnsEdge, SplitRect, Panes, NoEmptyPane, UnitRatios, FitsU16, Splits, MovesOutward, Inside, Lo, Hi;
    var rel := s.path[|path|..];
    var after := SetRatioAt(node, rel, moved).0;
    CountStays(node, rel, moved);
    BorderOrDeeper(node, area, path, s);
    if s == BorderOf(node, area, path) {
      assert rel == [] && after == node.(ratio := moved);
      OwnerSideGrows(node, area, focus, path, moved, k, nav);
    } else {
      var (a, b) := SplitRect(area, node.direction, node.ratio);
      var n := CountPanes(node.first);
      var second := s !in Splits(node.first, a, path + [false]);
      var part, partArea := if second then node.second else node.first, if second then b else a;
      PathOfPart(part, partArea, path, second, s);
      OwnerIsInPart(node, area, focus, path, s, k, nav, second);
      DeeperWrite(node, rel, moved);
      CountStays(part, rel[1..], moved);
      PaneOfPart(node, area, focus, k);
      PaneOfPart(after, area, focus, k);
      hide BorderOf, SetRatioAt;
      OwnerGrows(part, partArea, focus, path + [second], s, moved, if second then k - n else k, nav);
    }
  }

  /** The pane that owns a deeper divider lies in the part that contains the divider. */
  lemma OwnerIsInPart(node: Node, area: Rect, focus: PaneId, path: seq<bool>, s: SplitBorder, k: nat,
                      nav: NavDirection, second: bool)
    requires node.Split? && Regular(node, area) && k < CountPanes(node)
    requires OwnsEdge(s, Panes(node, area, focus)[k].rect, nav)
    requires var (a, b) := SplitRect(area, node.direction, node.ratio);
             if second then s in Splits(node.second, b, path + [true]) else s in Splits(node.first, a, path + [false])
    ensures second <==> k >= CountPanes(node.first)
  {
    var (a, b) := SplitRect(area, node.direction, node.ratio);
    var n := CountPanes(node.first);
    SplitRectExact(area, node.direction, node.ratio);
    PaneNonEmpty(node, area, focus, k);
    PaneOfPart(node, area, focus, k);
    if k < n {
      PanesInside(node.first, a, focus, k);
    } else {
      PanesInside(node.second, b, focus, k - n);
    }
    if second {
      BorderInside(node.second, b, path + [true], s);
    } else {
      BorderInside(node.first, a, path + [false], s);
    }
  }

  /** Resizing by a non-negative delta towards an interior edge never makes the focused pane
      shorter along that axis and never changes it across, as long as the moved ratio was
      within the bounds every edit keeps. */
  lemma ResizeGrowsFocus(node: Node, area: Rect, k: nat, nav: NavDirection, delta: real)
    requires Regular(node, area) && UniqueIds(node) && k < CountPanes(node) && delta >= 0.0
    requires IsInterior(Panes(node, area, Ids(node)[k])[k].rect, area, nav)
    requires forall s :: s in Splits(node, area, []) ==> 0.1 <= s.ratio <= 0.9
    ensures var focus := Ids(node)[k];
            var after := Resized(node, focus, nav, delta, area);
            && CountPanes(after) == CountPanes(node)
            && Grown(Panes(node, area, focus)[k].rect, Panes(after, area, focus)[k].rect, AxisOf(nav))
  {
    hide UniqueIds, Regular, Grown, IsInterior, Splits, Panes, SetRatioAt, OwnsEdge, Resized;
    var s := InteriorResize(node, area, k, nav, delta);
    assert s.path[0..] == s.path;
    OwnerGrows(node, area, Ids(node)[k], [], s, Clamp(s.ratio + (if Forward(nav) then delta else 0.0 - delta)), k, nav);
  }
}
