/** The pane rectangles tile the area, and how the split borders sit in it. */
module LayoutGeometry {
  import opened Wrappers
  import opened Layout

  predicate HasCell(r: Rect, x: int, y: int) {
    r.x <= x < r.x + r.width && r.y <= y < r.y + r.height
  }

  predicate Inside(r: Rect, area: Rect) {
    && area.x <= r.x && r.x + r.width <= area.x + area.width
    && area.y <= r.y && r.y + r.height <= area.y + area.height
  }

  predicate UnitRatios(node: Node) {
    match node
    case Pane(_) => true
    case Split(_, ratio, first, second) => 0.0 <= ratio <= 1.0 && UnitRatios(first) && UnitRatios(second)
  }

  predicate FitsU16(area: Rect) {
    area.x + area.width <= U16_MAX && area.y + area.height <= U16_MAX
  }

  lemma NonNegativeProduct(a: real, b: real)
    requires a >= 0.0 && b >= 0.0
    ensures a * b >= 0.0
  {
  }

  lemma ScaledWithin(len: nat, ratio: real)
    requires 0.0 <= ratio <= 1.0
    ensures 0.0 <= Scaled(len, ratio) <= len as real
  {
    NonNegativeProduct(len as real, ratio);
    NonNegativeProduct(len as real, 1.0 - ratio);
    assert len as real - len as real * ratio == len as real * (1.0 - ratio);
  }

  lemma RoundWithin(scaled: real, len: nat)
    requires 0.0 <= scaled <= len as real
    ensures 0 <= (scaled + 0.5).Floor <= len
  {
    assert (scaled + 0.5).Floor as real <= scaled + 0.5 < len as real + 1.0;
  }

  /** Rounding never asks for more cells than there are. */
  lemma FirstLenWithin(len: nat, ratio: real)
    requires 0.0 <= ratio <= 1.0 && len <= U16_MAX
    ensures FirstLen(len, ratio) <= len
  {
    hide Scaled;
    ScaledWithin(len, ratio);
    RoundWithin(Scaled(len, ratio), len);
  }

  /** The two parts share the axis without gap or overlap and keep the other extent. */
  lemma SplitRectExact(area: Rect, d: Direction, ratio: real)
    requires 0.0 <= ratio <= 1.0 && FitsU16(area)
    ensures var (a, b) := SplitRect(area, d, ratio);
            && Lo(a, d) == Lo(area, d) && Hi(a, d) == Lo(b, d) && Hi(b, d) == Hi(area, d)
            && Lo(a, Other(d)) == Lo(b, Other(d)) == Lo(area, Other(d))
            && Len(a, Other(d)) == Len(b, Other(d)) == Len(area, Other(d))
            && Inside(a, area) && Inside(b, area) && FitsU16(a) && FitsU16(b)
  {
    FirstLenWithin(Len(area, d), ratio);
  }

  /** A split divides the cells of its area between its two parts. */
  lemma SplitCells(area: Rect, d: Direction, ratio: real, x: int, y: int)
    requires 0.0 <= ratio <= 1.0 && FitsU16(area)
    ensures var (a, b) := SplitRect(area, d, ratio);
            && (HasCell(area, x, y) <==> HasCell(a, x, y) || HasCell(b, x, y))
            && !(HasCell(a, x, y) && HasCell(b, x, y))
  {
    SplitRectExact(area, d, ratio);
  }

  lemma PaneOfPart(node: Node, area: Rect, focus: PaneId, i: nat)
    requires node.Split? && i < CountPanes(node)
    ensures var (a, b) := SplitRect(area, node.direction, node.ratio);
            var n := CountPanes(node.first);
            Panes(node, area, focus)[i]
            == if i < n then Panes(node.first, a, focus)[i] else Panes(node.second, b, focus)[i - n]
  {
  }

  lemma {:induction false} PanesInside(node: Node, area: Rect, focus: PaneId, i: nat)
    requires UnitRatios(node) && FitsU16(area) && i < CountPanes(node)
    ensures Inside(Panes(node, area, focus)[i].rect, area)
    decreases node
  {
    if node.Split? {
      SplitRectExact(area, node.direction, node.ratio);
      var (a, b) := SplitRect(area, node.direction, node.ratio);
      var n := CountPanes(node.first);
      if i < n {
        PanesInside(node.first, a, focus, i);
      } else {
        PanesInside(node.second, b, focus, i - n);
      }
    }
  }

  /** Follow the dividers down to the pane that owns a cell. */
  function PaneAt(node: Node, area: Rect, x: int, y: int): (i: nat)
    ensures i < CountPanes(node)
  {
    match node
    case Pane(_) => 0
    case Split(direction, ratio, first, second) =>
      var (a, b) := SplitRect(area, direction, ratio);
      if HasCell(a, x, y) then PaneAt(first, a, x, y) else CountPanes(first) + PaneAt(second, b, x, y)
  }

  /** Every cell of the area belongs to exactly one pane, the one `PaneAt` finds. */
  lemma {:induction false} PanesTile(node: Node, area: Rect, focus: PaneId, x: int, y: int, i: nat)
    requires UnitRatios(node) && FitsU16(area) && HasCell(area, x, y) && i < CountPanes(node)
    ensures HasCell(Panes(node, area, focus)[i].rect, x, y) <==> i == PaneAt(node, area, x, y)
    decreases node
  {
    if node.Split? {
      var (a, b) := SplitRect(area, node.direction, node.ratio);
      var n := CountPanes(node.first);
      SplitCells(area, node.direction, node.ratio, x, y);
      SplitRectExact(area, node.direction, node.ratio);
      if i < n {
        PanesInside(node.first, a, focus, i);
        if HasCell(a, x, y) {
          PanesTile(node.first, a, focus, x, y, i);
        }
      } else {
        PanesInside(node.second, b, focus, i - n);
        if HasCell(b, x, y) {
          PanesTile(node.second, b, focus, x, y, i - n);
        }
      }
    }
  }

  /** No cell belongs to two panes, and no pane leaves the area. */
  lemma PanesDisjoint(node: Node, area: Rect, focus: PaneId, i: nat, j: nat, x: int, y: int)
    requires UnitRatios(node) && FitsU16(area) && i < CountPanes(node) && j < CountPanes(node)
    requires HasCell(Panes(node, area, focus)[i].rect, x, y) && HasCell(Panes(node, area, focus)[j].rect, x, y)
    ensures i == j
  {
    PanesInside(node, area, focus, i);
    PanesTile(node, area, focus, x, y, i);
    PanesTile(node, area, focus, x, y, j);
  }

  /** Panes come in the order of `Ids`, the focus flag marks the focused id, and there is
      one border less than there are panes. */
  lemma {:induction false} PanesInOrder(node: Node, area: Rect, focus: PaneId, path: seq<bool>, i: nat)
    requires i < CountPanes(node)
    ensures Panes(node, area, focus)[i].id == Ids(node)[i]
    ensures Panes(node, area, focus)[i].isFocused <==> Ids(node)[i] == focus
    ensures |Splits(node, area, path)| == CountPanes(node) - 1
    decreases node
  {
    if node.Split? {
      var (a, b) := SplitRect(area, node.direction, node.ratio);
      var n := CountPanes(node.first);
      PanesInOrder(node.first, a, focus, path + [false], if i < n then i else 0);
      PanesInOrder(node.second, b, focus, path + [true], if i < n then 0 else i - n);
    }
  }

  // --- Layouts without empty panes ---

  predicate NonEmpty(r: Rect) {
    r.width >= 1 && r.height >= 1
  }

  predicate NoEmptyPane(node: Node, area: Rect) {
    match node
    case Pane(_) => NonEmpty(area)
    case Split(direction, ratio, first, second) =>
      var (a, b) := SplitRect(area, direction, ratio);
      NoEmptyPane(first, a) && NoEmptyPane(second, b)
  }

  lemma {:induction false} PaneNonEmpty(node: Node, area: Rect, focus: PaneId, i: nat)
    requires NoEmptyPane(node, area) && i < CountPanes(node)
    ensures NonEmpty(Panes(node, area, focus)[i].rect)
    decreases node
  {
    if node.Split? {
      var (a, b) := SplitRect(area, node.direction, node.ratio);
      var n := CountPanes(node.first);
      if i < n {
        PaneNonEmpty(node.first, a, focus, i);
      } else {
        PaneNonEmpty(node.second, b, focus, i - n);
      }
    }
  }

  lemma {:induction false} EmptyPaneExists(node: Node, area: Rect, focus: PaneId) returns (i: nat)
    requires !NoEmptyPane(node, area)
    ensures i < CountPanes(node) && !NonEmpty(Panes(node, area, focus)[i].rect)
    decreases node
  {
    if node.Pane? {
      i := 0;
    } else {
      var (a, b) := SplitRect(area, node.direction, node.ratio);
      if !NoEmptyPane(node.first, a) {
        i := EmptyPaneExists(node.first, a, focus);
      } else {
        i := EmptyPaneExists(node.second, b, focus);
        i := CountPanes(node.first) + i;
      }
    }
  }

  /** It says exactly that no pane rectangle is empty. */
  lemma NoEmptyPaneMeans(node: Node, area: Rect, focus: PaneId)
    ensures NoEmptyPane(node, area) <==>
            forall i :: 0 <= i < CountPanes(node) ==> NonEmpty(Panes(node, area, focus)[i].rect)
  {
    if NoEmptyPane(node, area) {
      forall i | 0 <= i < CountPanes(node)
        ensures NonEmpty(Panes(node, area, focus)[i].rect)
      {
        PaneNonEmpty(node, area, focus, i);
      }
    } else {
      var i := EmptyPaneExists(node, area, focus);
    }
  }

  lemma {:induction false} NonEmptyArea(node: Node, area: Rect)
    requires UnitRatios(node) && FitsU16(area) && NoEmptyPane(node, area)
    ensures NonEmpty(area)
    decreases node
  {
    if node.Split? {
      SplitRectExact(area, node.direction, node.ratio);
      NonEmptyArea(node.first, SplitRect(area, node.direction, node.ratio).0);
    }
  }

  // --- Split borders ---

  /** A border runs strictly inside the area of its split, and that area lies in the whole. */
  lemma {:induction false} BorderInside(node: Node, area: Rect, path: seq<bool>, s: SplitBorder)
    requires UnitRatios(node) && FitsU16(area) && NoEmptyPane(node, area) && s in Splits(node, area, path)
    ensures Inside(s.area, area) && NonEmpty(s.area)
    ensures Lo(s.area, s.direction) < s.pos < Hi(s.area, s.direction)
    decreases node
  {
    var (a, b) := SplitRect(area, node.direction, node.ratio);
    SplitRectExact(area, node.direction, node.ratio);
    NonEmptyArea(node.first, a);
    NonEmptyArea(node.second, b);
    if s == BorderOf(node, area, path) {
    } else if s in Splits(node.first, a, path + [false]) {
      BorderInside(node.first, a, path + [false], s);
    } else {
      BorderInside(node.second, b, path + [true], s);
    }
  }

  /** A pane lies inside the area of a split or shares no cell with it. */
  lemma {:induction false} PaneInsideOrApart(node: Node, area: Rect, focus: PaneId, path: seq<bool>, s: SplitBorder,
                                             i: nat, x: int, y: int)
    requires UnitRatios(node) && FitsU16(area) && NoEmptyPane(node, area) && s in Splits(node, area, path)
    requires i < CountPanes(node)
    requires HasCell(Panes(node, area, focus)[i].rect, x, y) && HasCell(s.area, x, y)
    ensures Inside(Panes(node, area, focus)[i].rect, s.area)
    decreases node
  {
    var (a, b) := SplitRect(area, node.direction, node.ratio);
    var n := CountPanes(node.first);
    SplitRectExact(area, node.direction, node.ratio);
    SplitCells(area, node.direction, node.ratio, x, y);
    PanesInside(node, area, focus, i);
    if s == BorderOf(node, area, path) {
    } else {
      if i < n {
        PanesInside(node.first, a, focus, i);
      } else {
        PanesInside(node.second, b, focus, i - n);
      }
      if s in Splits(node.first, a, path + [false]) {
        BorderInside(node.first, a, path + [false], s);
        PaneInsideOrApart(node.first, a, focus, path + [false], s, i, x, y);
      } else {
        BorderInside(node.second, b, path + [true], s);
        PaneInsideOrApart(node.second, b, focus, path + [true], s, i - n, x, y);
      }
    }
  }

  lemma NotInBothParts(area: Rect, d: Direction, ratio: real, r: Rect)
    requires 0.0 <= ratio <= 1.0 && FitsU16(area) && NonEmpty(r)
    ensures var (a, b) := SplitRect(area, d, ratio); !(Inside(r, a) && Inside(r, b))
  {
    SplitRectExact(area, d, ratio);
  }

  lemma InsideTrans(r: Rect, s: Rect, t: Rect)
    requires Inside(r, s) && Inside(s, t)
    ensures Inside(r, t)
  {
  }

  /** A border is the split's own, or lies strictly inside one of its parts. */
  lemma BorderOrDeeper(node: Node, area: Rect, path: seq<bool>, u: SplitBorder)
    requires UnitRatios(node) && FitsU16(area) && NoEmptyPane(node, area) && u in Splits(node, area, path)
    ensures node.Split?
    ensures var (a, b) := SplitRect(area, node.direction, node.ratio);
            var first, second := Splits(node.first, a, path + [false]), Splits(node.second, b, path + [true]);
            && UnitRatios(node.first) && UnitRatios(node.second) && FitsU16(a) && FitsU16(b)
            && NoEmptyPane(node.first, a) && NoEmptyPane(node.second, b)
            && (u == BorderOf(node, area, path) || u in first || u in second)
            && (u in first ==> Inside(u.area, a)) && (u in second ==> Inside(u.area, b))
            && Lo(u.area, u.direction) < u.pos < Hi(u.area, u.direction)
  {
    var (a, b) := SplitRect(area, node.direction, node.ratio);
    var first, second := Splits(node.first, a, path + [false]), Splits(node.second, b, path + [true]);
    assert u == BorderOf(node, area, path) || u in first || u in second;
    SplitRectExact(area, node.direction, node.ratio);
    BorderInside(node, area, path, u);
    hide Splits, SplitRect, Inside;
    if u in first {
      BorderInside(node.first, a, path + [false], u);
    }
    if u in second {
      BorderInside(node.second, b, path + [true], u);
    }
  }

  /** No pane straddles the divider of a split it lies in. */
  lemma {:induction false} PaneBesideDivider(node: Node, area: Rect, focus: PaneId, path: seq<bool>, s: SplitBorder,
                                             i: nat)
    requires UnitRatios(node) && FitsU16(area) && NoEmptyPane(node, area) && s in Splits(node, area, path)
    requires i < CountPanes(node) && Inside(Panes(node, area, focus)[i].rect, s.area)
    ensures var r := Panes(node, area, focus)[i].rect;
            Hi(r, s.direction) <= s.pos || s.pos <= Lo(r, s.direction)
    decreases node
  {
    hide Panes, SplitRect, NoEmptyPane, Inside, Splits;
    BorderOrDeeper(node, area, path, s);
    var (a, b) := SplitRect(area, node.direction, node.ratio);
    var n := CountPanes(node.first);
    var r := Panes(node, area, focus)[i].rect;
    PaneNonEmpty(node, area, focus, i);
    PaneOfPart(node, area, focus, i);
    NotInBothParts(area, node.direction, node.ratio, r);
    if i < n {
      PanesInside(node.first, a, focus, i);
    } else {
      PanesInside(node.second, b, focus, i - n);
    }
    if s == BorderOf(node, area, path) {
      BesideOwnDivider(area, node.direction, node.ratio, r);
    } else if s in Splits(node.first, a, path + [false]) {
      InsideTrans(r, s.area, a);
      PaneBesideDivider(node.first, a, focus, path + [false], s, i);
    } else {
      InsideTrans(r, s.area, b);
      PaneBesideDivider(node.second, b, focus, path + [true], s, i - n);
    }
  }

  lemma BesideOwnDivider(area: Rect, d: Direction, ratio: real, r: Rect)
    requires 0.0 <= ratio <= 1.0 && FitsU16(area)
    ensures var (a, b) := SplitRect(area, d, ratio);
            && (Inside(r, a) ==> Hi(r, d) <= Hi(a, d)) && (Inside(r, b) ==> Hi(a, d) <= Lo(r, d))
  {
    SplitRectExact(area, d, ratio);
  }

  lemma RootRatio(node: Node)
    requires node.Split? && UnitRatios(node)
    ensures 0.0 <= node.ratio <= 1.0
  {
  }

  /** Two borders along one axis at one position whose areas share a cell are the same. */
  lemma {:induction false} BordersUnique(node: Node, area: Rect, path: seq<bool>, s: SplitBorder, t: SplitBorder,
                                         x: int, y: int)
    requires UnitRatios(node) && FitsU16(area) && NoEmptyPane(node, area)
    requires s in Splits(node, area, path) && t in Splits(node, area, path)
    requires s.direction == t.direction && s.pos == t.pos
    requires HasCell(s.area, x, y) && HasCell(t.area, x, y)
    ensures s == t
    decreases node
  {
    hide Splits, SplitRect, NoEmptyPane, UnitRatios;
    BorderOrDeeper(node, area, path, s);
    BorderOrDeeper(node, area, path, t);
    assert 0.0 <= node.ratio <= 1.0 by {
      RootRatio(node);
    }
    var (a, b) := SplitRect(area, node.direction, node.ratio);
    var first, second := Splits(node.first, a, path + [false]), Splits(node.second, b, path + [true]);
    SplitRectExact(area, node.direction, node.ratio);
    SplitCells(area, node.direction, node.ratio, x, y);
    if s in first && t in first {
      BordersUnique(node.first, a, path + [false], s, t, x, y);
    } else if s in second && t in second {
      BordersUnique(node.second, b, path + [true], s, t, x, y);
    }
  }
}
