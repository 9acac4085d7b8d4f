/** Where dividers land: at the cell nearest to the ratio. What that means for a resize. */
module LayoutRounding {
  import opened Wrappers
  import opened Layout
  import opened LayoutGeometry
  import opened LayoutResize
  import opened LayoutGrowth
  import opened LayoutPaths

  /** `n` is the whole number nearest to `len` times `ratio`; a tie goes up. */
  predicate IsShare(n: int, len: int, ratio: real) {
    2.0 * n as real - 1.0 <= 2.0 * (len as real * ratio) < 2.0 * n as real + 1.0
  }

  lemma OneShare(n: int, m: int, len: int, ratio: real)
    requires IsShare(n, len, ratio) && IsShare(m, len, ratio)
    ensures n == m
  {
    var x := len as real * ratio;
    assert 2.0 * n as real - 1.0 <= 2.0 * x < 2.0 * n as real + 1.0;
    assert 2.0 * m as real - 1.0 <= 2.0 * x < 2.0 * m as real + 1.0;
  }

  /** The first part has the cells that the ratio asks for, to the nearest. */
  lemma FirstLenIsShare(len: nat, ratio: real)
    requires 0.0 <= ratio <= 1.0 && len <= U16_MAX
    ensures IsShare(FirstLen(len, ratio), len, ratio)
  {
    ScaledWithin(len, ratio);
    var x := Scaled(len, ratio);
    assert x == len as real * ratio;
    hide Scaled;
    RoundWithin(x, len);
    var n := (x + 0.5).Floor;
    assert n as real <= x + 0.5 < n as real + 1.0;
  }

  lemma SplitsAtNearestCell(area: Rect, d: Direction, ratio: real)
    requires 0.0 <= ratio <= 1.0 && FitsU16(area)
    ensures IsShare(Len(SplitRect(area, d, ratio).0, d), Len(area, d), ratio)
  {
    hide IsShare, FirstLen;
    FirstLenIsShare(Len(area, d), ratio);
  }

  lemma RootIsUnit(node: Node)
    requires node.Split? && UnitRatios(node)
    ensures 0.0 <= node.ratio <= 1.0
  {
  }

  /** Every divider of a layout stands at the cell nearest to its ratio. */
  lemma DividersAreNearest(node: Node, area: Rect, s: SplitBorder)
    requires UnitRatios(node) && FitsU16(area) && s in Splits(node, area, [])
    ensures IsShare(s.pos - Lo(s.area, s.direction), Len(s.area, s.direction), s.ratio)
  {
    hide IsShare, Splits, UnitRatios, FitsU16, BorderOf, PartAt, RectAt, HasPath;
    RootBorder(node, area, s);
    PartRegular(node, area, s.path);
    BorderIsNearest(PartAt(node, s.path), RectAt(node, area, s.path), s.path);
  }

  lemma BorderIsNearest(part: Node, rect: Rect, path: seq<bool>)
    requires part.Split? && UnitRatios(part) && FitsU16(rect)
    ensures var s := BorderOf(part, rect, path);
            && s.area == rect && s.direction == part.direction && s.ratio == part.ratio && s.path == path
            && IsShare(s.pos - Lo(rect, s.direction), Len(rect, s.direction), s.ratio)
  {
    RootIsUnit(part);
    hide IsShare, SplitRect, UnitRatios;
    SplitsAtNearestCell(rect, part.direction, part.ratio);
    SplitRectExact(rect, part.direction, part.ratio);
  }

  // --- The length of a pane ---

  function Share(len: int, ratio: real): (n: int)
    ensures IsShare(n, len, ratio)
  {
    (len as real * ratio + 0.5).Floor
  }

  /** How long pane `k` is along `d` where its tree is `len` long. */
  function Fitted(node: Node, k: nat, d: Direction, len: int): int
    requires k < CountPanes(node)
  {
    match node
    case Pane(_) => len
    case Split(direction, ratio, first, second) =>
      var n := CountPanes(first);
      var front := if direction == d then Share(len, ratio) else len;
      if k < n then Fitted(first, k, d, front)
      else Fitted(second, k - n, d, if direction == d then len - front else len)
  }

  lemma {:induction false} PaneIsFitted(node: Node, area: Rect, focus: PaneId, k: nat, d: Direction)
    requires UnitRatios(node) && FitsU16(area) && k < CountPanes(node)
    ensures Len(Panes(node, area, focus)[k].rect, d) == Fitted(node, k, d, Len(area, d))
    decreases node
  {
    hide SplitRect, Panes, IsShare, Share;
    if node.Split? {
      var (a, b) := SplitRect(area, node.direction, node.ratio);
      var n := CountPanes(node.first);
      SplitRectExact(area, node.direction, node.ratio);
      SplitsAtNearestCell(area, node.direction, node.ratio);
      var len := Len(area, node.direction);
      OneShare(Len(a, node.direction), Share(len, node.ratio), len, node.ratio);
      PaneOfPart(node, area, focus, k);
      if k < n {
        PaneIsFitted(node.first, a, focus, k, d);
      } else {
        PaneIsFitted(node.second, b, focus, k - n, d);
      }
    } else {
      LonePane(node, area, focus);
    }
  }

  lemma LonePane(node: Node, area: Rect, focus: PaneId)
    requires node.Pane?
    ensures Panes(node, area, focus)[0].rect == area
  {
  }

  // --- Panes at an edge of their tree ---

  /** No divider stands between the pane and that edge. */
  predicate AtEdge(node: Node, k: nat, nav: NavDirection)
    requires k < CountPanes(node)
  {
    match node
    case Pane(_) => true
    case Split(direction, _, first, second) =>
      var n := CountPanes(first);
      && (direction == AxisOf(nav) ==> (Forward(nav) <==> k >= n))
      && if k < n then AtEdge(first, k, nav) else AtEdge(second, k - n, nav)
  }

  lemma {:induction false} AtEdgeTouches(node: Node, area: Rect, focus: PaneId, k: nat, nav: NavDirection)
    requires UnitRatios(node) && FitsU16(area) && k < CountPanes(node) && AtEdge(node, k, nav)
    ensures Edge(Panes(node, area, focus)[k].rect, nav) == Edge(area, nav)
    decreases node
  {
    hide SplitRect, Panes;
    if node.Split? {
      var (a, b) := SplitRect(area, node.direction, node.ratio);
      var n := CountPanes(node.first);
      SplitRectExact(area, node.direction, node.ratio);
      PaneOfPart(node, area, focus, k);
      if k < n {
        AtEdgeTouches(node.first, a, focus, k, nav);
      } else {
        AtEdgeTouches(node.second, b, focus, k - n, nav);
      }
    } else {
      LonePane(node, area, focus);
    }
  }

  lemma RegularInside(node: Node, area: Rect, focus: PaneId, k: nat)
    requires Regular(node, area) && k < CountPanes(node)
    ensures Inside(Panes(node, area, focus)[k].rect, area) && NonEmpty(Panes(node, area, focus)[k].rect)
  {
    PanesInside(node, area, focus, k);
    PaneNonEmpty(node, area, focus, k);
  }

  lemma RegularParts(node: Node, area: Rect)
    requires node.Split? && Regular(node, area)
    ensures var (a, b) := SplitRect(area, node.direction, node.ratio);
            var d := node.direction;
            && Regular(node.first, a) && Regular(node.second, b) && NonEmpty(a) && NonEmpty(b)
            && Lo(a, d) == Lo(area, d) && Hi(a, d) == Lo(b, d) && Hi(b, d) == Hi(area, d)
            && Lo(a, Other(d)) == Lo(b, Other(d)) == Lo(area, Other(d))
            && Len(a, Other(d)) == Len(b, Other(d)) == Len(area, Other(d))
  {
    var (a, b) := SplitRect(area, node.direction, node.ratio);
    SplitRectExact(area, node.direction, node.ratio);
    NonEmptyArea(node.first, a);
    NonEmptyArea(node.second, b);
    hide SplitRect, NonEmpty;
  }

  lemma {:induction false} TouchesAtEdge(node: Node, area: Rect, focus: PaneId, k: nat, nav: NavDirection)
    requires Regular(node, area) && k < CountPanes(node)
    requires Edge(Panes(node, area, focus)[k].rect, nav) == Edge(area, nav)
    ensures AtEdge(node, k, nav)
    decreases node
  {
    hide SplitRect, Panes, Regular;
    if node.Split? {
      var (a, b) := SplitRect(area, node.direction, node.ratio);
      var n := CountPanes(node.first);
      RegularParts(node, area);
      PaneOfPart(node, area, focus, k);
      if k < n {
        RegularInside(node.first, a, focus, k);
        TouchesAtEdge(node.first, a, focus, k, nav);
      } else {
        RegularInside(node.second, b, focus, k - n);
        TouchesAtEdge(node.second, b, focus, k - n, nav);
      }
    }
  }

  // --- A resize ---

  /** A pane inside a part's rectangle is one of the part's panes. */
  lemma PaneIsInPart(node: Node, area: Rect, focus: PaneId, path: seq<bool>, k: nat)
    requires Regular(node, area) && HasPath(node, path) && k < CountPanes(node)
    requires Inside(Panes(node, area, focus)[k].rect, RectAt(node, area, path))
    ensures PanesBefore(node, path) <= k < PanesBefore(node, path) + CountPanes(PartAt(node, path))
  {
    var r, part, rect := Panes(node, area, focus)[k].rect, PartAt(node, path), RectAt(node, area, path);
    PaneNonEmpty(node, area, focus, k);
    PartRegular(node, area, path);
    hide Panes, NoEmptyPane, UnitRatios;
    var j := PaneAt(part, rect, r.x, r.y);
    assert HasCell(rect, r.x, r.y) && HasCell(r, r.x, r.y);
    PanesTile(part, rect, focus, r.x, r.y, j);
    PartPanes(node, area, focus, path, j);
    PanesDisjoint(node, area, focus, k, PanesBefore(node, path) + j, r.x, r.y);
  }

  /** The side of the divider that the focused pane is on. */
  function SideOf(s: SplitBorder, nav: NavDirection): seq<bool> {
    s.path + [!Forward(nav)]
  }

  /** How much room there is on that side, if the divider stands at `pos`. */
  function Room(s: SplitBorder, nav: NavDirection, pos: int): int {
    if Forward(nav) then pos - Lo(s.area, s.direction) else Hi(s.area, s.direction) - pos
  }

  /** The focused pane within its side of the divider: it is at the divider. */
  lemma OwnerInSide(node: Node, area: Rect, focus: PaneId, s: SplitBorder, k: nat, nav: NavDirection)
    requires Regular(node, area) && k < CountPanes(node) && s in Splits(node, area, [])
    requires OwnsEdge(s, Panes(node, area, focus)[k].rect, nav)
    ensures var side := SideOf(s, nav);
            && HasPath(node, s.path) && PartAt(node, s.path).Split? && HasPath(node, side)
            && PanesBefore(node, side) <= k < PanesBefore(node, side) + CountPanes(PartAt(node, side))
            && AtEdge(PartAt(node, side), k - PanesBefore(node, side), nav)
            && Len(RectAt(node, area, side), s.direction) == Room(s, nav, s.pos)
            && Len(Panes(node, area, focus)[k].rect, s.direction)
               == Fitted(PartAt(node, side), k - PanesBefore(node, side), s.direction, Room(s, nav, s.pos))
  {
    hide Panes, NoEmptyPane, UnitRatios, FitsU16, SplitRect, Fitted, AtEdge, PartAt, RectAt, PanesBefore, HasPath;
    hide Splits, BorderOf, Inside, Room, OwnsEdge, Edge, Len, AxisOf;
    OwnerFacts(s, Panes(node, area, focus)[k].rect, nav);
    RootBorder(node, area, s);
    var part, rect := PartAt(node, s.path), RectAt(node, area, s.path);
    SameAreaBorder(part, rect, s.path, part.ratio);
    PathSnoc(node, area, s.path, !Forward(nav));
    PartRegular(node, area, s.path);
    PaneIsInPart(node, area, focus, s.path, k);
    var i := k - PanesBefore(node, s.path);
    PartPanes(node, area, focus, s.path, i);
    OwnerSide(part, rect, focus, s.path, i, nav);
    SideOfSplit(node, area, s, nav);
    PaneInPartAtEdge(node, area, focus, SideOf(s, nav), k, nav);
  }

  lemma PaneInPartAtEdge(node: Node, area: Rect, focus: PaneId, path: seq<bool>, k: nat, nav: NavDirection)
    requires Regular(node, area) && HasPath(node, path)
    requires PanesBefore(node, path) <= k < PanesBefore(node, path) + CountPanes(PartAt(node, path))
    requires k < CountPanes(node)
    requires Edge(Panes(node, area, focus)[k].rect, nav) == Edge(RectAt(node, area, path), nav)
    ensures var part, rect := PartAt(node, path), RectAt(node, area, path);
            var j, d := k - PanesBefore(node, path), AxisOf(nav);
            AtEdge(part, j, nav) && Len(Panes(node, area, focus)[k].rect, d) == Fitted(part, j, d, Len(rect, d))
  {
    hide Panes, NoEmptyPane, UnitRatios, FitsU16, Fitted, AtEdge, PartAt, RectAt, PanesBefore, HasPath, Edge, Len;
    var part, rect, j := PartAt(node, path), RectAt(node, area, path), k - PanesBefore(node, path);
    PartRegular(node, area, path);
    PartPanes(node, area, focus, path, j);
    TouchesAtEdge(part, rect, focus, j, nav);
    PaneIsFitted(part, rect, focus, j, AxisOf(nav));
  }

  lemma OwnerFacts(s: SplitBorder, r: Rect, nav: NavDirection)
    requires OwnsEdge(s, r, nav)
    ensures s.direction == AxisOf(nav) && s.pos == Edge(r, nav) && Inside(r, s.area)
  {
  }

  /** The rectangle of a side of the divider. */
  lemma SideOfSplit(node: Node, area: Rect, s: SplitBorder, nav: NavDirection)
    requires UnitRatios(node) && FitsU16(area) && HasPath(node, s.path) && PartAt(node, s.path).Split?
    requires s == BorderOf(PartAt(node, s.path), RectAt(node, area, s.path), s.path) && s.direction == AxisOf(nav)
    ensures HasPath(node, SideOf(s, nav))
    ensures var rect := RectAt(node, area, SideOf(s, nav));
            Edge(rect, nav) == s.pos && Len(rect, s.direction) == Room(s, nav, s.pos)
  {
    var part := PartAt(node, s.path);
    PathSnoc(node, area, s.path, !Forward(nav));
    PartRegular(node, area, s.path);
    RootIsUnit(part);
    hide UnitRatios;
    SplitRectExact(s.area, s.direction, s.ratio);
    hide SplitRect;
  }

  /** The border that a rewritten split gets. */
  function Moved(s: SplitBorder, ratio: real, pos: nat): SplitBorder {
    s.(ratio := ratio, pos := pos)
  }

  lemma RewrittenBorder(node: Node, area: Rect, s: SplitBorder, ratio: real) returns (m: SplitBorder)
    requires UnitRatios(node) && FitsU16(area) && s in Splits(node, area, []) && 0.0 <= ratio <= 1.0
    ensures HasPath(node, s.path) && PartAt(node, s.path).Split?
    ensures var after := SetRatioAt(node, s.path, ratio).0;
            && m == Moved(s, ratio, m.pos) && m in Splits(after, area, [])
            && HasPath(after, s.path) && PartAt(after, s.path) == PartAt(node, s.path).(ratio := ratio)
            && RectAt(after, area, s.path) == RectAt(node, area, s.path) == s.area
            && m == BorderOf(PartAt(after, s.path), s.area, s.path)
            && PanesBefore(after, s.path) == PanesBefore(node, s.path)
            && IsShare(m.pos - Lo(s.area, s.direction), Len(s.area, s.direction), ratio)
  {
    hide IsShare, Splits, SetRatioAt, UnitRatios, PartAt, RectAt, HasPath, PanesBefore, Replaced, FitsU16;
    RootBorder(node, area, s);
    var part := PartAt(node, s.path);
    var after := SetRatioAt(node, s.path, ratio).0;
    SetRatioReplaces(node, s.path, ratio);
    ReplacedAt(node, area, s.path, part.(ratio := ratio));
    RootHasBorder(after, area, s.path);
    SameAreaBorder(part, RectAt(node, area, s.path), s.path, ratio);
    m := BorderOf(PartAt(after, s.path), s.area, s.path);
    SetRatioKeepsIds(node, s.path, ratio);
    hide BorderOf;
    DividersAreNearest(after, area, m);
  }

  lemma SameAreaBorder(part: Node, rect: Rect, path: seq<bool>, ratio: real)
    requires part.Split?
    ensures var s, m := BorderOf(part, rect, path), BorderOf(part.(ratio := ratio), rect, path);
            s.area == rect && s.direction == part.direction && m == Moved(s, ratio, m.pos)
  {
    hide SplitRect;
  }

  /** Towards an interior edge a resize puts that edge, and with it the focused pane's own
      edge, at the cell nearest to the clamped ratio; the pane's length is what its side of
      the divider leaves it. */
  lemma ResizeLandsOnNearestCell(node: Node, area: Rect, k: nat, nav: NavDirection, delta: real)
    returns (s: SplitBorder, pos: int)
    requires Regular(node, area) && UniqueIds(node) && k < CountPanes(node)
    requires IsInterior(Panes(node, area, Ids(node)[k])[k].rect, area, nav)
    ensures var focus := Ids(node)[k];
            var after := Resized(node, focus, nav, delta, area);
            var r := Panes(node, area, focus)[k].rect;
            var ratio := Clamp(s.ratio + (if Forward(nav) then delta else 0.0 - delta));
            && s in Splits(node, area, []) && OwnsEdge(s, r, nav)
            && IsShare(pos - Lo(s.area, s.direction), Len(s.area, s.direction), ratio)
            && CountPanes(after) == CountPanes(node)
            && Edge(Panes(after, area, focus)[k].rect, nav) == pos
    ensures var focus := Ids(node)[k];
            var after := Resized(node, focus, nav, delta, area);
            var side := SideOf(s, nav);
            && HasPath(node, side)
            && PanesBefore(node, side) <= k < PanesBefore(node, side) + CountPanes(PartAt(node, side))
            && Len(Panes(node, area, focus)[k].rect, s.direction)
               == Fitted(PartAt(node, side), k - PanesBefore(node, side), s.direction, Room(s, nav, s.pos))
            && Len(Panes(after, area, focus)[k].rect, s.direction)
               == Fitted(PartAt(node, side), k - PanesBefore(node, side), s.direction, Room(s, nav, pos))
  {
    var focus := Ids(node)[k];
    hide UniqueIds, IsInterior, Splits, Panes, SetRatioAt, OwnsEdge, Resized, Clamp, Fitted, AtEdge, PartAt, RectAt;
    hide PanesBefore, HasPath, NoEmptyPane, UnitRatios, IsShare, Room, SideOf;
    s := InteriorResize(node, area, k, nav, delta);
    OwnerInSide(node, area, focus, s, k, nav);
    pos := RewrittenOwner(node, area, focus, s, Clamp(s.ratio + (if Forward(nav) then delta else 0.0 - delta)), k, nav);
  }

  /** The owner after its divider was rewritten. */
  lemma RewrittenOwner(node: Node, area: Rect, focus: PaneId, s: SplitBorder, ratio: real, k: nat, nav: NavDirection)
    returns (pos: int)
    requires Regular(node, area) && k < CountPanes(node) && s in Splits(node, area, []) && 0.0 <= ratio <= 1.0
    requires s.direction == AxisOf(nav)
    requires var side := SideOf(s, nav);
             && HasPath(node, s.path) && PartAt(node, s.path).Split? && HasPath(node, side)
             && PanesBefore(node, side) <= k < PanesBefore(node, side) + CountPanes(PartAt(node, side))
             && AtEdge(PartAt(node, side), k - PanesBefore(node, side), nav)
    ensures IsShare(pos - Lo(s.area, s.direction), Len(s.area, s.direction), ratio)
    ensures var after := SetRatioAt(node, s.path, ratio).0;
            var side := SideOf(s, nav);
            && CountPanes(after) == CountPanes(node)
            && Edge(Panes(after, area, focus)[k].rect, nav) == pos
            && Len(Panes(after, area, focus)[k].rect, s.direction)
               == Fitted(PartAt(node, side), k - PanesBefore(node, side), s.direction, Room(s, nav, pos))
  {
    hide Splits, Panes, SetRatioAt, NoEmptyPane, IsShare, Fitted, AtEdge, SplitRect, UnitRatios, FitsU16, BorderOf;
    hide PartAt, RectAt, PanesBefore, HasPath, Room;
    var after := SetRatioAt(node, s.path, ratio).0;
    var side := SideOf(s, nav);
    var m := RewrittenBorder(node, area, s, ratio);
    pos := m.pos;
    CountStays(node, s.path, ratio);
    SetRatioKeepsIds(node, s.path, ratio);
    PathSnoc(node, area, s.path, !Forward(nav));
    PathSnoc(after, area, s.path, !Forward(nav));
    SideOfSplit(after, area, m, nav);
    assert SideOf(m, nav) == side && PartAt(after, side) == PartAt(node, side);
    assert Room(m, nav, m.pos) == Room(s, nav, m.pos) by {
      MovedRoom(s, m, nav);
    }
    var j := k - PanesBefore(node, side);
    PartRegularAfter(after, area, side);
    PartPanes(after, area, focus, side, j);
    AtEdgeTouches(PartAt(after, side), RectAt(after, area, side), focus, j, nav);
    PaneIsFitted(PartAt(after, side), RectAt(after, area, side), focus, j, s.direction);
  }

  lemma MovedRoom(s: SplitBorder, m: SplitBorder, nav: NavDirection)
    requires m == Moved(s, m.ratio, m.pos)
    ensures Room(m, nav, m.pos) == Room(s, nav, m.pos)
  {
  }

  lemma PartRegularAfter(node: Node, area: Rect, path: seq<bool>)
    requires HasPath(node, path) && UnitRatios(node) && FitsU16(area)
    ensures UnitRatios(PartAt(node, path)) && FitsU16(RectAt(node, area, path))
  {
    PartRegular(node, area, path);
  }

  // --- What a step of at least one cell does ---

  /** Two ratios a cell apart or more have dividers a cell apart or more. */
  lemma CellApart(n: int, m: int, len: int, ratio: real, larger: real)
    requires IsShare(n, len, ratio) && IsShare(m, len, larger) && len as real * (larger - ratio) >= 1.0
    ensures m >= n + 1
  {
    var x, y := len as real * ratio, len as real * larger;
    assert len as real * (larger - ratio) == y - x;
    assert 2.0 * n as real - 1.0 <= 2.0 * x && 2.0 * y < 2.0 * m as real + 1.0;
  }

  /** The same for the divider of a border. */
  lemma StepIsACell(s: SplitBorder, nav: NavDirection, delta: real, pos: int)
    requires IsShare(s.pos - Lo(s.area, s.direction), Len(s.area, s.direction), s.ratio)
    requires IsShare(pos - Lo(s.area, s.direction), Len(s.area, s.direction),
                     Clamp(s.ratio + (if Forward(nav) then delta else 0.0 - delta)))
    ensures Len(s.area, s.direction) as real * delta >= 1.0
            && 0.1 <= s.ratio + (if Forward(nav) then delta else 0.0 - delta) <= 0.9
            ==> if Forward(nav) then pos >= s.pos + 1 else pos <= s.pos - 1
  {
    hide IsShare;
    var ratio := s.ratio + (if Forward(nav) then delta else 0.0 - delta);
    var lo, len := Lo(s.area, s.direction), Len(s.area, s.direction);
    if len as real * delta >= 1.0 && 0.1 <= ratio <= 0.9 {
      if Forward(nav) {
        assert ratio - s.ratio == delta;
        CellApart(s.pos - lo, pos - lo, len, s.ratio, ratio);
      } else {
        assert s.ratio - ratio == delta;
        CellApart(pos - lo, s.pos - lo, len, ratio, s.ratio);
      }
    }
  }

  lemma MovedRoomByStep(s: SplitBorder, nav: NavDirection, pos: int)
    ensures Room(s, nav, pos) == Room(s, nav, s.pos) + if Forward(nav) then pos - s.pos else s.pos - pos
  {
  }

  /** No divider along `d` on the way to the pane. */
  predicate Spans(node: Node, k: nat, d: Direction)
    requires k < CountPanes(node)
  {
    match node
    case Pane(_) => true
    case Split(direction, _, first, second) =>
      direction != d && if k < CountPanes(first) then Spans(first, k, d) else Spans(second, k - CountPanes(first), d)
  }

  /** A pane without such a divider is as long as its tree, whatever that is. */
  lemma {:induction false} SpanningFits(node: Node, k: nat, d: Direction, len: int)
    requires k < CountPanes(node) && Spans(node, k, d)
    ensures Fitted(node, k, d, len) == len
    decreases node
  {
    if node.Split? {
      var n := CountPanes(node.first);
      SpanningFits(if k < n then node.first else node.second, if k < n then k else k - n, d, len);
    }
  }

  /** A delta worth a cell or more, with the new ratio inside 0.1..0.9, pushes the focused
      pane's edge outwards by a cell or more. A pane that no divider along the axis cuts off
      from the other end of its side gets longer by exactly as much. Any pane gets longer if
      and only if its share of its side does. */
  lemma StepMovesEdge(node: Node, area: Rect, k: nat, nav: NavDirection, delta: real) returns (s: SplitBorder)
    requires Regular(node, area) && UniqueIds(node) && k < CountPanes(node)
    requires IsInterior(Panes(node, area, Ids(node)[k])[k].rect, area, nav)
    ensures var focus := Ids(node)[k];
            var after := Resized(node, focus, nav, delta, area);
            var r := Panes(node, area, focus)[k].rect;
            && s in Splits(node, area, []) && OwnsEdge(s, r, nav) && CountPanes(after) == CountPanes(node)
            && HasPath(node, SideOf(s, nav))
            && PanesBefore(node, SideOf(s, nav)) <= k
               < PanesBefore(node, SideOf(s, nav)) + CountPanes(PartAt(node, SideOf(s, nav)))
    ensures var focus := Ids(node)[k];
            var after := Resized(node, focus, nav, delta, area);
            var r, r', d := Panes(node, area, focus)[k].rect, Panes(after, area, focus)[k].rect, AxisOf(nav);
            var part, j := PartAt(node, SideOf(s, nav)), k - PanesBefore(node, SideOf(s, nav));
            var step := if Forward(nav) then Edge(r', nav) - Edge(r, nav) else Edge(r, nav) - Edge(r', nav);
            && (Len(s.area, d) as real * delta >= 1.0
                && 0.1 <= s.ratio + (if Forward(nav) then delta else 0.0 - delta) <= 0.9
                ==> step >= 1)
            && (Spans(part, j, d) ==> Len(r', d) == Len(r, d) + step)
            && (Len(r', d) > Len(r, d)
                <==> Fitted(part, j, d, Room(s, nav, s.pos) + step) > Fitted(part, j, d, Room(s, nav, s.pos)))
  {
    hide UniqueIds, IsInterior, Splits, Panes, SetRatioAt, Resized, Fitted, PartAt, HasPath, PanesBefore, Spans;
    hide NoEmptyPane, UnitRatios, FitsU16, IsShare, OwnsEdge, Edge, Len, Lo, Clamp;
    var pos;
    s, pos := ResizeLandsOnNearestCell(node, area, k, nav, delta);
    OwnerFacts(s, Panes(node, area, Ids(node)[k])[k].rect, nav);
    DividersAreNearest(node, area, s);
    StepIsACell(s, nav, delta, pos);
    MovedRoomByStep(s, nav, pos);
    var part, j := PartAt(node, SideOf(s, nav)), k - PanesBefore(node, SideOf(s, nav));
    if Spans(part, j, s.direction) {
      SpanningFits(part, j, s.direction, Room(s, nav, s.pos));
      SpanningFits(part, j, s.direction, Room(s, nav, pos));
    }
  }

  // --- A step that does not lengthen the pane ---

  /** Columns of 1, 1 and 2 cells, the first two in one half. */
  const NESTED: Node := Split(Horizontal, 0.5, Split(Horizontal, 0.5, Pane(1), Pane(2)), Pane(3))

  const FOUR_COLUMNS: Rect := Rect(0, 0, 4, 1)

  lemma NestedRects()
    ensures SplitRect(FOUR_COLUMNS, Horizontal, 0.5) == (Rect(0, 0, 2, 1), Rect(2, 0, 2, 1))
    ensures SplitRect(FOUR_COLUMNS, Horizontal, 0.75) == (Rect(0, 0, 3, 1), Rect(3, 0, 1, 1))
    ensures SplitRect(Rect(0, 0, 2, 1), Horizontal, 0.5) == (Rect(0, 0, 1, 1), Rect(1, 0, 1, 1))
    ensures SplitRect(Rect(0, 0, 3, 1), Horizontal, 0.5) == (Rect(0, 0, 2, 1), Rect(2, 0, 1, 1))
  {
    assert Scaled(4, 0.5) == 2.0 && Scaled(4, 0.75) == 3.0 && Scaled(2, 0.5) == 1.0 && Scaled(3, 0.5) == 1.5;
    assert FirstLen(4, 0.5) == 2 && FirstLen(4, 0.75) == 3 && FirstLen(2, 0.5) == 1 && FirstLen(3, 0.5) == 2;
    hide FirstLen;
  }

  const NESTED_DIVIDER: SplitBorder := SplitBorder(2, Horizontal, 0.5, FOUR_COLUMNS, [])

  lemma NestedPanes()
    ensures Panes(NESTED, FOUR_COLUMNS, 2)
            == [PaneInfo(1, Rect(0, 0, 1, 1), false), PaneInfo(2, Rect(1, 0, 1, 1), true),
                PaneInfo(3, Rect(2, 0, 2, 1), false)]
    ensures Panes(NESTED.(ratio := 0.75), FOUR_COLUMNS, 2)
            == [PaneInfo(1, Rect(0, 0, 2, 1), false), PaneInfo(2, Rect(2, 0, 1, 1), true),
                PaneInfo(3, Rect(3, 0, 1, 1), false)]
  {
    NestedRects();
    hide SplitRect;
  }

  lemma NestedBorders(s: SplitBorder)
    requires s in Splits(NESTED, FOUR_COLUMNS, []) && s.pos == 2
    ensures s == NESTED_DIVIDER
  {
    NestedRects();
    hide SplitRect;
    var inner := Split(Horizontal, 0.5, Pane(1), Pane(2));
    assert Splits(inner, Rect(0, 0, 2, 1), [] + [false])
        == [SplitBorder(1, Horizontal, 0.5, Rect(0, 0, 2, 1), [] + [false])];
    assert Splits(Pane(3), Rect(2, 0, 2, 1), [] + [true]) == [];
  }

  lemma NestedIsRegular()
    ensures Regular(NESTED, FOUR_COLUMNS) && UniqueIds(NESTED) && Ids(NESTED) == [1, 2, 3]
  {
    NestedRects();
    hide SplitRect;
  }

  /** The second column is pushed one cell to the right: its right edge moves, and so does
      its left one, because the first column takes the new cell. */
  lemma StepNeedNotLengthen()
    ensures var after := Resized(NESTED, 2, Right, 0.25, FOUR_COLUMNS);
            && Panes(NESTED, FOUR_COLUMNS, 2)[1].rect == Rect(1, 0, 1, 1)
            && CountPanes(after) == 3 && Panes(after, FOUR_COLUMNS, 2)[1].rect == Rect(2, 0, 1, 1)
  {
    NestedPanes();
    NestedIsRegular();
    hide Panes, Regular, UniqueIds, Ids, Splits, Resized;
    var s := InteriorResize(NESTED, FOUR_COLUMNS, 1, Right, 0.25);
    NestedBorders(s);
  }
}
