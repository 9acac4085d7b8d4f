/** Directional navigation: `find_in_direction` finds a neighbour whenever there is one. */
module LayoutNavigation {
  import opened Wrappers
  import opened Layout
  import opened LayoutGeometry

  function SatU16(n: nat): nat {
    if n > U16_MAX then U16_MAX else n
  }

  function SatSub(a: nat, b: nat): nat {
    if a > b then a - b else 0
  }

  /** The pane lies wholly on the requested side and shares a stretch of the edge. */
  predicate IsAhead(r: Rect, focused: Rect, nav: NavDirection) {
    var d := AxisOf(nav);
    && (if Forward(nav) then Lo(r, d) >= Hi(focused, d) else Hi(r, d) <= Lo(focused, d))
    && RangesOverlap(Lo(r, Other(d)), Len(r, Other(d)), Lo(focused, Other(d)), Len(focused, Other(d)))
  }

  function EdgeDistance(r: Rect, focused: Rect, nav: NavDirection): nat {
    var d := AxisOf(nav);
    if Forward(nav) then SatSub(Lo(r, d), Hi(focused, d)) else SatSub(Lo(focused, d), Hi(r, d))
  }

  function OverlapAmount(aStart: nat, aLen: nat, bStart: nat, bLen: nat): nat {
    var aEnd, bEnd := SatU16(aStart + aLen), SatU16(bStart + bLen);
    SatSub(if aEnd < bEnd then aEnd else bEnd, if aStart > bStart then aStart else bStart)
  }

  function CenterDistance(aStart: nat, aLen: nat, bStart: nat, bLen: nat): nat {
    Distance(SatU16(SatU16(aStart * 2) + aLen), SatU16(SatU16(bStart * 2) + bLen))
  }

  /** The key `min_by_key` compares: distance, then more overlap, then centres, then order. */
  datatype NavKey = NavKey(edge: nat, overlap: nat, center: nat, index: nat)

  function KeyOf(r: Rect, index: nat, focused: Rect, nav: NavDirection): NavKey {
    var across := Other(AxisOf(nav));
    NavKey(EdgeDistance(r, focused, nav),
           OverlapAmount(Lo(r, across), Len(r, across), Lo(focused, across), Len(focused, across)),
           CenterDistance(Lo(r, across), Len(r, across), Lo(focused, across), Len(focused, across)),
           index)
  }

  predicate Before(a: NavKey, b: NavKey) {
    || a.edge < b.edge
    || (a.edge == b.edge && a.overlap > b.overlap)
    || (a.edge == b.edge && a.overlap == b.overlap && a.center < b.center)
    || (a.edge == b.edge && a.overlap == b.overlap && a.center == b.center && a.index < b.index)
  }

  predicate IsCandidate(panes: seq<PaneInfo>, i: nat, focused: PaneInfo, nav: NavDirection) {
    i < |panes| && panes[i].id != focused.id && IsAhead(panes[i].rect, focused.rect, nav)
  }

  /** The least candidate among the first `n` panes. */
  function BestAmong(panes: seq<PaneInfo>, n: nat, focused: PaneInfo, nav: NavDirection): (best: Option<nat>)
    requires n <= |panes|
    ensures best.Some? ==> best.value < n && IsCandidate(panes, best.value, focused, nav)
    ensures best.Some? ==> forall j :: 0 <= j < n && j != best.value && IsCandidate(panes, j, focused, nav) ==>
              Before(KeyOf(panes[best.value].rect, best.value, focused.rect, nav),
                     KeyOf(panes[j].rect, j, focused.rect, nav))
    ensures best.None? ==> forall j :: 0 <= j < n ==> !IsCandidate(panes, j, focused, nav)
  {
    if n == 0 then None
    else
      var best := BestAmong(panes, n - 1, focused, nav);
      if !IsCandidate(panes, n - 1, focused, nav) then best
      else if best.Some?
              && Before(KeyOf(panes[best.value].rect, best.value, focused.rect, nav),
                        KeyOf(panes[n - 1].rect, n - 1, focused.rect, nav))
      then best
      else Some(n - 1)
  }

  /** `find_in_direction`. */
  function FindInDirection(focused: PaneInfo, nav: NavDirection, panes: seq<PaneInfo>): Option<PaneId> {
    var best := BestAmong(panes, |panes|, focused, nav);
    if best.Some? then Some(panes[best.value].id) else None
  }

  // --- Completeness on tilings ---

  predicate Tiled(node: Node, area: Rect) {
    UnitRatios(node) && FitsU16(area) && NoEmptyPane(node, area) && UniqueIds(node)
  }

  /** One cell inside `f` at its edge, and the cell across the edge. */
  function CellsAtEdge(f: Rect, nav: NavDirection): (int, int, int, int) {
    match nav
    case Right => (f.x + f.width - 1, f.y, f.x + f.width, f.y)
    case Left => (f.x, f.y, f.x - 1, f.y)
    case Down => (f.x, f.y + f.height - 1, f.x, f.y + f.height)
    case Up => (f.x, f.y, f.x, f.y - 1)
  }

  lemma CellsFaceEachOther(area: Rect, f: Rect, nav: NavDirection)
    requires Inside(f, area) && f.width > 0 && f.height > 0 && Edge(f, nav) != Edge(area, nav)
    ensures var (u, v, x, y) := CellsAtEdge(f, nav);
            HasCell(area, x, y) && HasCell(f, u, v) && !HasCell(f, x, y)
  {
  }

  /** A rectangle with the far cell but not the near one starts right at the edge. */
  lemma CellsMeet(area: Rect, f: Rect, r: Rect, nav: NavDirection)
    requires FitsU16(area) && Inside(f, area) && Inside(r, area) && f.width > 0 && f.height > 0
    requires var (u, v, x, y) := CellsAtEdge(f, nav); HasCell(r, x, y) && !HasCell(r, u, v)
    ensures IsAhead(r, f, nav) && Edge(r, Opposite(nav)) == Edge(f, nav)
  {
  }

  /** Just across the focused edge there is a pane that touches it. */
  lemma NeighbourExists(node: Node, area: Rect, focus: PaneId, k: nat, nav: NavDirection) returns (j: nat)
    requires Tiled(node, area) && k < CountPanes(node)
    requires Edge(Panes(node, area, focus)[k].rect, nav) != Edge(area, nav)
    ensures j < CountPanes(node) && j != k
    ensures IsAhead(Panes(node, area, focus)[j].rect, Panes(node, area, focus)[k].rect, nav)
    ensures Edge(Panes(node, area, focus)[j].rect, Opposite(nav)) == Edge(Panes(node, area, focus)[k].rect, nav)
  {
    var panes := Panes(node, area, focus);
    var f := panes[k].rect;
    PanesInside(node, area, focus, k);
    PaneNonEmpty(node, area, focus, k);
    var (u, v, x, y) := CellsAtEdge(f, nav);
    CellsFaceEachOther(area, f, nav);
    j := PaneAt(node, area, x, y);
    PanesTile(node, area, focus, x, y, j);
    PanesInside(node, area, focus, j);
    if HasCell(panes[j].rect, u, v) {
      PanesDisjoint(node, area, focus, j, k, u, v);
    }
    CellsMeet(area, f, panes[j].rect, nav);
    hide Panes, IsAhead, HasCell, Edge, CountPanes, CellsAtEdge;
  }

  /** `j` touches the focused edge and comes before every other candidate. */
  predicate IsBestNeighbour(panes: seq<PaneInfo>, j: nat, focused: PaneInfo, nav: NavDirection) {
    && j < |panes|
    && Edge(panes[j].rect, Opposite(nav)) == Edge(focused.rect, nav)
    && IsAhead(panes[j].rect, focused.rect, nav)
    && forall m :: 0 <= m < |panes| && m != j && IsCandidate(panes, m, focused, nav) ==>
         Before(KeyOf(panes[j].rect, j, focused.rect, nav), KeyOf(panes[m].rect, m, focused.rect, nav))
  }

  lemma TouchingIsBest(panes: seq<PaneInfo>, j: nat, focused: PaneInfo, nav: NavDirection)
    requires IsCandidate(panes, j, focused, nav)
    requires Edge(panes[j].rect, Opposite(nav)) == Edge(focused.rect, nav)
    ensures var best := BestAmong(panes, |panes|, focused, nav);
            best.Some? && IsBestNeighbour(panes, best.value, focused, nav)
  {
    var best := BestAmong(panes, |panes|, focused, nav).value;
    assert EdgeDistance(panes[j].rect, focused.rect, nav) == 0;
    hide BestAmong, OverlapAmount, CenterDistance, RangesOverlap;
    assert KeyOf(panes[best].rect, best, focused.rect, nav).edge == 0;
  }

  /** A candidate keeps the focused edge away from the rim. */
  lemma CandidateMeansInterior(panes: seq<PaneInfo>, j: nat, k: nat, area: Rect, nav: NavDirection)
    requires k < |panes| && IsCandidate(panes, j, panes[k], nav)
    requires Inside(panes[j].rect, area) && NonEmpty(panes[j].rect)
    ensures Edge(panes[k].rect, nav) != Edge(area, nav)
  {
  }

  /** `find_in_direction` returns nothing exactly when the focused pane touches that side of
      the area. Otherwise it returns a pane whose facing edge is the focused edge and that
      shares a stretch of it, the least in the order of the key. */
  lemma NavigationIsComplete(node: Node, area: Rect, focus: PaneId, k: nat, nav: NavDirection)
    requires Tiled(node, area) && k < CountPanes(node)
    ensures var panes := Panes(node, area, focus);
            var found := FindInDirection(panes[k], nav, panes);
            && (found.None? <==> Edge(panes[k].rect, nav) == Edge(area, nav))
            && (found.Some? ==>
                  exists j :: 0 <= j < |panes| && panes[j].id == found.value
                              && IsBestNeighbour(panes, j, panes[k], nav))
  {
    var panes := Panes(node, area, focus);
    var f := panes[k];
    var best := BestAmong(panes, |panes|, f, nav);
    if Edge(f.rect, nav) != Edge(area, nav) {
      var j := NeighbourExists(node, area, focus, k, nav);
      PanesInOrder(node, area, focus, [], j);
      PanesInOrder(node, area, focus, [], k);
      assert IsCandidate(panes, j, f, nav);
      TouchingIsBest(panes, j, f, nav);
    } else if best.Some? {
      PanesInside(node, area, focus, best.value);
      PaneNonEmpty(node, area, focus, best.value);
      CandidateMeansInterior(panes, best.value, k, area, nav);
    }
  }
}
