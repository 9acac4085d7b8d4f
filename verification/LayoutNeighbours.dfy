/** Where directional focus goes, said with the rectangles: to the pane across the focused
    edge that shares the longest stretch of it. */
module LayoutNeighbours {
  import opened Wrappers
  import opened Layout
  import opened LayoutGeometry
  import opened LayoutNavigation

  /** The whole numbers from `lo` up to `hi`, `hi` excluded. */
  function Interval(lo: int, hi: int): (s: set<int>)
    ensures forall x :: x in s <==> lo <= x < hi
    ensures |s| == if lo < hi then hi - lo else 0
    decreases hi - lo
  {
    if lo < hi then Interval(lo, hi - 1) + {hi - 1} else {}
  }

  /** The positions along `d` that two rectangles have in common. */
  function Shared(a: Rect, b: Rect, d: Direction): set<int> {
    Interval(Lo(a, d), Hi(a, d)) * Interval(Lo(b, d), Hi(b, d))
  }

  lemma CommonInterval(lo: int, hi: int, lo': int, hi': int)
    ensures Interval(lo, hi) * Interval(lo', hi')
            == Interval(if lo > lo' then lo else lo', if hi < hi' then hi else hi')
  {
  }

  /** The overlap in the key is the number of shared positions. */
  lemma OverlapCounts(a: Rect, b: Rect, d: Direction)
    requires FitsU16(a) && FitsU16(b)
    ensures OverlapAmount(Lo(a, d), Len(a, d), Lo(b, d), Len(b, d)) == |Shared(a, b, d)|
  {
    CommonInterval(Lo(a, d), Hi(a, d), Lo(b, d), Hi(b, d));
    hide Interval;
  }

  lemma OverlapMeans(a: Rect, b: Rect, d: Direction)
    requires Len(a, d) > 0 && Len(b, d) > 0
    ensures RangesOverlap(Lo(a, d), Len(a, d), Lo(b, d), Len(b, d)) <==> Shared(a, b, d) != {}
  {
    CommonInterval(Lo(a, d), Hi(a, d), Lo(b, d), Hi(b, d));
    var lo := if Lo(a, d) > Lo(b, d) then Lo(a, d) else Lo(b, d);
    var hi := if Hi(a, d) < Hi(b, d) then Hi(a, d) else Hi(b, d);
    assert lo < hi ==> lo in Interval(lo, hi);
    hide Interval;
  }

  /** Twice the distance between the middles along `d`. */
  function MiddlesApart(a: Rect, b: Rect, d: Direction): nat {
    Distance(Lo(a, d) + Hi(a, d), Lo(b, d) + Hi(b, d))
  }

  /** The pane lies right across that edge of the other and shares a stretch of it. */
  predicate Adjoins(r: Rect, f: Rect, nav: NavDirection) {
    Edge(r, Opposite(nav)) == Edge(f, nav) && Shared(r, f, Other(AxisOf(nav))) != {}
  }

  /** More of the edge, else closer middles, else earlier in the order. Doubled middles are
      capped in sixteen bits, so they count only where the area does not reach that far. */
  predicate NearerThan(panes: seq<PaneInfo>, j: nat, m: nat, f: Rect, area: Rect, across: Direction)
    requires j < |panes| && m < |panes|
  {
    var a, b := panes[j].rect, panes[m].rect;
    || |Shared(a, f, across)| > |Shared(b, f, across)|
    || (|Shared(a, f, across)| == |Shared(b, f, across)|
        && (2 * Hi(area, across) <= U16_MAX ==>
              || MiddlesApart(a, f, across) < MiddlesApart(b, f, across)
              || (MiddlesApart(a, f, across) == MiddlesApart(b, f, across) && j < m)))
  }

  lemma MiddlesCompared(a: Rect, b: Rect, d: Direction)
    requires 2 * Hi(a, d) <= U16_MAX && 2 * Hi(b, d) <= U16_MAX
    ensures CenterDistance(Lo(a, d), Len(a, d), Lo(b, d), Len(b, d)) == MiddlesApart(a, b, d)
  {
  }

  /** What the parts of the key mean for a pane that touches the edge. */
  lemma KeyMeans(r: Rect, index: nat, f: Rect, area: Rect, nav: NavDirection)
    requires FitsU16(area) && Inside(r, area) && Inside(f, area) && Edge(r, Opposite(nav)) == Edge(f, nav)
    ensures var key, across := KeyOf(r, index, f, nav), Other(AxisOf(nav));
            && key.edge == 0 && key.overlap == |Shared(r, f, across)| && key.index == index
            && (2 * Hi(area, across) <= U16_MAX ==> key.center == MiddlesApart(r, f, across))
  {
    var across := Other(AxisOf(nav));
    OverlapCounts(r, f, across);
    if 2 * Hi(area, across) <= U16_MAX {
      MiddlesCompared(r, f, across);
    }
    hide Shared, OverlapAmount, CenterDistance, MiddlesApart;
  }

  lemma KeyMeansNearer(panes: seq<PaneInfo>, j: nat, m: nat, f: Rect, area: Rect, nav: NavDirection)
    requires j < |panes| && m < |panes| && FitsU16(area)
    requires Inside(panes[j].rect, area) && Inside(panes[m].rect, area) && Inside(f, area)
    requires Edge(panes[j].rect, Opposite(nav)) == Edge(f, nav) == Edge(panes[m].rect, Opposite(nav))
    requires Before(KeyOf(panes[j].rect, j, f, nav), KeyOf(panes[m].rect, m, f, nav))
    ensures NearerThan(panes, j, m, f, area, Other(AxisOf(nav)))
  {
    hide Inside, Edge, KeyOf, Shared, MiddlesApart, AxisOf, Other;
    KeyMeans(panes[j].rect, j, f, area, nav);
    KeyMeans(panes[m].rect, m, f, area, nav);
  }

  lemma AdjoiningIsAhead(r: Rect, f: Rect, nav: NavDirection)
    requires NonEmpty(r) && NonEmpty(f)
    ensures Adjoins(r, f, nav) <==> Edge(r, Opposite(nav)) == Edge(f, nav) && IsAhead(r, f, nav)
  {
    OverlapMeans(r, f, Other(AxisOf(nav)));
    hide Shared;
  }

  lemma PaneFacts(node: Node, area: Rect, focus: PaneId, m: nat)
    requires Tiled(node, area) && m < CountPanes(node)
    ensures var p := Panes(node, area, focus)[m];
            Inside(p.rect, area) && NonEmpty(p.rect) && p.id == Ids(node)[m]
  {
    hide Panes, UnitRatios, NoEmptyPane;
    PanesInside(node, area, focus, m);
    PaneNonEmpty(node, area, focus, m);
    PanesInOrder(node, area, focus, [], m);
  }

  /** The panes that adjoin the focused edge are the candidates that touch it. */
  lemma AdjoiningIsCandidate(node: Node, area: Rect, focus: PaneId, k: nat, m: nat, nav: NavDirection)
    requires Tiled(node, area) && k < CountPanes(node) && m < CountPanes(node)
    ensures var panes := Panes(node, area, focus);
            var r, f := panes[m].rect, panes[k].rect;
            && (Adjoins(r, f, nav) ==> IsCandidate(panes, m, panes[k], nav))
            && (Adjoins(r, f, nav) <==> Edge(r, Opposite(nav)) == Edge(f, nav) && IsAhead(r, f, nav))
  {
    PaneFacts(node, area, focus, k);
    PaneFacts(node, area, focus, m);
    assert m != k ==> Ids(node)[m] != Ids(node)[k];
    hide Panes, Tiled, Ids, Shared;
    var panes := Panes(node, area, focus);
    AdjoiningIsAhead(panes[m].rect, panes[k].rect, nav);
  }

  lemma FoundAmongCandidates(panes: seq<PaneInfo>, m: nat, focused: PaneInfo, nav: NavDirection)
    requires IsCandidate(panes, m, focused, nav)
    ensures FindInDirection(focused, nav, panes).Some?
  {
  }

  /** Focus moves exactly if some pane adjoins the focused edge, and then to the one that
      shares most of it. */
  lemma FocusGoesToNearest(node: Node, area: Rect, focus: PaneId, k: nat, nav: NavDirection)
    requires Tiled(node, area) && k < CountPanes(node)
    ensures var panes := Panes(node, area, focus);
            var f := panes[k].rect;
            var found := FindInDirection(panes[k], nav, panes);
            && (found.Some? <==> exists m :: 0 <= m < |panes| && Adjoins(panes[m].rect, f, nav))
            && (found.Some? ==>
                  exists j :: && 0 <= j < |panes| && panes[j].id == found.value && Adjoins(panes[j].rect, f, nav)
                              && forall m :: 0 <= m < |panes| && m != j && Adjoins(panes[m].rect, f, nav) ==>
                                   NearerThan(panes, j, m, f, area, Other(AxisOf(nav))))
  {
    hide Panes, FindInDirection, Adjoins, NearerThan, IsAhead, Edge, Inside, NonEmpty;
    hide NoEmptyPane, UnitRatios, UniqueIds, KeyOf, Before;
    var panes := Panes(node, area, focus);
    var f := panes[k];
    NavigationIsComplete(node, area, focus, k, nav);
    PaneFacts(node, area, focus, k);
    forall m | 0 <= m < |panes|
      ensures Inside(panes[m].rect, area)
      ensures Adjoins(panes[m].rect, f.rect, nav)
              <==> Edge(panes[m].rect, Opposite(nav)) == Edge(f.rect, nav) && IsAhead(panes[m].rect, f.rect, nav)
      ensures Adjoins(panes[m].rect, f.rect, nav)
              ==> IsCandidate(panes, m, f, nav) && FindInDirection(f, nav, panes).Some?
    {
      PaneFacts(node, area, focus, m);
      AdjoiningIsCandidate(node, area, focus, k, m, nav);
      if Adjoins(panes[m].rect, f.rect, nav) {
        FoundAmongCandidates(panes, m, f, nav);
      }
    }
    hide IsCandidate;
    var found := FindInDirection(f, nav, panes);
    if found.Some? {
      var j :| 0 <= j < |panes| && panes[j].id == found.value && IsBestNeighbour(panes, j, f, nav);
      forall m | 0 <= m < |panes| && m != j && Adjoins(panes[m].rect, f.rect, nav)
        ensures NearerThan(panes, j, m, f.rect, area, Other(AxisOf(nav)))
      {
        KeyMeansNearer(panes, j, m, f.rect, area, nav);
      }
    }
  }
}
