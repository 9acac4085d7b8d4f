/** `resize_focused` moves the divider at the focused pane's edge and nothing else. */
module LayoutResize {
  import opened Wrappers
  import opened Layout
  import opened LayoutGeometry

  predicate Regular(node: Node, area: Rect) {
    UnitRatios(node) && FitsU16(area) && NoEmptyPane(node, area)
  }

  /** The focused edge is not an edge of the whole area. */
  predicate IsInterior(r: Rect, area: Rect, nav: NavDirection) {
    Edge(r, nav) != Edge(area, nav)
  }

  /** A split whose divider is the focused edge, with the focused pane in its area. */
  predicate OwnsEdge(s: SplitBorder, r: Rect, nav: NavDirection) {
    s.direction == AxisOf(nav) && s.pos == Edge(r, nav) && Inside(r, s.area)
  }

  // --- The divider exists ---

  /** An interior edge is the divider of some split around the pane. */
  lemma {:induction false} EdgeHasSplit(node: Node, area: Rect, focus: PaneId, path: seq<bool>, k: nat,
                                        nav: NavDirection) returns (s: SplitBorder)
    requires Regular(node, area) && k < CountPanes(node)
    requires IsInterior(Panes(node, area, focus)[k].rect, area, nav)
    ensures s in Splits(node, area, path) && OwnsEdge(s, Panes(node, area, focus)[k].rect, nav)
    decreases node
  {
    var r := Panes(node, area, focus)[k].rect;
    s := SplitBorder(Edge(area, nav), AxisOf(nav), 0.0, area, path);
    if node.Split? {
      PanesInside(node, area, focus, k);
      var (a, b) := SplitRect(area, node.direction, node.ratio);
      var n := CountPanes(node.first);
      SplitRectExact(area, node.direction, node.ratio);
      s := BorderOf(node, area, path);
      if k < n {
        PanesInside(node.first, a, focus, k);
        if IsInterior(r, a, nav) {
          s := EdgeHasSplit(node.first, a, focus, path + [false], k, nav);
        }
      } else {
        PanesInside(node.second, b, focus, k - n);
        if IsInterior(r, b, nav) {
          s := EdgeHasSplit(node.second, b, focus, path + [true], k - n, nav);
        }
      }
    }
  }

  // --- Candidates are ancestors ---

  /** A candidate exactly at the focused edge is a split around the focused pane. */
  lemma CandidateAtEdgeOwnsIt(node: Node, area: Rect, focus: PaneId, k: nat, nav: NavDirection, s: SplitBorder)
    requires Regular(node, area) && k < CountPanes(node) && s in Splits(node, area, [])
    requires var r := Panes(node, area, focus)[k].rect;
             IsResizeCandidate(s, AxisOf(nav), r, nav) && s.pos == Edge(r, nav)
    ensures OwnsEdge(s, Panes(node, area, focus)[k].rect, nav)
  {
    var r := Panes(node, area, focus)[k].rect;
    PaneNonEmpty(node, area, focus, k);
    BorderInside(node, area, [], s);
    var along := if Forward(nav) then Hi(r, AxisOf(nav)) - 1 else Lo(r, AxisOf(nav));
    SharedCell(node, area, focus, k, nav, s, along);
  }

  /** If the pane reaches into the range of the split's area along the axis, it lies in it. */
  lemma SharedCell(node: Node, area: Rect, focus: PaneId, k: nat, nav: NavDirection, s: SplitBorder, along: nat)
    requires Regular(node, area) && k < CountPanes(node) && s in Splits(node, area, [])
    requires IsResizeCandidate(s, AxisOf(nav), Panes(node, area, focus)[k].rect, nav)
    requires var r, d := Panes(node, area, focus)[k].rect, AxisOf(nav);
             Lo(r, d) <= along < Hi(r, d) && Lo(s.area, d) <= along < Hi(s.area, d)
    ensures Inside(Panes(node, area, focus)[k].rect, s.area)
  {
    var r, d := Panes(node, area, focus)[k].rect, AxisOf(nav);
    var across := if Lo(r, Other(d)) > Lo(s.area, Other(d)) then Lo(r, Other(d)) else Lo(s.area, Other(d));
    PaneNonEmpty(node, area, focus, k);
    BorderInside(node, area, [], s);
    var x, y := if d == Horizontal then along else across, if d == Horizontal then across else along;
    assert HasCell(r, x, y) && HasCell(s.area, x, y);
    PaneInsideOrApart(node, area, focus, [], s, k, x, y);
  }

  /** Where the edge is the rim of the area, a candidate can only be the divider on the
      pane's other side, one cell away. */
  lemma CandidateAtRim(node: Node, area: Rect, focus: PaneId, k: nat, nav: NavDirection, s: SplitBorder)
    requires Regular(node, area) && k < CountPanes(node) && s in Splits(node, area, [])
    requires var r := Panes(node, area, focus)[k].rect;
             IsResizeCandidate(s, AxisOf(nav), r, nav) && !IsInterior(r, area, nav)
    ensures OwnsEdge(s, Panes(node, area, focus)[k].rect, Opposite(nav))
  {
    var r, d := Panes(node, area, focus)[k].rect, AxisOf(nav);
    PaneNonEmpty(node, area, focus, k);
    BorderInside(node, area, [], s);
    SharedCell(node, area, focus, k, nav, s, if Forward(nav) then Hi(r, d) - 1 else Lo(r, d));
    PaneBesideDivider(node, area, focus, [], s, k);
  }

  /** At most one split owns an edge. */
  lemma EdgeOwnerUnique(node: Node, area: Rect, focus: PaneId, k: nat, nav: NavDirection, s: SplitBorder,
                        t: SplitBorder)
    requires Regular(node, area) && k < CountPanes(node)
    requires s in Splits(node, area, []) && t in Splits(node, area, [])
    requires var r := Panes(node, area, focus)[k].rect; OwnsEdge(s, r, nav) && OwnsEdge(t, r, nav)
    ensures s == t
  {
    var r := Panes(node, area, focus)[k].rect;
    PaneNonEmpty(node, area, focus, k);
    assert HasCell(s.area, r.x, r.y) && HasCell(t.area, r.x, r.y);
    BordersUnique(node, area, [], s, t, r.x, r.y);
  }

  // --- The search ---

  /** The search returns a candidate at the least distance, if there is any. */
  lemma {:induction false} NearestIsLeast(splits: seq<SplitBorder>, dir: Direction, r: Rect, nav: NavDirection)
    ensures var best := NearestResizeSplit(splits, dir, r, nav);
            && (best.None? ==> forall s :: s in splits ==> !IsResizeCandidate(s, dir, r, nav))
            && (best.Some? ==>
                  && best.value in splits && IsResizeCandidate(best.value, dir, r, nav)
                  && forall s :: s in splits && IsResizeCandidate(s, dir, r, nav) ==>
                       Distance(best.value.pos, Edge(r, nav)) <= Distance(s.pos, Edge(r, nav)))
    decreases |splits|
  {
    if splits != [] {
      var front, last := splits[..|splits| - 1], splits[|splits| - 1];
      NearestIsLeast(front, dir, r, nav);
      assert splits == front + [last];
      hide IsResizeCandidate, Edge, Distance;
    }
  }

  lemma OwnerIsCandidate(node: Node, area: Rect, focus: PaneId, k: nat, nav: NavDirection, s: SplitBorder)
    requires Regular(node, area) && k < CountPanes(node) && s in Splits(node, area, [])
    requires OwnsEdge(s, Panes(node, area, focus)[k].rect, nav)
    ensures IsResizeCandidate(s, AxisOf(nav), Panes(node, area, focus)[k].rect, nav)
  {
    PaneNonEmpty(node, area, focus, k);
  }

  /** An interior edge is found, and it is the only split that owns it. */
  lemma InteriorEdgeIsFound(node: Node, area: Rect, focus: PaneId, k: nat, nav: NavDirection)
    requires Regular(node, area) && k < CountPanes(node)
    requires IsInterior(Panes(node, area, focus)[k].rect, area, nav)
    ensures var r, splits := Panes(node, area, focus)[k].rect, Splits(node, area, []);
            var found := NearestResizeSplit(splits, AxisOf(nav), r, nav);
            && found.Some? && found.value in splits && OwnsEdge(found.value, r, nav)
            && forall s :: s in splits && OwnsEdge(s, r, nav) ==> s == found.value
  {
    var r, splits := Panes(node, area, focus)[k].rect, Splits(node, area, []);
    var s := EdgeHasSplit(node, area, focus, [], k, nav);
    OwnerIsCandidate(node, area, focus, k, nav, s);
    NearestIsLeast(splits, AxisOf(nav), r, nav);
    var found := NearestResizeSplit(splits, AxisOf(nav), r, nav).value;
    assert Distance(s.pos, Edge(r, nav)) == 0;
    assert found.pos == Edge(r, nav);
    CandidateAtEdgeOwnsIt(node, area, focus, k, nav, found);
    forall t | t in splits && OwnsEdge(t, r, nav)
      ensures t == found
    {
      EdgeOwnerUnique(node, area, focus, k, nav, t, found);
    }
  }

  /** At the rim the search finds nothing, or the divider on the other side. */
  lemma RimFindsOtherSideOrNothing(node: Node, area: Rect, focus: PaneId, k: nat, nav: NavDirection)
    requires Regular(node, area) && k < CountPanes(node)
    requires !IsInterior(Panes(node, area, focus)[k].rect, area, nav)
    ensures var r, splits := Panes(node, area, focus)[k].rect, Splits(node, area, []);
            var found := NearestResizeSplit(splits, AxisOf(nav), r, nav);
            found.Some? ==> found.value in splits && OwnsEdge(found.value, r, Opposite(nav))
  {
    var r, splits := Panes(node, area, focus)[k].rect, Splits(node, area, []);
    NearestIsLeast(splits, AxisOf(nav), r, nav);
    var found := NearestResizeSplit(splits, AxisOf(nav), r, nav);
    if found.Some? {
      CandidateAtRim(node, area, focus, k, nav, found.value);
    }
  }

  lemma OwnedEdgeIsInterior(node: Node, area: Rect, focus: PaneId, k: nat, nav: NavDirection, s: SplitBorder)
    requires Regular(node, area) && k < CountPanes(node) && s in Splits(node, area, [])
    requires OwnsEdge(s, Panes(node, area, focus)[k].rect, nav)
    ensures IsInterior(Panes(node, area, focus)[k].rect, area, nav)
  {
    BorderInside(node, area, [], s);
  }

  /** Which split a resize moves: the one whose divider is the requested edge if that edge
      is interior; else the one at the opposite edge if that is; else none. */
  lemma ResizeSelects(node: Node, area: Rect, focus: PaneId, k: nat, nav: NavDirection)
    requires Regular(node, area) && k < CountPanes(node)
    ensures var r := Panes(node, area, focus)[k].rect;
            var target := ResizeTarget(node, area, r, nav);
            && (IsInterior(r, area, nav) ==>
                  target.Some? && target.value in Splits(node, area, []) && OwnsEdge(target.value, r, nav))
            && (!IsInterior(r, area, nav) && IsInterior(r, area, Opposite(nav)) ==>
                  target.Some? && target.value in Splits(node, area, [])
                  && OwnsEdge(target.value, r, Opposite(nav)))
            && (!IsInterior(r, area, nav) && !IsInterior(r, area, Opposite(nav)) ==> target.None?)
  {
    var r, splits := Panes(node, area, focus)[k].rect, Splits(node, area, []);
    assert AxisOf(Opposite(nav)) == AxisOf(nav) && Opposite(Opposite(nav)) == nav;
    var first := NearestResizeSplit(splits, AxisOf(nav), r, nav);
    var second := NearestResizeSplit(splits, AxisOf(nav), r, Opposite(nav));
    if IsInterior(r, area, nav) {
      InteriorEdgeIsFound(node, area, focus, k, nav);
    } else {
      RimFindsOtherSideOrNothing(node, area, focus, k, nav);
      if first.Some? {
        OwnedEdgeIsInterior(node, area, focus, k, Opposite(nav), first.value);
      }
      if IsInterior(r, area, Opposite(nav)) {
        InteriorEdgeIsFound(node, area, focus, k, Opposite(nav));
      } else {
        RimFindsOtherSideOrNothing(node, area, focus, k, Opposite(nav));
        if second.Some? {
          OwnedEdgeIsInterior(node, area, focus, k, nav, second.value);
        }
      }
    }
  }

  // --- What moving a divider changes ---

  /** Border paths address their splits. */
  lemma {:induction false} BorderPath(node: Node, area: Rect, path: seq<bool>, s: SplitBorder)
    requires s in Splits(node, area, path)
    ensures path <= s.path && GetRatioAt(node, s.path[|path|..]) == Some(s.ratio)
    decreases node
  {
    var (a, b) := SplitRect(area, node.direction, node.ratio);
    if s == BorderOf(node, area, path) {
      assert s.path[|path|..] == [];
    } else if s in Splits(node.first, a, path + [false]) {
      BorderPath(node.first, a, path + [false], s);
      assert s.path[|path|..][1..] == s.path[|path| + 1..];
      assert s.path[|path|] == (path + [false])[|path|];
    } else {
      BorderPath(node.second, b, path + [true], s);
      assert s.path[|path|..][1..] == s.path[|path| + 1..];
      assert s.path[|path|] == (path + [true])[|path|];
    }
  }

  /** A new ratio touches neither the ids nor their order. */
  lemma {:induction false} SetRatioKeepsIds(node: Node, path: seq<bool>, ratio: real)
    ensures Ids(SetRatioAt(node, path, ratio).0) == Ids(node)
    ensures UnitRatios(node) && 0.0 <= ratio <= 1.0 ==> UnitRatios(SetRatioAt(node, path, ratio).0)
    decreases node
  {
    if node.Split? && path != [] {
      SetRatioKeepsIds(if path[0] then node.second else node.first, path[1..], ratio);
    }
  }

  /** Neither does a resize, whatever the tree, the area, the pane and the delta. */
  lemma ResizedKeepsIds(node: Node, focus: PaneId, nav: NavDirection, delta: real, area: Rect)
    ensures Ids(Resized(node, focus, nav, delta, area)) == Ids(node)
  {
    hide Ids, SetRatioAt, Panes, Splits, FocusedRect, ResizeTarget, GetRatioAt;
    var focused := FocusedRect(Panes(node, area, focus));
    if focused.Some? {
      var target := ResizeTarget(node, area, focused.value, nav);
      if target.Some? {
        var current := GetRatioAt(node, target.value.path);
        var ratio := (if current.Some? then current.value else 0.5) + (if Forward(nav) then delta else 0.0 - delta);
        SetRatioKeepsIds(node, target.value.path, Clamp(ratio));
      }
    }
  }

  predicate UnmovedOrInside(was: Rect, now: Rect, area: Rect) {
    now == was || (Inside(was, area) && Inside(now, area))
  }

  /** Writing a ratio below the root keeps the split itself and the other part. */
  lemma DeeperWrite(node: Node, rel: seq<bool>, moved: real)
    requires node.Split? && rel != []
    ensures SetRatioAt(node, rel, moved).0
            == if rel[0] then node.(second := SetRatioAt(node.second, rel[1..], moved).0)
               else node.(first := SetRatioAt(node.first, rel[1..], moved).0)
  {
  }

  /** An edit in one part leaves the panes of the other part alone. */
  lemma PartEdited(node: Node, area: Rect, focus: PaneId, rel: seq<bool>, ratio: real, i: nat, within: Rect,
                   part: Node, partArea: Rect, edited: Node)
    requires node.Split? && rel != [] && i < CountPanes(node)
    requires CountPanes(SetRatioAt(node, rel, ratio).0) == CountPanes(node)
    requires part == if rel[0] then node.second else node.first
    requires var parts := SplitRect(area, node.direction, node.ratio);
             partArea == if rel[0] then parts.1 else parts.0
    requires edited == SetRatioAt(part, rel[1..], ratio).0 && CountPanes(edited) == CountPanes(part)
    requires forall j :: 0 <= j < CountPanes(part) ==>
               UnmovedOrInside(Panes(part, partArea, focus)[j].rect, Panes(edited, partArea, focus)[j].rect, within)
    ensures var after := SetRatioAt(node, rel, ratio).0;
            UnmovedOrInside(Panes(node, area, focus)[i].rect, Panes(after, area, focus)[i].rect, within)
  {
    hide Panes, SplitRect, SetRatioAt;
    var after := SetRatioAt(node, rel, ratio).0;
    DeeperWrite(node, rel, ratio);
    PaneOfPart(node, area, focus, i);
    PaneOfPart(after, area, focus, i);
    assert CountPanes(after.first) == CountPanes(node.first);
  }

  /** Panes outside the split's area keep their rectangle; panes inside stay inside. */
  lemma {:induction false} SetRatioIsLocal(node: Node, area: Rect, focus: PaneId, path: seq<bool>, s: SplitBorder,
                                           ratio: real, i: nat)
    requires UnitRatios(node) && FitsU16(area) && s in Splits(node, area, path) && 0.0 <= ratio <= 1.0
    requires path <= s.path && i < CountPanes(node)
    ensures var after := SetRatioAt(node, s.path[|path|..], ratio).0;
            && CountPanes(after) == CountPanes(node)
            && UnmovedOrInside(Panes(node, area, focus)[i].rect, Panes(after, area, focus)[i].rect, s.area)
    decreases node
  {
    var (a, b) := SplitRect(area, node.direction, node.ratio);
    var rel := s.path[|path|..];
    var after := SetRatioAt(node, rel, ratio).0;
    SetRatioKeepsIds(node, rel, ratio);
    assert CountPanes(after) == |Ids(after)| == CountPanes(node);
    SplitRectExact(area, node.direction, node.ratio);
    if s == BorderOf(node, area, path) {
      assert rel == [];
      PanesInside(node, area, focus, i);
      PanesInside(after, area, focus, i);
    } else {
      var second := s !in Splits(node.first, a, path + [false]);
      var part, partArea := if second then node.second else node.first, if second then b else a;
      var deeper := path + [second];
      assert s in Splits(part, partArea, deeper);
      BorderPath(part, partArea, deeper, s);
      assert rel[1..] == s.path[|deeper|..] && rel[0] == deeper[|path|];
      hide Panes, Ids, SplitRect, UnmovedOrInside, Splits, BorderOf, SetRatioAt;
      forall j | 0 <= j < CountPanes(part)
        ensures UnmovedOrInside(Panes(part, partArea, focus)[j].rect,
                                Panes(SetRatioAt(part, rel[1..], ratio).0, partArea, focus)[j].rect, s.area)
      {
        SetRatioIsLocal(part, partArea, focus, deeper, s, ratio, j);
      }
      SetRatioIsLocal(part, partArea, focus, deeper, s, ratio, 0);
      PartEdited(node, area, focus, rel, ratio, i, s.area, part, partArea, SetRatioAt(part, rel[1..], ratio).0);
    }
  }

  lemma {:induction false} SetThenGet(node: Node, path: seq<bool>, ratio: real)
    ensures var (after, found) := SetRatioAt(node, path, ratio);
            && found == GetRatioAt(node, path).Some?
            && (if found then GetRatioAt(after, path) == Some(ratio) else after == node)
    decreases node
  {
    if node.Split? && path != [] {
      SetThenGet(if path[0] then node.second else node.first, path[1..], ratio);
    }
  }

  lemma {:induction false} OtherRatiosStay(node: Node, path: seq<bool>, ratio: real, other: seq<bool>)
    requires other != path
    ensures GetRatioAt(SetRatioAt(node, path, ratio).0, other) == GetRatioAt(node, other)
    decreases node
  {
    if node.Split? && path != [] && other != [] && path[0] == other[0] {
      assert path == [path[0]] + path[1..] && other == [other[0]] + other[1..];
      OtherRatiosStay(if path[0] then node.second else node.first, path[1..], ratio, other[1..]);
    }
  }

  lemma {:induction false} FocusedRectFound(panes: seq<PaneInfo>, k: nat)
    requires k < |panes| && panes[k].isFocused && forall i :: 0 <= i < |panes| && i != k ==> !panes[i].isFocused
    ensures FocusedRect(panes) == Some(panes[k].rect)
  {
    if k > 0 {
      FocusedRectFound(panes[1..], k - 1);
    }
  }

  lemma FocusIsAt(node: Node, area: Rect, k: nat)
    requires UniqueIds(node) && k < CountPanes(node)
    ensures FocusedRect(Panes(node, area, Ids(node)[k])) == Some(Panes(node, area, Ids(node)[k])[k].rect)
  {
    var focus := Ids(node)[k];
    forall i | 0 <= i < CountPanes(node)
      ensures Panes(node, area, focus)[i].isFocused <==> i == k
    {
      PanesInOrder(node, area, focus, [], i);
    }
    FocusedRectFound(Panes(node, area, focus), k);
  }

  /** Towards an interior edge the resize writes the ratio of the one split that owns it. */
  lemma InteriorResize(node: Node, area: Rect, k: nat, nav: NavDirection, delta: real) returns (s: SplitBorder)
    requires Regular(node, area) && UniqueIds(node) && k < CountPanes(node)
    requires IsInterior(Panes(node, area, Ids(node)[k])[k].rect, area, nav)
    ensures var focus := Ids(node)[k];
            var r := Panes(node, area, focus)[k].rect;
            && s in Splits(node, area, []) && OwnsEdge(s, r, nav)
            && (forall t :: t in Splits(node, area, []) && OwnsEdge(t, r, nav) ==> t == s)
            && Resized(node, focus, nav, delta, area)
               == SetRatioAt(node, s.path, Clamp(s.ratio + (if Forward(nav) then delta else 0.0 - delta))).0
  {
    hide UniqueIds, Regular, IsInterior, Splits, Panes, SetRatioAt, OwnsEdge, Clamp, NearestResizeSplit, FocusedRect;
    var focus := Ids(node)[k];
    FocusIsAt(node, area, k);
    InteriorEdgeIsFound(node, area, focus, k, nav);
    s := NearestResizeSplit(Splits(node, area, []), AxisOf(nav), Panes(node, area, focus)[k].rect, nav).value;
    BorderPath(node, area, [], s);
    assert s.path[0..] == s.path;
  }

  /** Resizing towards an interior edge rewrites exactly one ratio, the one of the split
      whose divider is that edge, clamped to 0.1..0.9; panes outside that split's area do
      not move, and neither ids nor order change. */
  lemma ResizeMovesTheEdge(node: Node, area: Rect, k: nat, nav: NavDirection, delta: real)
    requires Regular(node, area) && UniqueIds(node) && k < CountPanes(node)
    requires IsInterior(Panes(node, area, Ids(node)[k])[k].rect, area, nav)
    ensures var focus := Ids(node)[k];
            var after := Resized(node, focus, nav, delta, area);
            var r := Panes(node, area, focus)[k].rect;
            exists s :: && s in Splits(node, area, []) && OwnsEdge(s, r, nav)
                        && (forall t :: t in Splits(node, area, []) && OwnsEdge(t, r, nav) ==> t == s)
                        && GetRatioAt(after, s.path)
                           == Some(Clamp(s.ratio + (if Forward(nav) then delta else 0.0 - delta)))
                        && (forall p :: p != s.path ==> GetRatioAt(after, p) == GetRatioAt(node, p))
                        && Ids(after) == Ids(node) && UnitRatios(after)
                        && (forall i :: 0 <= i < CountPanes(node)
                                        && !Inside(Panes(node, area, focus)[i].rect, s.area) ==>
                              Panes(after, area, focus)[i] == Panes(node, area, focus)[i])
  {
    hide UniqueIds, IsInterior, Splits, Panes, SetRatioAt, OwnsEdge, Clamp, GetRatioAt, Inside, Resized;
    var s := InteriorResize(node, area, k, nav, delta);
    MovedSplit(node, area, Ids(node)[k], s, Clamp(s.ratio + (if Forward(nav) then delta else 0.0 - delta)));
  }

  /** The effect of giving one border a new ratio. */
  lemma MovedSplit(node: Node, area: Rect, focus: PaneId, s: SplitBorder, ratio: real)
    requires UnitRatios(node) && FitsU16(area) && s in Splits(node, area, []) && 0.0 <= ratio <= 1.0
    ensures var after := SetRatioAt(node, s.path, ratio).0;
            && GetRatioAt(after, s.path) == Some(ratio)
            && (forall p :: p != s.path ==> GetRatioAt(after, p) == GetRatioAt(node, p))
            && Ids(after) == Ids(node) && UnitRatios(after)
            && (forall i :: 0 <= i < CountPanes(node) && !Inside(Panes(node, area, focus)[i].rect, s.area) ==>
                  Panes(after, area, focus)[i] == Panes(node, area, focus)[i])
  {
    BorderPath(node, area, [], s);
    assert s.path[0..] == s.path;
    var after := SetRatioAt(node, s.path, ratio).0;
    SetThenGet(node, s.path, ratio);
    SetRatioKeepsIds(node, s.path, ratio);
    forall p | p != s.path
      ensures GetRatioAt(after, p) == GetRatioAt(node, p)
    {
      OtherRatiosStay(node, s.path, ratio, p);
    }
    forall i | 0 <= i < CountPanes(node) && !Inside(Panes(node, area, focus)[i].rect, s.area)
      ensures Panes(after, area, focus)[i] == Panes(node, area, focus)[i]
    {
      SetRatioIsLocal(node, area, focus, [], s, ratio, i);
      PanesInOrder(node, area, focus, [], i);
      PanesInOrder(after, area, focus, [], i);
    }
  }
}
