/** The tree by its paths: what stands where, which rectangle it has, which panes it holds. */
module LayoutPaths {
  import opened Wrappers
  import opened Layout
  import opened LayoutGeometry

  predicate HasPath(node: Node, path: seq<bool>)
    decreases |path|
  {
    path == [] || (node.Split? && HasPath(if path[0] then node.second else node.first, path[1..]))
  }

  /** The subtree that a path leads to. */
  function PartAt(node: Node, path: seq<bool>): Node
    requires HasPath(node, path)
    decreases |path|
  {
    if path == [] then node else PartAt(if path[0] then node.second else node.first, path[1..])
  }

  /** Its rectangle. */
  function RectAt(node: Node, area: Rect, path: seq<bool>): Rect
    requires HasPath(node, path)
    decreases |path|
  {
    if path == [] then area
    else
      var (a, b) := SplitRect(area, node.direction, node.ratio);
      RectAt(if path[0] then node.second else node.first, if path[0] then b else a, path[1..])
  }

  /** How many panes come before it. */
  function PanesBefore(node: Node, path: seq<bool>): nat
    requires HasPath(node, path)
    decreases |path|
  {
    if path == [] then 0
    else if path[0] then CountPanes(node.first) + PanesBefore(node.second, path[1..])
    else PanesBefore(node.first, path[1..])
  }

  /** The tree with `part` put where the path leads. */
  function Replaced(node: Node, path: seq<bool>, part: Node): Node
    requires HasPath(node, path)
    decreases |path|
  {
    if path == [] then part
    else if path[0] then node.(second := Replaced(node.second, path[1..], part))
    else node.(first := Replaced(node.first, path[1..], part))
  }

  lemma {:induction false} PathSnoc(node: Node, area: Rect, path: seq<bool>, second: bool)
    requires HasPath(node, path) && PartAt(node, path).Split?
    ensures HasPath(node, path + [second])
    ensures var part := PartAt(node, path);
            var (a, b) := SplitRect(RectAt(node, area, path), part.direction, part.ratio);
            && PartAt(node, path + [second]) == (if second then part.second else part.first)
            && RectAt(node, area, path + [second]) == (if second then b else a)
            && PanesBefore(node, path + [second])
               == PanesBefore(node, path) + if second then CountPanes(part.first) else 0
    decreases |path|
  {
    var longer := path + [second];
    if path == [] {
      assert longer == [second] && longer[1..] == [];
    } else {
      assert longer[1..] == path[1..] + [second] && longer[0] == path[0];
      var (a, b) := SplitRect(area, node.direction, node.ratio);
      hide SplitRect;
      PathSnoc(if path[0] then node.second else node.first, if path[0] then b else a, path[1..], second);
    }
  }

  /** The panes of a part are panes of the tree, at the same place in the order. */
  lemma {:induction false} PartPanes(node: Node, area: Rect, focus: PaneId, path: seq<bool>, j: nat)
    requires HasPath(node, path) && j < CountPanes(PartAt(node, path))
    ensures PanesBefore(node, path) + j < CountPanes(node)
    ensures Panes(node, area, focus)[PanesBefore(node, path) + j]
            == Panes(PartAt(node, path), RectAt(node, area, path), focus)[j]
    ensures Ids(node)[PanesBefore(node, path) + j] == Ids(PartAt(node, path))[j]
    decreases |path|
  {
    hide SplitRect, Panes, Ids;
    if path == [] {
    } else {
      var (a, b) := SplitRect(area, node.direction, node.ratio);
      PartPanes(if path[0] then node.second else node.first, if path[0] then b else a, focus, path[1..], j);
      PaneOfPart(node, area, focus, PanesBefore(node, path) + j);
      IdOfPart(node, PanesBefore(node, path) + j);
    }
  }

  lemma IdOfPart(node: Node, i: nat)
    requires node.Split? && i < CountPanes(node)
    ensures var n := CountPanes(node.first);
            Ids(node)[i] == if i < n then Ids(node.first)[i] else Ids(node.second)[i - n]
  {
  }

  lemma {:induction false} PartRegular(node: Node, area: Rect, path: seq<bool>)
    requires HasPath(node, path) && UnitRatios(node) && FitsU16(area)
    ensures UnitRatios(PartAt(node, path)) && FitsU16(RectAt(node, area, path))
    ensures NoEmptyPane(node, area) ==> NoEmptyPane(PartAt(node, path), RectAt(node, area, path))
    ensures Inside(RectAt(node, area, path), area)
    decreases |path|
  {
    if path != [] {
      var (a, b) := SplitRect(area, node.direction, node.ratio);
      SplitRectExact(area, node.direction, node.ratio);
      PartRegular(if path[0] then node.second else node.first, if path[0] then b else a, path[1..]);
      InsideTrans(RectAt(node, area, path), if path[0] then b else a, area);
    }
  }

  /** A border is the divider of the split that its path leads to. */
  lemma {:induction false} BorderAt(node: Node, area: Rect, path: seq<bool>, s: SplitBorder)
    requires s in Splits(node, area, path)
    ensures path <= s.path
    ensures var rel := s.path[|path|..];
            && HasPath(node, rel) && PartAt(node, rel).Split?
            && s == BorderOf(PartAt(node, rel), RectAt(node, area, rel), s.path)
    decreases node
  {
    var (a, b) := SplitRect(area, node.direction, node.ratio);
    if s == BorderOf(node, area, path) {
      assert s.path[|path|..] == [];
    } else {
      var second := s !in Splits(node.first, a, path + [false]);
      hide SplitRect;
      BorderAt(if second then node.second else node.first, if second then b else a, path + [second], s);
      assert path == (path + [second])[..|path|] == s.path[..|path|];
      var rel := s.path[|path|..];
      assert rel[0] == s.path[|path|] == (path + [second])[|path|];
      assert rel[1..] == s.path[|path + [second]|..];
    }
  }

  /** The same from the root. */
  lemma RootBorder(node: Node, area: Rect, s: SplitBorder)
    requires s in Splits(node, area, [])
    ensures HasPath(node, s.path) && PartAt(node, s.path).Split?
    ensures s == BorderOf(PartAt(node, s.path), RectAt(node, area, s.path), s.path)
  {
    BorderAt(node, area, [], s);
    assert s.path[0..] == s.path;
  }

  lemma RootHasBorder(node: Node, area: Rect, path: seq<bool>)
    requires HasPath(node, path) && PartAt(node, path).Split?
    ensures BorderOf(PartAt(node, path), RectAt(node, area, path), path) in Splits(node, area, [])
  {
    SplitHasBorder(node, area, [], path);
    assert [] + path == path;
  }

  /** And every split has its border. */
  lemma {:induction false} SplitHasBorder(node: Node, area: Rect, path: seq<bool>, rel: seq<bool>)
    requires HasPath(node, rel) && PartAt(node, rel).Split?
    ensures BorderOf(PartAt(node, rel), RectAt(node, area, rel), path + rel) in Splits(node, area, path)
    decreases |rel|
  {
    if rel == [] {
      assert path + rel == path;
    } else {
      var (a, b) := SplitRect(area, node.direction, node.ratio);
      assert path + rel == path + [rel[0]] + rel[1..];
      hide SplitRect, BorderOf;
      SplitHasBorder(if rel[0] then node.second else node.first, if rel[0] then b else a, path + [rel[0]], rel[1..]);
    }
  }

  // --- Putting something else there ---

  lemma {:induction false} ReplacedAt(node: Node, area: Rect, path: seq<bool>, part: Node)
    requires HasPath(node, path)
    ensures var after := Replaced(node, path, part);
            && HasPath(after, path) && PartAt(after, path) == part
            && RectAt(after, area, path) == RectAt(node, area, path)
            && PanesBefore(after, path) == PanesBefore(node, path)
    decreases |path|
  {
    if path != [] {
      var (a, b) := SplitRect(area, node.direction, node.ratio);
      hide SplitRect;
      ReplacedAt(if path[0] then node.second else node.first, if path[0] then b else a, path[1..], part);
    }
  }

  /** Panes in front of the part and behind it stay as they are. */
  lemma {:induction false} OtherPanesStay(node: Node, area: Rect, focus: PaneId, path: seq<bool>, part: Node, i: nat)
    requires HasPath(node, path)
    requires i < CountPanes(node)
    requires i < PanesBefore(node, path) || i >= PanesBefore(node, path) + CountPanes(PartAt(node, path))
    ensures var after := Replaced(node, path, part);
            var j := if i < PanesBefore(node, path) then i else i + CountPanes(part) - CountPanes(PartAt(node, path));
            && CountPanes(after) == CountPanes(node) + CountPanes(part) - CountPanes(PartAt(node, path))
            && 0 <= j < CountPanes(after) && Panes(after, area, focus)[j] == Panes(node, area, focus)[i]
    decreases |path|
  {
    hide SplitRect, Panes;
    if path != [] {
      var (a, b) := SplitRect(area, node.direction, node.ratio);
      var n := CountPanes(node.first);
      var after := Replaced(node, path, part);
      ReplacedCount(node, path, part);
      ReplacedCount(if path[0] then node.second else node.first, path[1..], part);
      var j := if i < PanesBefore(node, path) then i else i + CountPanes(part) - CountPanes(PartAt(node, path));
      hide Replaced, PanesBefore, PartAt, HasPath;
      if path[0] && i >= n {
        OtherPanesStay(node.second, b, focus, path[1..], part, i - n);
      } else if !path[0] && i < n {
        OtherPanesStay(node.first, a, focus, path[1..], part, i);
      }
      PaneOfPart(node, area, focus, i);
      PaneOfPart(after, area, focus, j);
    }
  }

  lemma {:induction false} ReplacedCount(node: Node, path: seq<bool>, part: Node)
    requires HasPath(node, path)
    ensures CountPanes(Replaced(node, path, part))
            == CountPanes(node) + CountPanes(part) - CountPanes(PartAt(node, path))
    ensures PanesBefore(node, path) + CountPanes(PartAt(node, path)) <= CountPanes(node)
    decreases |path|
  {
    if path != [] {
      ReplacedCount(if path[0] then node.second else node.first, path[1..], part);
    }
  }

  /** A new ratio replaces the split by the one with that ratio. */
  lemma {:induction false} SetRatioReplaces(node: Node, path: seq<bool>, ratio: real)
    requires HasPath(node, path) && PartAt(node, path).Split?
    ensures SetRatioAt(node, path, ratio).0 == Replaced(node, path, PartAt(node, path).(ratio := ratio))
    decreases |path|
  {
    if path != [] {
      SetRatioReplaces(if path[0] then node.second else node.first, path[1..], ratio);
    }
  }
}
