/** The BSP layout of `layout.rs`: the tree, its edits and the rectangles it yields. Ratios
    are reals; rounding is to the nearest cell, halves away from zero. */
module Layout {
  import opened Wrappers

  type PaneId = int

  /** The id under which a tree stands while it is taken apart. */
  const PLACEHOLDER: PaneId := 0

  datatype Direction = Horizontal | Vertical

  datatype NavDirection = Left | Right | Up | Down

  datatype Rect = Rect(x: nat, y: nat, width: nat, height: nat)

  datatype Node =
    | Pane(id: PaneId)
    | Split(direction: Direction, ratio: real, first: Node, second: Node)

  datatype PaneInfo = PaneInfo(id: PaneId, rect: Rect, isFocused: bool)

  datatype SplitBorder = SplitBorder(pos: nat, direction: Direction, ratio: real, area: Rect, path: seq<bool>)

  const U16_MAX: nat := 0xFFFF

  // --- Extents along and across an axis ---

  function Other(d: Direction): Direction {
    if d == Horizontal then Vertical else Horizontal
  }

  function Lo(r: Rect, d: Direction): nat {
    if d == Horizontal then r.x else r.y
  }

  function Len(r: Rect, d: Direction): nat {
    if d == Horizontal then r.width else r.height
  }

  function Hi(r: Rect, d: Direction): nat {
    Lo(r, d) + Len(r, d)
  }

  function AxisOf(nav: NavDirection): Direction {
    if nav == Left || nav == Right then Horizontal else Vertical
  }

  predicate Forward(nav: NavDirection) {
    nav == Right || nav == Down
  }

  function Opposite(nav: NavDirection): NavDirection {
    match nav
    case Left => Right
    case Right => Left
    case Up => Down
    case Down => Up
  }

  /** The focused pane's edge in the requested direction. */
  function Edge(r: Rect, nav: NavDirection): nat {
    if Forward(nav) then Hi(r, AxisOf(nav)) else Lo(r, AxisOf(nav))
  }

  // --- split_rect ---

  function Scaled(len: nat, ratio: real): real {
    len as real * ratio
  }

  /** `(len as f32 * ratio).round() as u16`, where the cast saturates. */
  function FirstLen(len: nat, ratio: real): nat {
    var scaled := Scaled(len, ratio);
    if scaled < 0.0 then 0
    else
      var rounded := (scaled + 0.5).Floor;
      if rounded > U16_MAX then U16_MAX else rounded
  }

  function SplitRect(area: Rect, direction: Direction, ratio: real): (Rect, Rect) {
    var len := FirstLen(Len(area, direction), ratio);
    var rest := if Len(area, direction) > len then Len(area, direction) - len else 0;
    match direction
    case Horizontal => (area.(width := len), area.(x := area.x + len, width := rest))
    case Vertical => (area.(height := len), area.(y := area.y + len, height := rest))
  }

  // --- Walking the tree ---

  function CountPanes(node: Node): (n: nat)
    ensures n >= 1
  {
    match node
    case Pane(_) => 1
    case Split(_, _, first, second) => CountPanes(first) + CountPanes(second)
  }

  function Ids(node: Node): (ids: seq<PaneId>)
    ensures |ids| == CountPanes(node)
  {
    match node
    case Pane(id) => [id]
    case Split(_, _, first, second) => Ids(first) + Ids(second)
  }

  function Panes(node: Node, area: Rect, focus: PaneId): (infos: seq<PaneInfo>)
    ensures |infos| == CountPanes(node)
  {
    match node
    case Pane(id) => [PaneInfo(id, area, id == focus)]
    case Split(direction, ratio, first, second) =>
      var (a, b) := SplitRect(area, direction, ratio);
      Panes(first, a, focus) + Panes(second, b, focus)
  }

  function BorderOf(node: Node, area: Rect, path: seq<bool>): SplitBorder
    requires node.Split?
  {
    var a := SplitRect(area, node.direction, node.ratio).0;
    SplitBorder(Hi(a, node.direction), node.direction, node.ratio, area, path)
  }

  function Splits(node: Node, area: Rect, path: seq<bool>): seq<SplitBorder> {
    match node
    case Pane(_) => []
    case Split(direction, ratio, first, second) =>
      var (a, b) := SplitRect(area, direction, ratio);
      [BorderOf(node, area, path)] + Splits(first, a, path + [false]) + Splits(second, b, path + [true])
  }

  /** `split_ratios`: every split's path and ratio, in the order of the tree. */
  function SplitRatios(node: Node, path: seq<bool>): seq<(seq<bool>, real)> {
    match node
    case Pane(_) => []
    case Split(_, ratio, first, second) =>
      [(path, ratio)] + SplitRatios(first, path + [false]) + SplitRatios(second, path + [true])
  }

  // --- Editing the tree ---

  function SwapIds(node: Node, a: PaneId, b: PaneId): Node {
    match node
    case Pane(id) => if id == a then Pane(b) else if id == b then Pane(a) else node
    case Split(direction, ratio, first, second) =>
      Split(direction, ratio, SwapIds(first, a, b), SwapIds(second, a, b))
  }

  function SplitAt(node: Node, target: PaneId, direction: Direction, newId: PaneId, ratio: real): Node {
    match node
    case Pane(id) => if id == target then Split(direction, ratio, Pane(id), Pane(newId)) else node
    case Split(d, r, first, second) =>
      Split(d, r, SplitAt(first, target, direction, newId, ratio), SplitAt(second, target, direction, newId, ratio))
  }

  function RemovePane(node: Node, target: PaneId): Option<Node> {
    match node
    case Pane(id) => if id == target then None else Some(node)
    case Split(direction, ratio, first, second) =>
      match (RemovePane(first, target), RemovePane(second, target))
      case (None, Some(s)) => Some(s)
      case (Some(f), None) => Some(f)
      case (Some(f), Some(s)) => Some(Split(direction, ratio, f, s))
      case (None, None) => None
  }

  /** The edited tree and whether the path leads to a split. */
  function SetRatioAt(node: Node, path: seq<bool>, ratio: real): (Node, bool)
    decreases node
  {
    if node.Pane? then (node, false)
    else if path == [] then (node.(ratio := ratio), true)
    else if path[0] then
      var (second, found) := SetRatioAt(node.second, path[1..], ratio);
      (node.(second := second), found)
    else
      var (first, found) := SetRatioAt(node.first, path[1..], ratio);
      (node.(first := first), found)
  }

  function GetRatioAt(node: Node, path: seq<bool>): Option<real>
    decreases node
  {
    if node.Pane? then None
    else if path == [] then Some(node.ratio)
    else if path[0] then GetRatioAt(node.second, path[1..])
    else GetRatioAt(node.first, path[1..])
  }

  /** Ratios in range are kept, others move to the near end of the range. */
  function Clamp(ratio: real): (r: real)
    ensures 0.1 <= r <= 0.9
    ensures 0.1 <= ratio <= 0.9 ==> r == ratio
    ensures r > ratio ==> r == 0.1
    ensures r < ratio ==> r == 0.9
  {
    if ratio < 0.1 then 0.1 else if ratio > 0.9 then 0.9 else ratio
  }

  /** `valid_split_ratio`; `None` stands for a ratio that is not finite. */
  function ValidRatio(ratio: Option<real>): (r: real)
    ensures 0.1 <= r <= 0.9
    ensures ratio.None? ==> r == 0.5
    ensures ratio.Some? ==> r == Clamp(ratio.value)
  {
    match ratio
    case Some(value) => Clamp(value)
    case None => 0.5
  }

  // --- Resizing ---

  predicate RangesOverlap(aStart: nat, aLen: nat, bStart: nat, bLen: nat) {
    aStart < bStart + bLen && aStart + aLen > bStart
  }

  function Distance(a: int, b: int): nat {
    if a > b then a - b else b - a
  }

  /** The filter of `nearest_resize_split`. */
  predicate IsResizeCandidate(s: SplitBorder, dir: Direction, focused: Rect, nav: NavDirection) {
    var across := Other(AxisOf(nav));
    && s.direction == dir
    && RangesOverlap(Lo(s.area, across), Len(s.area, across), Lo(focused, across), Len(focused, across))
    && Distance(s.pos, Edge(focused, nav)) <= 1
  }

  /** The first candidate at the least distance from the edge. */
  function NearestResizeSplit(splits: seq<SplitBorder>, dir: Direction, focused: Rect, nav: NavDirection):
    Option<SplitBorder>
  {
    if splits == [] then None
    else
      var best := NearestResizeSplit(splits[..|splits| - 1], dir, focused, nav);
      var s := splits[|splits| - 1];
      if !IsResizeCandidate(s, dir, focused, nav) then best
      else if best.Some? && Distance(best.value.pos, Edge(focused, nav)) <= Distance(s.pos, Edge(focused, nav))
      then best
      else Some(s)
  }

  /** The split `resize_focused` moves: one at the requested edge, else one at the other. */
  function ResizeTarget(root: Node, area: Rect, focused: Rect, nav: NavDirection): Option<SplitBorder> {
    var splits := Splits(root, area, []);
    var best := NearestResizeSplit(splits, AxisOf(nav), focused, nav);
    if best.Some? then best
    else NearestResizeSplit(splits, AxisOf(nav), focused, Opposite(nav))
  }

  function FocusedRect(panes: seq<PaneInfo>): Option<Rect> {
    if panes == [] then None
    else if panes[0].isFocused then Some(panes[0].rect)
    else FocusedRect(panes[1..])
  }

  /** The tree after `resize_focused`. */
  function Resized(root: Node, focus: PaneId, nav: NavDirection, delta: real, area: Rect): Node {
    var focused := FocusedRect(Panes(root, area, focus));
    if focused.None? then root
    else
      var target := ResizeTarget(root, area, focused.value, nav);
      if target.None? then root
      else
        var current := GetRatioAt(root, target.value.path);
        var ratio := (if current.Some? then current.value else 0.5) + (if Forward(nav) then delta else 0.0 - delta);
        SetRatioAt(root, target.value.path, Clamp(ratio)).0
  }

  // --- Pane ids ---

  predicate Distinct(ids: seq<PaneId>) {
    forall i, j :: 0 <= i < j < |ids| ==> ids[i] != ids[j]
  }

  predicate UniqueIds(node: Node) {
    Distinct(Ids(node))
  }

  function IndexOf(ids: seq<PaneId>, id: PaneId): (i: nat)
    requires id in ids
    ensures i < |ids| && ids[i] == id && id !in ids[..i]
  {
    if ids[0] == id then 0 else 1 + IndexOf(ids[1..], id)
  }

  /** Where the focus goes when `target` closes: its successor, else its predecessor. */
  function NextFocus(ids: seq<PaneId>, target: PaneId): PaneId
    requires target in ids && |ids| >= 2
  {
    var pos := IndexOf(ids, target);
    if pos + 1 < |ids| then ids[pos + 1] else ids[pos - 1]
  }

  /** `collect_ids`, pushing onto the given vector. */
  method CollectIds(node: Node, ids: seq<PaneId>) returns (out: seq<PaneId>)
    ensures out == ids + Ids(node)
  {
    match node
    case Pane(id) => out := ids + [id];
    case Split(_, _, first, second) =>
      out := CollectIds(first, ids);
      out := CollectIds(second, out);
  }

  /** `collect_panes`, pushing onto the given vector. */
  method CollectPanes(node: Node, area: Rect, focus: PaneId, infos: seq<PaneInfo>) returns (out: seq<PaneInfo>)
    ensures out == infos + Panes(node, area, focus)
  {
    match node
    case Pane(id) => out := infos + [PaneInfo(id, area, id == focus)];
    case Split(direction, ratio, first, second) =>
      var (a, b) := SplitRect(area, direction, ratio);
      out := CollectPanes(first, a, focus, infos);
      out := CollectPanes(second, b, focus, out);
  }

  /** `collect_splits`, pushing onto the given vector. */
  method CollectSplits(node: Node, area: Rect, path: seq<bool>, borders: seq<SplitBorder>)
    returns (out: seq<SplitBorder>)
    ensures out == borders + Splits(node, area, path)
  {
    match node
    case Pane(_) => out := borders;
    case Split(direction, ratio, first, second) =>
      var (a, b) := SplitRect(area, direction, ratio);
      out := borders + [BorderOf(node, area, path)];
      out := CollectSplits(first, a, path + [false], out);
      out := CollectSplits(second, b, path + [true], out);
  }
}
