/** The layout object of `layout.rs`. Every operation takes a layout with unique pane ids
    and the focus in the tree to such a layout. */
module TileLayouts {
  import opened Wrappers
  import opened Layout
  import opened LayoutTree
  import opened LayoutResize
  import opened LayoutEdits

  /** Unique pane ids, one of them focused. */
  predicate WellFormed(root: Node, focus: PaneId) {
    UniqueIds(root) && focus in Ids(root)
  }

  lemma SplitKeepsWellFormed(root: Node, target: PaneId, d: Direction, newId: PaneId, ratio: real)
    requires UniqueIds(root) && target in Ids(root) && newId !in Ids(root)
    ensures WellFormed(SplitAt(root, target, d, newId, ratio), newId)
  {
    hide SplitAt, Ids, UniqueIds;
    var k :| 0 <= k < |Ids(root)| && Ids(root)[k] == target;
    InsertKeepsUnique(root, k, d, newId, ratio);
  }

  lemma CloseStaysWellFormed(root: Node, focus: PaneId)
    requires WellFormed(root, focus) && CountPanes(root) > 1
    ensures RemovePane(root, focus).Some?
    ensures WellFormed(RemovePane(root, focus).value, NextFocus(Ids(root), focus))
  {
    hide RemovePane, Ids, UniqueIds, NextFocus;
    var k :| 0 <= k < |Ids(root)| && Ids(root)[k] == focus;
    CloseKeepsWellFormed(root, k);
  }

  class TileLayout {
    var root: Node
    var focus: PaneId

    ghost predicate Valid()
      reads this
    {
      WellFormed(root, focus)
    }

    constructor (rootId: PaneId)
      ensures root == Pane(rootId) && focus == rootId && Valid()
    {
      root := Pane(rootId);
      focus := rootId;
    }

    constructor FromSaved(root: Node, focus: PaneId)
      ensures this.root == root && this.focus == focus
      ensures Valid() <==> WellFormed(root, focus)
    {
      this.root := root;
      this.focus := focus;
    }

    method PaneIds() returns (ids: seq<PaneId>)
      ensures ids == Ids(root)
    {
      ids := CollectIds(root, []);
    }

    /** Split the focused pane; `newId` is freshly allocated. */
    method SplitFocusedWithRatio(direction: Direction, ratio: Option<real>, newId: PaneId)
      modifies this
      ensures root == SplitAt(old(root), old(focus), direction, newId, ValidRatio(ratio))
      ensures focus == newId
      ensures old(Valid()) && newId !in Ids(old(root)) ==> Valid()
    {
      if Valid() && newId !in Ids(root) {
        SplitKeepsWellFormed(root, focus, direction, newId, ValidRatio(ratio));
      }
      root := SplitAt(root, focus, direction, newId, ValidRatio(ratio));
      focus := newId;
    }

    method InsertPaneNear(target: PaneId, moved: PaneId, direction: Direction, ratio: Option<real>)
      returns (inserted: bool)
      modifies this
      ensures inserted == (target != moved && target in Ids(old(root)) && moved !in Ids(old(root)))
      ensures inserted ==> root == SplitAt(old(root), target, direction, moved, ValidRatio(ratio)) && focus == moved
      ensures !inserted ==> root == old(root) && focus == old(focus)
      ensures old(Valid()) ==> Valid()
    {
      if target == moved {
        return false;
      }
      var ids := PaneIds();
      if target !in ids || moved in ids {
        return false;
      }
      if Valid() {
        SplitKeepsWellFormed(root, target, direction, moved, ValidRatio(ratio));
      }
      root := SplitAt(root, target, direction, moved, ValidRatio(ratio));
      focus := moved;
      inserted := true;
    }

    /** With several panes the source panics if the focus is not in the tree. */
    method CloseFocused() returns (closed: bool)
      requires CountPanes(root) > 1 ==> focus in Ids(root)
      modifies this
      ensures closed == (CountPanes(old(root)) > 1 && RemovePane(old(root), old(focus)).Some?)
      ensures closed ==> root == RemovePane(old(root), old(focus)).value
                         && focus == NextFocus(Ids(old(root)), old(focus))
      ensures !closed ==> focus == old(focus)
      ensures !closed ==> root == if CountPanes(old(root)) <= 1 then old(root) else Pane(PLACEHOLDER)
      ensures old(Valid()) ==> Valid() && closed == (CountPanes(old(root)) > 1)
    {
      if CountPanes(root) <= 1 {
        return false;
      }
      var ids := PaneIds();
      var target := focus;
      var pos := IndexOf(ids, target);
      var newFocus := if pos + 1 < |ids| then ids[pos + 1] else ids[pos - 1];
      if Valid() {
        CloseStaysWellFormed(root, focus);
      }
      var rest := RemovePane(root, target);
      if rest.Some? {
        root := rest.value;
        focus := newFocus;
        closed := true;
      } else {
        root := Pane(PLACEHOLDER);
        closed := false;
      }
    }

    method FocusPane(id: PaneId)
      modifies this`focus
      ensures focus == if id in Ids(root) then id else old(focus)
      ensures old(Valid()) ==> Valid()
    {
      var ids := PaneIds();
      if id in ids {
        focus := id;
      }
    }

    method SwapPanes(first: PaneId, second: PaneId) returns (swapped: bool)
      modifies this`root
      ensures swapped == (first != second && first in Ids(old(root)) && second in Ids(old(root)))
      ensures root == if swapped then SwapIds(old(root), first, second) else old(root)
      ensures old(Valid()) ==> Valid()
    {
      if first == second {
        return false;
      }
      var ids := PaneIds();
      if first !in ids || second !in ids {
        return false;
      }
      if Valid() {
        SwapKeepsUnique(root, first, second);
      }
      root := SwapIds(root, first, second);
      swapped := true;
    }

    method SetRatio(path: seq<bool>, ratio: real) returns (found: bool)
      modifies this`root
      ensures (root, found) == SetRatioAt(old(root), path, Clamp(ratio))
      ensures Ids(root) == Ids(old(root)) && (old(Valid()) ==> Valid())
    {
      SetRatioKeepsIds(root, path, Clamp(ratio));
      var (edited, ok) := SetRatioAt(root, path, Clamp(ratio));
      root := edited;
      found := ok;
    }

    method ResizeFocused(nav: NavDirection, delta: real, area: Rect)
      modifies this`root
      ensures root == Resized(old(root), focus, nav, delta, area)
      ensures Ids(root) == Ids(old(root)) && (old(Valid()) ==> Valid())
    {
      hide Panes, Splits, GetRatioAt, SetRatioAt, FocusedRect, Ids;
      var panes := CollectPanes(root, area, focus, []);
      assert panes == Panes(root, area, focus);
      var focused := FocusedRect(panes);
      if focused.None? {
        return;
      }
      var splits := CollectSplits(root, area, [], []);
      assert splits == Splits(root, area, []);
      var best := NearestResizeSplit(splits, AxisOf(nav), focused.value, nav);
      if best.None? {
        best := NearestResizeSplit(splits, AxisOf(nav), focused.value, Opposite(nav));
      }
      if best.Some? {
        var current := GetRatioAt(root, best.value.path);
        var adj := if Forward(nav) then delta else 0.0 - delta;
        var found := SetRatio(best.value.path, (if current.Some? then current.value else 0.5) + adj);
      }
    }

    /** Resize another pane without moving the focus; reports whether that changed the tree. */
    method ResizePane(id: PaneId, nav: NavDirection, delta: real, area: Rect) returns (changed: bool)
      modifies this
      ensures focus == old(focus)
      ensures root == if id in Ids(old(root)) then Resized(old(root), id, nav, delta, area) else old(root)
      ensures changed == (root != old(root))
      ensures Ids(root) == Ids(old(root)) && (old(Valid()) ==> Valid())
    {
      var ids := PaneIds();
      if id !in ids {
        return false;
      }
      var before := SplitRatios(root, []);
      var previous := focus;
      focus := id;
      ResizeFocused(nav, delta, area);
      focus := previous;
      ResizeShows(old(root), id, nav, delta, area);
      changed := SplitRatios(root, []) != before;
    }
  }

  /** Closing in a tree whose two panes share the focused id reports failure and leaves a
      single placeholder pane that is not the focused one. */
  method CloseDuplicateExample() returns (layout: TileLayout, closed: bool)
    ensures !closed && layout.root == Pane(PLACEHOLDER) && layout.focus == 7 != PLACEHOLDER
  {
    layout := new TileLayout.FromSaved(Split(Horizontal, 0.5, Pane(7), Pane(7)), 7);
    assert Ids(layout.root) == [7, 7];
    RemoveNoneIff(layout.root, 7);
    closed := layout.CloseFocused();
  }
}
