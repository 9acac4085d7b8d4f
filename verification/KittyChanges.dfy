/** What a changed placement leads to, and when placements of a frame are told apart. */
module KittyChanges {
  import opened Wrappers
  import opened Bytes
  import opened KittyTypes
  import opened KittyClip
  import opened KittyCache
  import opened KittyHost
  import opened KittySessions
  import opened KittyRefinement
  import opened KittyFrames

  // --- A display command for every change ---

  /** Whatever is cached now and was not cached like that in `base` was displayed. */
  predicate Told(base: Cache, w: Work) {
    forall k :: k in w.cache.placements
                && !(k in base.placements && base.placements[k] == w.cache.placements[k]) ==>
      Display(k.0, k.1, w.cache.placements[k].shown, w.cache.placements[k].z) in w.out
  }

  /** Caching less and sending more keeps that. */
  lemma LessIsTold(base: Cache, w: Work, after: Work)
    requires Told(base, w) && w.out <= after.out
    requires forall k :: k in after.cache.placements ==>
               k in w.cache.placements && w.cache.placements[k] == after.cache.placements[k]
    ensures Told(base, after)
  {
    assert forall c :: c in w.out ==> c in after.out;
  }

  lemma {:induction false} DropsAreTold(base: Cache, w: Work, ids: seq<Id>)
    requires Told(base, w)
    ensures Told(base, DropAll(w, ids))
    decreases |ids|
  {
    if ids != [] {
      var before := DropAll(w, ids[..|ids| - 1]);
      DropsAreTold(base, w, ids[..|ids| - 1]);
      hide Told, RefersTo;
      LessIsTold(base, before, DropUnreferenced(before, ids[|ids| - 1]));
    }
  }

  lemma EnsureIsTold(h: Hashes, base: Cache, w: Work, p: HostPlacement)
    requires Told(base, w)
    ensures Told(base, EnsureImage(h, w, p).0)
  {
    hide Told, ImageIdOf, SignatureOf;
    LessIsTold(base, w, EnsureImage(h, w, p).0);
  }

  lemma ReleaseIsTold(base: Cache, w: Work, source: SourceKey, id: Id)
    requires Told(base, w)
    ensures Told(base, Release(w, source, id))
  {
    hide Told, RefersTo;
    LessIsTold(base, w, Release(w, source, id));
  }

  lemma ShowIsTold(h: Hashes, base: Cache, w: Work, p: HostPlacement, viewChanged: bool)
    requires Visible(p) && Told(base, w)
    ensures Told(base, Show(h, w, p, viewChanged))
  {
    var after := Show(h, w, p, viewChanged);
    assert forall c :: c in w.out ==> c in after.out;
    assert PlacementOf(p).shown == Clip(p).value && PlacementOf(p).z == p.placement.z;
    assert after.out == w.out || DisplayOf(h, p) in after.out;
    hide Visible, KeyOf, PlacementOf;
  }

  lemma {:induction false} FrameIsTold(h: Hashes, base: Cache, w: Work, frame: seq<HostPlacement>, viewChanged: bool)
    requires Told(base, w)
    ensures Told(base, ProcessAll(h, w, frame, viewChanged))
    decreases |frame|
  {
    if frame != [] {
      var front, p := frame[..|frame| - 1], frame[|frame| - 1];
      FrameIsTold(h, base, w, front, viewChanged);
      var before := ProcessAll(h, w, front, viewChanged);
      if Visible(p) {
        var claimed := before.(current := before.current + {KeyOf(h, p)});
        LessIsTold(base, before, claimed);
        hide Told, Visible, KeyOf, ImageIdOf, EnsureImage, Release, Show;
        EnsureIsTold(h, base, claimed, p);
        var (w', held) := EnsureImage(h, claimed, p);
        if held {
          ReleaseIsTold(base, w', p.source, ImageIdOf(h, p));
          ShowIsTold(h, base, Release(w', p.source, ImageIdOf(h, p)), p, viewChanged);
        }
      }
    }
  }

  lemma {:induction false} StaleIsTold(base: Cache, w: Work, keys: seq<Key>)
    requires Told(base, w)
    ensures Told(base, DeleteStale(w, keys))
    decreases |keys|
  {
    if keys != [] {
      var front := DeleteStale(w, keys[..|keys| - 1]);
      StaleIsTold(base, w, keys[..|keys| - 1]);
      hide Told;
      LessIsTold(base, front, DeleteStale(w, keys));
    }
  }

  lemma UpdateIsTold(h: Hashes, c: Cache, frame: seq<HostPlacement>, viewChanged: bool, drops: seq<Id>, stale: seq<Key>)
    ensures var (c', out) := Update(h, c, frame, viewChanged, drops, stale); Told(c, Work(c', {}, out))
  {
    var start := Pruned(c, frame);
    assert Told(c, start);
    DropsAreTold(c, start, drops);
    FrameIsTold(h, c, DropAll(start, drops), frame, viewChanged);
    var w := Painted(h, c, frame, viewChanged, drops);
    StaleIsTold(c, w, stale);
    hide DropAll, ProcessAll, DeleteStale;
  }

  /** The placement was on screen before, at the same place of the same image, in the same
      layer and with the same scrollback. */
  predicate WasShown(h: Hashes, before: seq<HostPlacement>, p: HostPlacement) {
    exists j :: && 0 <= j < |before| && KeyOf(h, before[j]) == KeyOf(h, p) && Clip(before[j]) == Clip(p)
                && before[j].placement.z == p.placement.z && before[j].scrollback == p.scrollback
  }

  /** Painting a supplied frame after another one sends a display command for every visible
      placement that was not shown like that: moved, cut otherwise, in another layer, or
      scrolled. */
  lemma ChangeIsDisplayed(h: Hashes, used: set<Content>, c: Cache, before: seq<HostPlacement>,
                          frame: seq<HostPlacement>, viewChanged: bool, drops: seq<Id>, stale: seq<Key>, i: nat)
    requires Closed(c) && Grounded(h, used, c.images) && c.placements == Desired(h, before)
    requires CollisionFree(h, used) && InUse(used, frame) && WellKeyed(h, frame) && AllSupplied(h, c, frame)
    requires ValidOrders(h, c, frame, viewChanged, drops, stale)
    requires i < |frame| && Visible(frame[i]) && !WasShown(h, before, frame[i])
    ensures Display(ImageIdOf(h, frame[i]), KeyOf(h, frame[i]).1, Clip(frame[i]).value, frame[i].placement.z)
            in Update(h, c, frame, viewChanged, drops, stale).1
  {
    assert SuppliedUpTo(h, c, frame, |frame|);
    hide Update, ValidOrders, WasShown, Visible, KeyOf, ImageIdOf, PlacementOf, Desired, WellKeyed, Grounded;
    hide CollisionFree, AllSupplied, InUse, SuppliedUpTo, Closed, Clip, Told;
    var p := frame[i];
    NotDesired(h, before, p);
    DesiredValue(h, frame, i);
    SuppliedFrameIsShown(h, used, c, frame, viewChanged, drops, stale);
    UpdateIsTold(h, c, frame, viewChanged, drops, stale);
    var (c', out) := Update(h, c, frame, viewChanged, drops, stale);
    ToldOf(h, c, Work(c', {}, out), p);
  }

  lemma ToldOf(h: Hashes, base: Cache, w: Work, p: HostPlacement)
    requires Told(base, w) && Visible(p)
    requires var k := KeyOf(h, p);
             && k in w.cache.placements && w.cache.placements[k] == PlacementOf(p)
             && !(k in base.placements && base.placements[k] == PlacementOf(p))
    ensures Display(ImageIdOf(h, p), KeyOf(h, p).1, Clip(p).value, p.placement.z) in w.out
  {
    KeyIsOfImage(h, p);
    assert PlacementOf(p).shown == Clip(p).value && PlacementOf(p).z == p.placement.z;
    hide Visible, KeyOf, ImageIdOf, PlacementOf, Clip;
  }

  lemma {:induction false} NotDesired(h: Hashes, before: seq<HostPlacement>, p: HostPlacement)
    requires Visible(p) && !WasShown(h, before, p)
    ensures var d := Desired(h, before); !(KeyOf(h, p) in d && d[KeyOf(h, p)] == PlacementOf(p))
    decreases |before|
  {
    hide KeyOf, Clip;
    if before != [] {
      var front := before[..|before| - 1];
      assert forall j :: 0 <= j < |front| ==> front[j] == before[j];
      NotDesired(h, front, p);
    }
  }

  // --- Images that stay ---

  /** Only terminals were on the image, and none of them is in the frame, clipped or not. */
  predicate HasLeft(c: Cache, frame: seq<HostPlacement>, id: Id) {
    && id in c.images
    && forall s :: s in c.sources && c.sources[s] == id ==>
         s.Terminal? && forall i :: 0 <= i < |frame| ==> frame[i].source != s
  }

  /** A terminal's image stays on the host when its placements are gone, for when they come
      back. */
  lemma DepartedImageStays(h: Hashes, used: set<Content>, c: Cache, frame: seq<HostPlacement>, viewChanged: bool,
                           drops: seq<Id>, stale: seq<Key>, id: Id)
    requires Closed(c) && Grounded(h, used, c.images)
    requires CollisionFree(h, used) && InUse(used, frame) && WellKeyed(h, frame) && AllSupplied(h, c, frame)
    requires ValidOrders(h, c, frame, viewChanged, drops, stale) && HasLeft(c, frame, id)
    ensures id in Update(h, c, frame, viewChanged, drops, stale).0.images
  {
    assert SuppliedUpTo(h, c, frame, |frame|);
    assert Enumerates(drops, RemovedLayerImages(c, frame));
    LeftIsNeitherKeptNorRemoved(c, frame, id);
    hide Update, ValidOrders, WellKeyed, Grounded, CollisionFree, AllSupplied, InUse, SuppliedUpTo, HasLeft, Base;
    hide Retained, RemovedLayerImages;
    SuppliedFrameIsShown(h, used, c, frame, viewChanged, drops, stale);
    BaseFacts(h, c, frame, drops);
  }

  lemma LeftIsNeitherKeptNorRemoved(c: Cache, frame: seq<HostPlacement>, id: Id)
    requires HasLeft(c, frame, id)
    ensures !RefersTo(Retained(c, frame), id) && id !in RemovedLayerImages(c, frame)
  {
    hide Visible;
  }

  // --- Telling placements apart ---

  /** No two of the values that go into an id lead to the same id. */
  ghost predicate Separates(h: Hashes) {
    && (forall pane: int, s: ImageSignature, pane': int, s': ImageSignature ::
          h.imageId(pane, s) == h.imageId(pane', s') ==> pane == pane' && s == s')
    && (forall layer: bool, pane: int, image: int, placement: int,
               layer': bool, pane': int, image': int, placement': int ::
          h.placementId(layer, pane, image, placement) == h.placementId(layer', pane', image', placement')
          ==> layer == layer' && pane == pane' && image == image' && placement == placement')
  }

  /** The same image of the same pane. */
  predicate SameImage(p: HostPlacement, q: HostPlacement) {
    var a, b := p.placement, q.placement;
    && p.pane == q.pane && a.imageWidth == b.imageWidth && a.imageHeight == b.imageHeight
    && a.format == b.format && a.dataLen == b.dataLen && a.fingerprint == b.fingerprint
  }

  /** The same placement of it: both layers or both a terminal's, with equal numbers. */
  predicate SamePlacement(p: HostPlacement, q: HostPlacement) {
    && SameImage(p, q)
    && p.source.PaneLayer? == q.source.PaneLayer? && p.source.pane == q.source.pane
    && p.placement.imageId == q.placement.imageId && p.placement.placementId == q.placement.placementId
  }

  lemma KeysDifferIff(h: Hashes, p: HostPlacement, q: HostPlacement)
    requires Separates(h)
    ensures ImageIdOf(h, p) == ImageIdOf(h, q) <==> SameImage(p, q)
    ensures KeyOf(h, p) == KeyOf(h, q) <==> SamePlacement(p, q)
  {
    assert SignatureOf(p) == SignatureOf(q) <==>
      var a, b := p.placement, q.placement;
      a.imageWidth == b.imageWidth && a.imageHeight == b.imageHeight
      && a.format == b.format && a.dataLen == b.dataLen && a.fingerprint == b.fingerprint;
  }

  /** If ids separate, the placements of a frame have keys of their own exactly if no two
      visible ones are the same placement and no source shows two images. */
  lemma WellKeyedIff(h: Hashes, frame: seq<HostPlacement>)
    requires Separates(h)
    ensures WellKeyed(h, frame) <==>
            forall i, j :: 0 <= i < j < |frame| && Visible(frame[i]) && Visible(frame[j]) ==>
              && !SamePlacement(frame[i], frame[j])
              && (frame[i].source == frame[j].source ==> SameImage(frame[i], frame[j]))
  {
    forall i, j | 0 <= i < |frame| && 0 <= j < |frame|
      ensures ImageIdOf(h, frame[i]) == ImageIdOf(h, frame[j]) <==> SameImage(frame[i], frame[j])
      ensures KeyOf(h, frame[i]) == KeyOf(h, frame[j]) <==> SamePlacement(frame[i], frame[j])
    {
      KeysDifferIff(h, frame[i], frame[j]);
    }
    hide Visible, KeyOf, ImageIdOf, SameImage, SamePlacement, Separates;
  }
}
