/** How frames are collected: which placements come without their pixels, and what that
    means for runs of pane layers. */
module KittyCollect {
  import opened Wrappers
  import opened Bytes
  import opened KittyTypes
  import opened KittyCache
  import opened KittyHost
  import opened KittySessions
  import opened KittyRefinement
  import opened KittyFrames

  // --- The rule that would do ---

  /** Pixels are left out only where the image is cached under the id it will get. */
  predicate WithheldIfCached(h: Hashes, images: map<Id, ImageSignature>, p: HostPlacement) {
    Visible(p) && p.placement.data == [] ==>
      ImageIdOf(h, p) in images && images[ImageIdOf(h, p)] == SignatureOf(p)
  }

  /** No two contents of panes share an id. */
  predicate Injective(h: Hashes, used: set<Content>) {
    forall u, v :: u in used && v in used && h.imageId(u.0, u.1) == h.imageId(v.0, v.1) ==> u == v
  }

  /** A layer belongs to the pane it is placed in. */
  predicate OwnPane(p: HostPlacement) {
    p.source == PaneLayer(p.pane)
  }

  /** Every layer is on an image of its own pane. */
  ghost predicate OwnImages(h: Hashes, used: set<Content>, sources: map<SourceKey, Id>) {
    forall s :: s in sources ==> HasContent(h, used, s.pane, sources[s])
  }

  ghost predicate HasContent(h: Hashes, used: set<Content>, pane: int, id: Id) {
    exists u :: u in used && u.0 == pane && h.imageId(u.0, u.1) == id
  }

  /** A layer without pixels finds its image: the cached image backs a layer of the same
      pane, so it backs this one, and nothing in the frame moves it away before its turn. */
  lemma WithheldIsReady(h: Hashes, used: set<Content>, c: Cache, frame: seq<HostPlacement>, i: nat)
    requires OnlyLiveLayers(c) && OwnImages(h, used, c.sources) && Injective(h, used)
    requires InUse(used, frame) && WellKeyed(h, frame) && i < |frame| && OwnPane(frame[i])
    requires Visible(frame[i]) && ImageIdOf(h, frame[i]) in c.images
    ensures Ready(h, c, frame, i)
  {
    var p := frame[i];
    var id := ImageIdOf(h, p);
    hide Visible, SignatureOf, KeyOf;
    var s :| s in c.sources && c.sources[s] == id;
    assert HasContent(h, used, s.pane, id);
    assert s.pane == p.pane by {
      var u :| u in used && u.0 == s.pane && h.imageId(u.0, u.1) == id;
      assert (p.pane, SignatureOf(p)) in used && h.imageId(p.pane, SignatureOf(p)) == id;
    }
    assert s == p.source;
    assert IsCurrentSource(frame, s) by { assert frame[i].source == s; }
    SourceStays(h, Retained(c, frame), frame, i, i);
    assert SourcesAfter(h, Retained(c, frame), frame[..i])[s] == id;
  }

  /** Up to placement `i` its source is on no other image than it was or will be. */
  lemma {:induction false} SourceStays(h: Hashes, base: map<SourceKey, Id>, frame: seq<HostPlacement>, i: nat, n: nat)
    requires WellKeyed(h, frame) && n <= i < |frame| && Visible(frame[i])
    requires frame[i].source in base && base[frame[i].source] == ImageIdOf(h, frame[i])
    ensures frame[i].source in SourcesAfter(h, base, frame[..n])
    ensures SourcesAfter(h, base, frame[..n])[frame[i].source] == ImageIdOf(h, frame[i])
    decreases n
  {
    hide Visible, ImageIdOf, KeyOf;
    if n > 0 {
      SourceStays(h, base, frame, i, n - 1);
      Slices(frame, n);
    }
  }

  lemma WithheldFrameIsSupplied(h: Hashes, used: set<Content>, c: Cache, frame: seq<HostPlacement>)
    requires OnlyLiveLayers(c) && OwnImages(h, used, c.sources) && Injective(h, used)
    requires InUse(used, frame) && WellKeyed(h, frame)
    requires forall i :: 0 <= i < |frame| ==> OwnPane(frame[i]) && WithheldIfCached(h, c.images, frame[i])
    ensures AllSupplied(h, c, frame)
  {
    forall i | 0 <= i < |frame|
      ensures Supplied(h, c, frame, i)
    {
      if Visible(frame[i]) && frame[i].placement.data == [] {
        WithheldIsReady(h, used, c, frame, i);
      }
      hide Visible, Ready, WellKeyed;
    }
  }

  lemma UpdateKeepsOwnImages(h: Hashes, used: set<Content>, base: map<SourceKey, Id>, frame: seq<HostPlacement>)
    requires OwnImages(h, used, base) && InUse(used, frame)
    requires forall i :: 0 <= i < |frame| ==> OwnPane(frame[i])
    ensures OwnImages(h, used, SourcesAfter(h, base, frame))
  {
    var after := SourcesAfter(h, base, frame);
    hide Visible, SignatureOf;
    forall s | s in after
      ensures HasContent(h, used, s.pane, after[s])
    {
      SourcesAfterFrom(h, base, frame, s);
      if i :| 0 <= i < |frame| && Visible(frame[i]) && frame[i].source == s && ImageIdOf(h, frame[i]) == after[s] {
        assert (frame[i].pane, SignatureOf(frame[i])) in used;
      }
    }
  }

  /** Frames of pane layers that leave pixels out only where the image is cached. */
  ghost predicate WithholdingRun(h: Hashes, s: Session, events: seq<Event>)
    decreases |events|
  {
    events == []
    || ((events[0].enabled ==> Withholds(h, s.cache.images, events[0].frame))
        && WithholdingRun(h, StepSession(h, s, events[0]).0, events[1..]))
  }

  ghost predicate Withholds(h: Hashes, images: map<Id, ImageSignature>, frame: seq<HostPlacement>) {
    forall i :: 0 <= i < |frame| ==> OwnPane(frame[i]) && WithheldIfCached(h, images, frame[i])
  }

  lemma WithholdingStep(fp: Fingerprint, h: Hashes, used: set<Content>, s: Session, e: Event)
    requires OnlyLiveLayers(s.cache) && Grounded(h, used, s.cache.images)
    requires OwnImages(h, used, s.cache.sources) && Injective(h, used)
    requires ValidEvent(h, s, e) && LayerEvent(fp, h, used, e)
    requires e.enabled ==> Withholds(h, s.cache.images, e.frame)
    ensures e.enabled ==> AllSupplied(h, s.cache, e.frame)
    ensures var c := StepSession(h, s, e).0.cache;
            OnlyLiveLayers(c) && Grounded(h, used, c.images) && OwnImages(h, used, c.sources)
  {
    assert CollisionFree(h, used);
    if e.enabled {
      assert InUse(used, e.frame);
      hide Admissible, LayersOnly, Supplied, ValidOrders;
      WithheldFrameIsSupplied(h, used, s.cache, e.frame);
      assert SuppliedUpTo(h, s.cache, e.frame, |e.frame|);
      SuppliedFrameIsShown(h, used, s.cache, e.frame, s.view != e.view, e.drops, e.stale);
      UpdateKeepsOwnImages(h, used, Retained(s.cache, e.frame), e.frame);
    }
    hide Update, WellKeyed, Injective, CollisionFree, InUse, OwnImages, ValidOrders, Admissible, AllSupplied, Withholds;
    LayerStep(fp, h, used, s, e);
  }

  lemma {:induction false} WithholdingRunIsSupplied(fp: Fingerprint, h: Hashes, used: set<Content>, s: Session,
                                                    events: seq<Event>)
    requires OnlyLiveLayers(s.cache) && Grounded(h, used, s.cache.images)
    requires OwnImages(h, used, s.cache.sources) && Injective(h, used)
    requires ValidRun(h, s, events) && WithholdingRun(h, s, events)
    requires forall i :: 0 <= i < |events| ==> LayerEvent(fp, h, used, events[i])
    ensures SuppliedRun(h, s, events)
    decreases |events|
  {
    if events != [] {
      assert LayerEvent(fp, h, used, events[0]);
      WithholdingStep(fp, h, used, s, events[0]);
      hide StepSession, ValidEvent, LayerEvent, Grounded, OnlyLiveLayers, OwnImages, Injective, AllSupplied, Withholds;
      WithholdingRunIsSupplied(fp, h, used, StepSession(h, s, events[0]).0, events[1..]);
    }
  }

  /** On every run of layers that sends pixels only where the cache lacks them, from the
      empty cache on, the cached images are those of the layers the last frame shows. */
  lemma WithholdingRunsNeverLeak(fp: Fingerprint, h: Hashes, used: set<Content>, events: seq<Event>)
    requires Injective(h, used)
    requires ValidRun(h, Session(EMPTY, None), events) && WithholdingRun(h, Session(EMPTY, None), events)
    requires forall i :: 0 <= i < |events| ==> LayerEvent(fp, h, used, events[i])
    ensures ShowsOnlyLast(h, RunSession(h, Session(EMPTY, None), events).0.cache, events)
  {
    var s := Session(EMPTY, None);
    assert OnlyLiveLayers(EMPTY) && Grounded(h, used, EMPTY.images) && OwnImages(h, used, EMPTY.sources);
    assert CollisionFree(h, used);
    hide RunSession, ValidRun, LayerEvent, WithholdingRun, Injective, CollisionFree;
    WithholdingRunIsSupplied(fp, h, used, s, events);
    LayerRunsNeverLeak(fp, h, used, s, events);
  }

  // --- The rule of the code ---

  /** `pane_graphics_host_image_id`: an id of its own, with the top bit set. */
  type LayerIds = (int, ImageSignature) -> Id

  const PANE_GRAPHICS_BIT: int := 0x8000_0000
  const HOST_IMAGE_ID_BASE: int := 10_000

  /** The ranges of the two id functions. */
  ghost predicate IdRanges(h: Hashes, layerId: LayerIds) {
    && (forall pane: int, sig: ImageSignature :: IsHostId(h.imageId(pane, sig)))
    && (forall pane: int, sig: ImageSignature :: IsLayerId(layerId(pane, sig)))
  }

  predicate IsHostId(id: Id) {
    HOST_IMAGE_ID_BASE <= id < HOST_IMAGE_ID_BASE + 900_000
  }

  predicate IsLayerId(id: Id) {
    PANE_GRAPHICS_BIT <= id <= U32_MAX
  }

  lemma HostIdInRange(h: Hashes, layerId: LayerIds, pane: int, sig: ImageSignature)
    requires IdRanges(h, layerId)
    ensures IsHostId(h.imageId(pane, sig))
  {
  }

  /** The id under which the collector looks a placement up. */
  function LookupId(h: Hashes, layerId: LayerIds, p: HostPlacement): Id {
    if p.source.PaneLayer? then layerId(p.pane, SignatureOf(p)) else ImageIdOf(h, p)
  }

  /** `pane_graphics_host_placement` and the data filter of terminal images: pixels are left
      out if the id that was looked up is cached with this signature. */
  function Collect(h: Hashes, layerId: LayerIds, images: map<Id, ImageSignature>, p: HostPlacement): HostPlacement {
    var id := LookupId(h, layerId, p);
    if id in images && images[id] == SignatureOf(p) then p.(placement := p.placement.(data := [])) else p
  }

  /** Layers are uploaded under the ids of terminal images, but looked up under ids with the
      top bit set, which are never cached: the pixels of a layer are sent along in every
      frame. */
  lemma LayerPixelsAreNeverWithheld(h: Hashes, layerId: LayerIds, used: set<Content>,
                                    images: map<Id, ImageSignature>, p: HostPlacement)
    requires Grounded(h, used, images) && IdRanges(h, layerId) && p.source.PaneLayer?
    ensures Collect(h, layerId, images, p) == p
  {
    var id := layerId(p.pane, SignatureOf(p));
    assert IsLayerId(id);
    assert id !in images by {
      if id in images {
        assert HasOwner(h, used, id, images[id]);
        var u :| u in used && u.1 == images[id] && h.imageId(u.0, u.1) == id;
        HostIdInRange(h, layerId, u.0, u.1);
      }
    }
  }

  /** Terminal images do leave their pixels out, and only where they are cached. */
  lemma TerminalPixelsAreWithheldIfCached(h: Hashes, layerId: LayerIds, images: map<Id, ImageSignature>,
                                          p: HostPlacement)
    requires p.source.Terminal? && p.placement.data != []
    ensures WithheldIfCached(h, images, Collect(h, layerId, images, p))
    ensures Collect(h, layerId, images, p).placement.data == [] <==>
            ImageIdOf(h, p) in images && images[ImageIdOf(h, p)] == SignatureOf(p)
  {
    hide Visible;
  }

  /** The frame is what the collector makes of layers that all have pixels. */
  ghost predicate IsCollected(h: Hashes, layerId: LayerIds, images: map<Id, ImageSignature>,
                              frame: seq<HostPlacement>)
  {
    forall i :: 0 <= i < |frame| ==> IsCollectedFrom(h, layerId, images, frame[i])
  }

  ghost predicate IsCollectedFrom(h: Hashes, layerId: LayerIds, images: map<Id, ImageSignature>, p: HostPlacement) {
    exists wanted: HostPlacement :: wanted.source.PaneLayer? && wanted.placement.data != []
                                    && p == Collect(h, layerId, images, wanted)
  }

  ghost predicate CollectedRun(h: Hashes, layerId: LayerIds, s: Session, events: seq<Event>)
    decreases |events|
  {
    events == []
    || ((events[0].enabled ==> IsCollected(h, layerId, s.cache.images, events[0].frame))
        && CollectedRun(h, layerId, StepSession(h, s, events[0]).0, events[1..]))
  }

  lemma CollectedIsSupplied(h: Hashes, layerId: LayerIds, used: set<Content>, c: Cache, frame: seq<HostPlacement>)
    requires Grounded(h, used, c.images) && IdRanges(h, layerId) && IsCollected(h, layerId, c.images, frame)
    ensures AllSupplied(h, c, frame)
  {
    hide Collect, IdRanges, Grounded, Visible, Ready;
    forall i | 0 <= i < |frame|
      ensures Supplied(h, c, frame, i)
    {
      assert IsCollectedFrom(h, layerId, c.images, frame[i]);
      var wanted: HostPlacement :| wanted.source.PaneLayer? && wanted.placement.data != []
                    && frame[i] == Collect(h, layerId, c.images, wanted);
      LayerPixelsAreNeverWithheld(h, layerId, used, c.images, wanted);
    }
  }

  /** On every run of collected layer frames and clears the cache holds the images of the
      layers the last frame shows and no other. */
  lemma {:induction false} CollectedLayersNeverLeak(fp: Fingerprint, h: Hashes, layerId: LayerIds, used: set<Content>,
                                                    s: Session, events: seq<Event>)
    requires OnlyLiveLayers(s.cache) && Grounded(h, used, s.cache.images) && CollisionFree(h, used)
    requires IdRanges(h, layerId) && ValidRun(h, s, events) && CollectedRun(h, layerId, s, events)
    requires forall i :: 0 <= i < |events| ==> LayerEvent(fp, h, used, events[i])
    ensures SuppliedRun(h, s, events)
    ensures ShowsOnlyLast(h, RunSession(h, s, events).0.cache, events)
    decreases |events|
  {
    hide StepSession, ValidEvent, LayerEvent, Grounded, OnlyLiveLayers, CollisionFree, AllSupplied, IdRanges,
         IsCollected, ShowsOnlyLast, RunSession;
    if events != [] {
      var e := events[0];
      assert LayerEvent(fp, h, used, e);
      if e.enabled {
        CollectedIsSupplied(h, layerId, used, s.cache, e.frame);
      }
      LayerStep(fp, h, used, s, e);
      OnlyLastIsLive(h, StepSession(h, s, e).0.cache, [e]);
      CollectedLayersNeverLeak(fp, h, layerId, used, StepSession(h, s, e).0, events[1..]);
    }
    LayerRunsNeverLeak(fp, h, used, s, events);
  }

  lemma OnlyLastIsLive(h: Hashes, c: Cache, events: seq<Event>)
    requires ShowsOnlyLast(h, c, events)
    ensures OnlyLiveLayers(c)
  {
  }
}
