/** Consequences for the host: redraw equivalence, quiet repeats, no leaked layer images. */
module KittyFrames {
  import opened Wrappers
  import opened Bytes
  import opened KittyTypes
  import opened KittyClip
  import opened KittyCache
  import opened KittyHost
  import opened KittySessions
  import opened KittyRefinement

  // --- Redraw ---

  predicate AllSupplied(h: Hashes, c: Cache, frame: seq<HostPlacement>) {
    forall i :: 0 <= i < |frame| ==> Supplied(h, c, frame, i)
  }

  predicate HasData(frame: seq<HostPlacement>) {
    forall i :: 0 <= i < |frame| && Visible(frame[i]) ==> frame[i].placement.data != []
  }

  /** The host shows the wanted placements and nothing else, each with the right image. */
  predicate HostShows(fp: Fingerprint, h: Hashes, host: Host, frame: seq<HostPlacement>) {
    && host.placements.Keys == Desired(h, frame).Keys
    && (forall k :: k in host.placements ==>
          host.placements[k] == HostPlacementState(Desired(h, frame)[k].shown, Desired(h, frame)[k].z))
    && (forall i :: 0 <= i < |frame| && Visible(frame[i]) ==>
          && ImageIdOf(h, frame[i]) in host.images
          && Describe(fp, host.images[ImageIdOf(h, frame[i])]) == SignatureOf(frame[i]))
  }

  /** Executing one incremental update leaves the host showing exactly the frame. */
  lemma UpdateShowsFrame(fp: Fingerprint, h: Hashes, used: set<Content>, host: Host, c: Cache,
                         frame: seq<HostPlacement>, viewChanged: bool, drops: seq<Id>, stale: seq<Key>)
    requires Mirrors(fp, c, host) && Grounded(h, used, c.images) && Admissible(fp, h, used, frame)
    requires CollisionFree(h, used) && WellKeyed(h, frame) && AllSupplied(h, c, frame)
    requires ValidOrders(h, c, frame, viewChanged, drops, stale)
    ensures HostShows(fp, h, ExecAll(host, Update(h, c, frame, viewChanged, drops, stale).1), frame)
  {
    var (c', out) := Update(h, c, frame, viewChanged, drops, stale);
    assert Closed(c) && InUse(used, frame);
    assert SuppliedUpTo(h, c, frame, |frame|);
    hide Update, ValidOrders, Supplied, Grounded, CollisionFree, Closed;
    UpdateKeepsMirror(fp, h, used, host, c, frame, viewChanged, drops, stale);
    SuppliedFrameIsShown(h, used, c, frame, viewChanged, drops, stale);
    hide Admissible, WellKeyed, Desired, KittySessions.Grounded;
    assert forall i :: 0 <= i < |frame| && Visible(frame[i]) ==> Held(h, c', frame[i]);
  }

  /** The incremental update refines "clear everything and redraw": from any mirrored
      cache the host ends up with the placements a redraw from nothing would give it. */
  lemma IncrementalRefinesRedraw(fp: Fingerprint, h: Hashes, used: set<Content>, host: Host, c: Cache,
                                 frame: seq<HostPlacement>, viewChanged: bool, drops: seq<Id>, stale: seq<Key>,
                                 freshStale: seq<Key>)
    requires Mirrors(fp, c, host) && Grounded(h, used, c.images) && Admissible(fp, h, used, frame)
    requires CollisionFree(h, used) && WellKeyed(h, frame) && HasData(frame)
    requires ValidOrders(h, c, frame, viewChanged, drops, stale)
    requires ValidOrders(h, EMPTY, frame, true, [], freshStale)
    ensures var updated := ExecAll(host, Update(h, c, frame, viewChanged, drops, stale).1);
            var redrawn := ExecAll(Host(map[], map[]), Update(h, EMPTY, frame, true, [], freshStale).1);
            && updated.placements == redrawn.placements
            && HostShows(fp, h, updated, frame) && HostShows(fp, h, redrawn, frame)
  {
    hide Update, ValidOrders, Desired;
    UpdateShowsFrame(fp, h, used, host, c, frame, viewChanged, drops, stale);
    UpdateShowsFrame(fp, h, used, Host(map[], map[]), EMPTY, frame, true, [], freshStale);
    var updated := ExecAll(host, Update(h, c, frame, viewChanged, drops, stale).1);
    var redrawn := ExecAll(Host(map[], map[]), Update(h, EMPTY, frame, true, [], freshStale).1);
    hide ExecAll;
    assert updated.placements.Keys == redrawn.placements.Keys;
    forall k | k in updated.placements
      ensures k in redrawn.placements && updated.placements[k] == redrawn.placements[k]
    {
      assert k in updated.placements.Keys;
    }
  }

  // --- Quiet repeats ---

  /** Nothing is left to do for this frame. */
  predicate Settled(h: Hashes, c: Cache, frame: seq<HostPlacement>) {
    && (forall s :: s in c.sources ==> IsCurrentSource(frame, s))
    && AllHeld(h, c, frame)
    && (forall k :: k in c.placements ==> IsKeyOf(h, frame, k))
  }

  lemma {:induction false} SourcesAfterAreCurrent(h: Hashes, base: map<SourceKey, Id>, frame: seq<HostPlacement>,
                                                  n: nat)
    requires n <= |frame|
    requires forall s :: s in base ==> IsCurrentSource(frame, s)
    ensures forall s :: s in SourcesAfter(h, base, frame[..n]) ==> IsCurrentSource(frame, s)
    decreases n
  {
    if n > 0 {
      SourcesAfterAreCurrent(h, base, frame, n - 1);
      Slices(frame, n);
      var p := frame[n - 1];
      if Visible(p) {
        assert IsCurrentSource(frame, p.source);
      }
    }
  }

  /** A supplied update leaves the cache settled for its frame. */
  lemma UpdateSettles(h: Hashes, used: set<Content>, c: Cache, frame: seq<HostPlacement>,
                      viewChanged: bool, drops: seq<Id>, stale: seq<Key>)
    requires Closed(c) && Grounded(h, used, c.images)
    requires CollisionFree(h, used) && InUse(used, frame) && WellKeyed(h, frame)
    requires ValidOrders(h, c, frame, viewChanged, drops, stale) && AllSupplied(h, c, frame)
    ensures Settled(h, Update(h, c, frame, viewChanged, drops, stale).0, frame)
  {
    assert SuppliedUpTo(h, c, frame, |frame|);
    hide Update, ValidOrders;
    SuppliedFrameIsShown(h, used, c, frame, viewChanged, drops, stale);
    SourcesAfterAreCurrent(h, Retained(c, frame), frame, |frame|);
    assert frame[..|frame|] == frame;
    forall k
      ensures k in Desired(h, frame) <==> IsKeyOf(h, frame, k)
    {
      DesiredKeys(h, frame, k);
    }
  }

  lemma HeldIsSkipped(h: Hashes, w: Work, p: HostPlacement)
    requires Visible(p) ==> Held(h, w.cache, p)
    ensures Process(h, w, p, false) == if Visible(p) then w.(current := w.current + {KeyOf(h, p)}) else w
  {
    if Visible(p) {
      assert w.cache.sources[p.source := ImageIdOf(h, p)] == w.cache.sources;
    }
  }

  lemma {:induction false} HeldFrameIsSkipped(h: Hashes, c: Cache, frame: seq<HostPlacement>, n: nat)
    requires n <= |frame| && AllHeld(h, c, frame)
    ensures var w := ProcessAll(h, Work(c, {}, []), frame[..n], false);
            && w.cache == c && w.out == []
            && (forall k :: k in w.current <==> IsKeyOf(h, frame[..n], k))
    decreases n
  {
    if n > 0 {
      HeldFrameIsSkipped(h, c, frame, n - 1);
      Slices(frame, n);
      var before := ProcessAll(h, Work(c, {}, []), frame[..n - 1], false);
      assert frame[..n] == frame[..n - 1] + [frame[n - 1]];
      forall k
        ensures IsKeyOf(h, frame[..n], k)
                <==> IsKeyOf(h, frame[..n - 1], k) || (Visible(frame[n - 1]) && KeyOf(h, frame[n - 1]) == k)
      {
        IsKeyOfSnoc(h, frame[..n - 1], frame[n - 1], k);
      }
      hide Process, IsKeyOf;
      HeldIsSkipped(h, before, frame[n - 1]);
    }
  }

  lemma NothingToList<T(!new)>(order: seq<T>)
    requires Enumerates(order, {})
    ensures order == []
  {
    if order != [] {
      FirstIsListed(order);
      assert false;
    }
  }

  lemma FirstIsListed<T>(order: seq<T>)
    requires order != []
    ensures order[0] in order
  {
  }

  /** Painting a settled frame again, with the view unchanged, sends nothing and changes
      nothing, whether or not the placements still carry their data. */
  lemma SettledFrameIsQuiet(h: Hashes, c: Cache, frame: seq<HostPlacement>, drops: seq<Id>, stale: seq<Key>)
    requires Settled(h, c, frame) && ValidOrders(h, c, frame, false, drops, stale)
    ensures Update(h, c, frame, false, drops, stale) == (c, [])
  {
    assert Retained(c, frame) == c.sources;
    assert RemovedLayerImages(c, frame) == {};
    NothingToList(drops);
    assert frame[..|frame|] == frame;
    HeldFrameIsSkipped(h, c, frame, |frame|);
    assert Pruned(c, frame) == Work(c, {}, []);
    var w := Painted(h, c, frame, false, drops);
    hide ProcessAll, Settled, AllHeld;
    assert Stale(w) == {};
    NothingToList(stale);
  }

  /** `again` is `frame` with any data attached. */
  predicate SameButData(frame: seq<HostPlacement>, again: seq<HostPlacement>) {
    && |again| == |frame|
    && forall i :: 0 <= i < |frame| ==>
         again[i] == frame[i].(placement := frame[i].placement.(data := again[i].placement.data))
  }

  lemma SettledWithoutData(h: Hashes, c: Cache, frame: seq<HostPlacement>, again: seq<HostPlacement>)
    requires Settled(h, c, frame) && SameButData(frame, again)
    ensures Settled(h, c, again)
  {
    forall i | 0 <= i < |frame|
      ensures SameShape(h, c, frame[i], again[i])
    {
      DataDoesNotMatter(h, c, frame[i], again[i].placement.data);
    }
    hide Visible, KeyOf, Held;
    forall s | s in c.sources
      ensures IsCurrentSource(again, s)
    {
      var i :| 0 <= i < |frame| && frame[i].source == s && (s.Terminal? || Visible(frame[i]));
      assert again[i].source == s;
    }
    forall k | k in c.placements
      ensures IsKeyOf(h, again, k)
    {
      var i :| 0 <= i < |frame| && Visible(frame[i]) && KeyOf(h, frame[i]) == k;
      assert KeyOf(h, again[i]) == k;
    }
  }

  predicate SameShape(h: Hashes, c: Cache, p: HostPlacement, q: HostPlacement) {
    && Visible(p) == Visible(q) && p.source == q.source && KeyOf(h, p) == KeyOf(h, q)
    && (Visible(p) ==> Held(h, c, p) == Held(h, c, q))
  }

  lemma DataDoesNotMatter(h: Hashes, c: Cache, p: HostPlacement, data: seq<Byte>)
    ensures SameShape(h, c, p, p.(placement := p.placement.(data := data)))
  {
    var q := p.(placement := p.placement.(data := data));
    assert Clip(q) == Clip(p);
    assert SignatureOf(q) == SignatureOf(p);
  }

  /** Repeating a frame is silent. */
  lemma RepeatIsQuiet(h: Hashes, used: set<Content>, c: Cache, frame: seq<HostPlacement>, viewChanged: bool,
                      drops: seq<Id>, stale: seq<Key>, again: seq<HostPlacement>, drops': seq<Id>, stale': seq<Key>)
    requires Closed(c) && Grounded(h, used, c.images)
    requires CollisionFree(h, used) && InUse(used, frame) && WellKeyed(h, frame)
    requires ValidOrders(h, c, frame, viewChanged, drops, stale) && AllSupplied(h, c, frame)
    requires SameButData(frame, again)
    requires ValidOrders(h, Update(h, c, frame, viewChanged, drops, stale).0, again, false, drops', stale')
    ensures var c' := Update(h, c, frame, viewChanged, drops, stale).0;
            Update(h, c', again, false, drops', stale') == (c', [])
  {
    hide Update, ValidOrders, Settled, SameButData, WellKeyed, AllSupplied;
    UpdateSettles(h, used, c, frame, viewChanged, drops, stale);
    var c' := Update(h, c, frame, viewChanged, drops, stale).0;
    SettledWithoutData(h, c', frame, again);
    SettledFrameIsQuiet(h, c', again, drops', stale');
  }

  // --- No leaks ---

  /** Only pane layers are sources, and every cached image backs one. */
  ghost predicate OnlyLiveLayers(c: Cache) {
    && Closed(c)
    && (forall s :: s in c.sources ==> s.PaneLayer?)
    && (forall id :: id in c.images ==> RefersTo(c.sources, id))
  }

  predicate LayersOnly(frame: seq<HostPlacement>) {
    forall i :: 0 <= i < |frame| ==> frame[i].source.PaneLayer?
  }

  lemma BaseImagesAreReferenced(c: Cache, frame: seq<HostPlacement>, drops: seq<Id>)
    requires OnlyLiveLayers(c) && Enumerates(drops, RemovedLayerImages(c, frame))
    ensures var b := Base(c, frame, drops).cache;
            b.sources == Retained(c, frame) && forall id :: id in b.images ==> RefersTo(b.sources, id)
  {
    DropAllEffect(Pruned(c, frame), drops);
    var b := Base(c, frame, drops).cache;
    hide Base, DropAll;
    forall id | id in b.images
      ensures RefersTo(b.sources, id)
    {
      var s :| s in c.sources && c.sources[s] == id;
      if IsCurrentSource(frame, s) {
        assert s in b.sources && b.sources[s] == id;
      } else {
        assert id in RemovedLayerImages(c, frame);
      }
    }
  }

  /** With pane layers only, all of them supplied, the images on the host after a frame are
      exactly those of its visible layers, whether or not their data was sent again. */
  lemma NoLeakedLayers(h: Hashes, used: set<Content>, c: Cache, frame: seq<HostPlacement>,
                       viewChanged: bool, drops: seq<Id>, stale: seq<Key>)
    requires OnlyLiveLayers(c) && Grounded(h, used, c.images)
    requires CollisionFree(h, used) && InUse(used, frame) && WellKeyed(h, frame)
    requires ValidOrders(h, c, frame, viewChanged, drops, stale) && LayersOnly(frame) && AllSupplied(h, c, frame)
    ensures var c' := Update(h, c, frame, viewChanged, drops, stale).0;
            OnlyLiveLayers(c') && forall id :: id in c'.images <==> IsImageOf(h, frame, id)
  {
    var c' := Update(h, c, frame, viewChanged, drops, stale).0;
    assert SuppliedUpTo(h, c, frame, |frame|);
    SuppliedFrameIsShown(h, used, c, frame, viewChanged, drops, stale);
    UpdateSettles(h, used, c, frame, viewChanged, drops, stale);
    BaseImagesAreReferenced(c, frame, drops);
    hide Update, ValidOrders, CollisionFree, InUse, Grounded, Base, SuppliedUpTo, Retained, SourcesAfter;
    LayerImages(h, c', frame);
  }

  ghost predicate ImagesMatchSources(c: Cache) {
    forall id :: id in c.images <==> RefersTo(c.sources, id)
  }

  lemma SourceHasImage(c: Cache, s: SourceKey)
    requires ImagesMatchSources(c) && s in c.sources
    ensures c.sources[s] in c.images
  {
    assert RefersTo(c.sources, c.sources[s]);
  }

  lemma SourceImage(h: Hashes, c: Cache, frame: seq<HostPlacement>, s: SourceKey)
    requires Settled(h, c, frame) && LayersOnly(frame) && s in c.sources
    ensures s.PaneLayer? && IsImageOf(h, frame, c.sources[s])
  {
    hide Visible, ImageIdOf, KeyOf;
    var i :| 0 <= i < |frame| && frame[i].source == s && (s.Terminal? || Visible(frame[i]));
    assert Held(h, c, frame[i]);
  }

  lemma HeldImage(h: Hashes, c: Cache, frame: seq<HostPlacement>, id: Id)
    requires AllHeld(h, c, frame) && IsImageOf(h, frame, id)
    ensures id in c.images
  {
    hide Visible, ImageIdOf, SignatureOf, PlacementOf, KeyOf;
    var i :| 0 <= i < |frame| && Visible(frame[i]) && ImageIdOf(h, frame[i]) == id;
    assert Held(h, c, frame[i]);
  }

  /** In a settled cache whose images follow its sources an image is cached exactly if a
      layer of the frame shows it. */
  lemma ImageIffLayer(h: Hashes, c: Cache, frame: seq<HostPlacement>, id: Id)
    requires Settled(h, c, frame) && LayersOnly(frame) && ImagesMatchSources(c)
    ensures id in c.images <==> IsImageOf(h, frame, id)
  {
    assert AllHeld(h, c, frame);
    hide Settled, IsImageOf, AllHeld, LayersOnly;
    if id in c.images {
      var s :| s in c.sources && c.sources[s] == id;
      SourceImage(h, c, frame, s);
    }
    if IsImageOf(h, frame, id) {
      HeldImage(h, c, frame, id);
    }
  }

  lemma PlacementHasImage(h: Hashes, c: Cache, frame: seq<HostPlacement>, k: Key)
    requires Settled(h, c, frame) && k in c.placements
    ensures k.0 in c.images
  {
    hide Visible, ImageIdOf, SignatureOf, PlacementOf, IsCurrentSource;
    var i :| 0 <= i < |frame| && Visible(frame[i]) && KeyOf(h, frame[i]) == k;
    assert Held(h, c, frame[i]);
  }

  lemma SettledLayersAreLive(h: Hashes, c: Cache, frame: seq<HostPlacement>)
    requires Settled(h, c, frame) && LayersOnly(frame) && ImagesMatchSources(c)
    ensures OnlyLiveLayers(c)
  {
    hide Settled, LayersOnly, IsImageOf;
    forall k | k in c.placements
      ensures k.0 in c.images
    {
      PlacementHasImage(h, c, frame, k);
    }
    forall s | s in c.sources
      ensures s.PaneLayer? && c.sources[s] in c.images
    {
      SourceImage(h, c, frame, s);
      SourceHasImage(c, s);
    }
    hide RefersTo;
  }

  lemma LayerImages(h: Hashes, c: Cache, frame: seq<HostPlacement>)
    requires Settled(h, c, frame) && LayersOnly(frame) && ImagesMatchSources(c)
    ensures OnlyLiveLayers(c) && forall id :: id in c.images <==> IsImageOf(h, frame, id)
  {
    hide Settled, LayersOnly, ImagesMatchSources, OnlyLiveLayers, IsImageOf;
    SettledLayersAreLive(h, c, frame);
    forall id: Id
      ensures id in c.images <==> IsImageOf(h, frame, id)
    {
      ImageIffLayer(h, c, frame, id);
    }
  }

  /** What a run of layers-only frames leaves cached. */
  ghost predicate ShowsOnlyLast(h: Hashes, c: Cache, events: seq<Event>) {
    && OnlyLiveLayers(c)
    && (events != [] && events[|events| - 1].enabled ==>
          forall id :: id in c.images <==> IsImageOf(h, events[|events| - 1].frame, id))
    && (events != [] && !events[|events| - 1].enabled ==> c == EMPTY)
  }

  ghost predicate LayerEvent(fp: Fingerprint, h: Hashes, used: set<Content>, e: Event) {
    Admissible(fp, h, used, e.frame) && WellKeyed(h, e.frame) && LayersOnly(e.frame)
  }

  /** Every frame of the run is supplied by the cache it finds and the data it brings. */
  ghost predicate SuppliedRun(h: Hashes, s: Session, events: seq<Event>)
    decreases |events|
  {
    events == []
    || ((events[0].enabled ==> AllSupplied(h, s.cache, events[0].frame))
        && SuppliedRun(h, StepSession(h, s, events[0]).0, events[1..]))
  }

  /** On every run of layers-only frames and clears the cache, and with it the host, holds
      the images of the layers the last frame shows and no other. */
  lemma {:induction false} LayerRunsNeverLeak(fp: Fingerprint, h: Hashes, used: set<Content>, s: Session,
                                              events: seq<Event>)
    requires OnlyLiveLayers(s.cache) && Grounded(h, used, s.cache.images) && CollisionFree(h, used)
    requires ValidRun(h, s, events) && SuppliedRun(h, s, events)
    requires forall i :: 0 <= i < |events| ==> LayerEvent(fp, h, used, events[i])
    ensures ShowsOnlyLast(h, RunSession(h, s, events).0.cache, events)
    decreases |events|
  {
    if events != [] {
      var e := events[0];
      assert LayerEvent(fp, h, used, e);
      LayerStep(fp, h, used, s, e);
      hide StepSession, ValidEvent, LayerEvent, AllSupplied, Grounded, CollisionFree, IsImageOf, OnlyLiveLayers;
      LayerRunsNeverLeak(fp, h, used, StepSession(h, s, e).0, events[1..]);
    }
  }

  lemma LayerStep(fp: Fingerprint, h: Hashes, used: set<Content>, s: Session, e: Event)
    requires OnlyLiveLayers(s.cache) && Grounded(h, used, s.cache.images) && CollisionFree(h, used)
    requires ValidEvent(h, s, e) && LayerEvent(fp, h, used, e)
    requires e.enabled ==> AllSupplied(h, s.cache, e.frame)
    ensures var c := StepSession(h, s, e).0.cache;
            ShowsOnlyLast(h, c, [e]) && Grounded(h, used, c.images)
  {
    if e.enabled {
      assert InUse(used, e.frame);
      hide Update, AllSupplied, IsImageOf;
      NoLeakedLayers(h, used, s.cache, e.frame, s.view != e.view, e.drops, e.stale);
      UpdateKeepsGrounded(h, used, s.cache, e.frame, s.view != e.view, e.drops, e.stale);
    }
  }

  lemma UpdateKeepsGrounded(h: Hashes, used: set<Content>, c: Cache, frame: seq<HostPlacement>,
                            viewChanged: bool, drops: seq<Id>, stale: seq<Key>)
    requires Grounded(h, used, c.images) && InUse(used, frame)
    requires ValidOrders(h, c, frame, viewChanged, drops, stale)
    ensures Grounded(h, used, Update(h, c, frame, viewChanged, drops, stale).0.images)
  {
    DropAllKeepsGrounded(h, used, Pruned(c, frame), drops);
    assert Grounded(h, used, Pruned(c, frame).cache.images);
    ProcessAllKeepsGrounded(h, used, Base(c, frame, drops), frame, viewChanged, |frame|);
    assert frame[..|frame|] == frame;
    UpdateEffect(h, c, frame, viewChanged, drops, stale);
    hide Update, Grounded, Pruned, DropAll, ProcessAll, ValidOrders;
  }

  lemma {:induction false} ProcessAllKeepsGrounded(h: Hashes, used: set<Content>, w: Work, frame: seq<HostPlacement>,
                                                   viewChanged: bool, n: nat)
    requires Grounded(h, used, w.cache.images) && InUse(used, frame) && n <= |frame|
    ensures Grounded(h, used, ProcessAll(h, w, frame[..n], viewChanged).cache.images)
    decreases n
  {
    hide Grounded, Process, Visible, SignatureOf;
    if n > 0 {
      ProcessAllKeepsGrounded(h, used, w, frame, viewChanged, n - 1);
      Slices(frame, n);
      ProcessKeepsGrounded(h, used, ProcessAll(h, w, frame[..n - 1], viewChanged), frame[n - 1], viewChanged);
    }
  }

  // --- Elided data ---

  /** Collection elides the data of an image that is cached when the frame is collected.
      That is not enough: here the image is cached, but the source that was on it moves
      away earlier in the same frame, so the image is deleted and cannot be shown. */
  lemma ElidedDataCanBeMissing(h: Hashes, c: Cache, p: HostPlacement, q: HostPlacement)
    requires Visible(p) && Visible(q) && p.source != q.source
    requires p.source.Terminal? && q.source.Terminal?
    requires c.images.Keys == {ImageIdOf(h, q)} && c.sources == map[p.source := ImageIdOf(h, q)]
    requires ImageIdOf(h, p) != ImageIdOf(h, q)
    requires p.placement.data != [] && q.placement.data == []
    ensures !Supplied(h, c, [p, q], 1)
    ensures forall viewChanged, stale ::
              ValidOrders(h, c, [p, q], viewChanged, [], stale) ==>
                KeyOf(h, q) !in Update(h, c, [p, q], viewChanged, [], stale).0.placements
  {
    var frame := [p, q];
    assert frame[..1] == [p] && frame[..0] == [] && [p][..0] == [];
    assert IsCurrentSource(frame, p.source) by { assert frame[0].source == p.source; }
    assert Retained(c, frame) == c.sources;
    var was, id := ImageIdOf(h, q), ImageIdOf(h, p);
    hide Visible, SignatureOf, PlacementOf, ImageIdOf;
    assert SourcesAfter(h, c.sources, [p]) == map[p.source := id];
    assert RefersTo(c.sources, was) by { assert c.sources[p.source] == was; }
    forall viewChanged, stale | ValidOrders(h, c, frame, viewChanged, [], stale)
      ensures KeyOf(h, q) !in Update(h, c, frame, viewChanged, [], stale).0.placements
    {
      ElidedRun(h, c, p, q, viewChanged);
      DeleteStaleEffect(Painted(h, c, frame, viewChanged, []), stale);
    }
  }

  lemma ElidedRun(h: Hashes, c: Cache, p: HostPlacement, q: HostPlacement, viewChanged: bool)
    requires Visible(p) && Visible(q) && p.source != q.source
    requires p.source.Terminal? && p.placement.data != [] && q.placement.data == []
    requires Retained(c, [p, q]) == c.sources == map[p.source := ImageIdOf(h, q)]
    requires c.images.Keys == {ImageIdOf(h, q)} && ImageIdOf(h, p) != ImageIdOf(h, q)
    ensures KeyOf(h, q) !in Painted(h, c, [p, q], viewChanged, []).cache.placements
  {
    var start := Pruned(c, [p, q]);
    var first := Process(h, start, p, viewChanged);
    var was := ImageIdOf(h, q);
    assert [p, q][..1] == [p] && [p][..0] == [];
    assert ProcessAll(h, start, [p, q][..1], viewChanged) == first;
    ProcessEffect(h, start, p, viewChanged);
    assert Superseded(start.cache.sources, p.source, ImageIdOf(h, p)) == {was};
    hide Process, Visible, SignatureOf, PlacementOf, ImageIdOf, Superseded;
    assert was !in first.cache.images;
    StarvedEffect(h, first, q, viewChanged);
    assert KeyOf(h, q).0 == was;
  }

  /** A one-cell image of a terminal program, in a pane of ten by ten cells. */
  function OneCell(image: int, fingerprint: int, data: seq<Byte>): HostPlacement {
    HostPlacement(0, Rect(0, 0, 10, 10), CellSize(8, 16), Terminal(0, image),
                  ImagePlacement(image, 0, 0, 0, 0, 8, 16, Rgba, 4, fingerprint, data,
                                 Render(8, 16, 1, 1, 0, 0, 0, 0, 0, 0)),
                  0)
  }

  const PLAIN_HASHES: Hashes :=
    Hashes((pane: int, sig: ImageSignature) => sig.fingerprint, (layer: bool, pane: int, image: int, k: int) => image)

  lemma OneCellIsVisible(image: int, fingerprint: int, data: seq<Byte>)
    ensures Visible(OneCell(image, fingerprint, data))
    ensures ImageIdOf(PLAIN_HASHES, OneCell(image, fingerprint, data)) == fingerprint
  {
    assert VisibleCells(0, 1, 10) == Some(Window(0, 0, 1));
    hide VisibleCells, CropSource;
    UncutShowsEverything(Window(0, 0, 1), 1, 8, 8, 0, 0, 8);
    UncutShowsEverything(Window(0, 0, 1), 1, 16, 16, 0, 0, 16);
  }

  /** It happens on a run from the empty cache: image 1 shows content A; in the next frame
      image 1 shows B, and the new image 2 shows A, without data because A is cached. */
  lemma ElidedDataExample(data: seq<Byte>)
    requires data != []
    ensures var p, q := OneCell(1, 2, data), OneCell(2, 1, []);
            var c := Update(PLAIN_HASHES, EMPTY, [OneCell(1, 1, data)], true, [], []).0;
            && ValidOrders(PLAIN_HASHES, EMPTY, [OneCell(1, 1, data)], true, [], [])
            && c.images == map[1 := SignatureOf(q)]
            && forall viewChanged, stale ::
                 ValidOrders(PLAIN_HASHES, c, [p, q], viewChanged, [], stale) ==>
                   KeyOf(PLAIN_HASHES, q) !in Update(PLAIN_HASHES, c, [p, q], viewChanged, [], stale).0.placements
  {
    var h, first := PLAIN_HASHES, OneCell(1, 1, data);
    var p, q := OneCell(1, 2, data), OneCell(2, 1, []);
    OneCellIsVisible(1, 1, data);
    OneCellIsVisible(1, 2, data);
    OneCellIsVisible(2, 1, []);
    FirstFrame(h, first);
    ElidedDataCanBeMissing(h, Update(h, EMPTY, [first], true, [], []).0, p, q);
    hide Update, Visible, ValidOrders, ImageIdOf;
  }

  /** One visible terminal image with data on an empty cache. */
  lemma FirstFrame(h: Hashes, p: HostPlacement)
    requires Visible(p) && p.source.Terminal? && p.placement.data != []
    ensures ValidOrders(h, EMPTY, [p], true, [], [])
    ensures var c := Update(h, EMPTY, [p], true, [], []).0;
            c.images == map[ImageIdOf(h, p) := SignatureOf(p)] && c.sources == map[p.source := ImageIdOf(h, p)]
  {
    FirstPaint(h, p);
    assert RemovedLayerImages(EMPTY, [p]) == {};
    hide Painted, Visible, ImageIdOf, SignatureOf, KeyOf, RemovedLayerImages, Retained;
    assert Stale(Painted(h, EMPTY, [p], true, [])) == {};
  }

  lemma FirstPaint(h: Hashes, p: HostPlacement)
    requires Visible(p) && p.placement.data != []
    ensures var w := Painted(h, EMPTY, [p], true, []);
            && w.cache.images == map[ImageIdOf(h, p) := SignatureOf(p)]
            && w.cache.sources == map[p.source := ImageIdOf(h, p)]
            && w.cache.placements.Keys == w.current == {KeyOf(h, p)}
  {
    var start := Work(EMPTY, {}, []);
    PaintedOne(h, p);
    ProcessEffect(h, start, p, true);
    assert Superseded(map[], p.source, ImageIdOf(h, p)) == {};
    hide Process, Visible, ImageIdOf, SignatureOf, PlacementOf, KeyOf, Painted, Superseded;
  }

  lemma PaintedOne(h: Hashes, p: HostPlacement)
    ensures Painted(h, EMPTY, [p], true, []) == Process(h, Work(EMPTY, {}, []), p, true)
  {
    hide Process, IsCurrentSource;
    var start := Work(EMPTY, {}, []);
    assert Pruned(EMPTY, [p]) == start;
    hide Pruned, Retained;
    assert [p][..0] == [];
    assert ProcessAll(h, start, [p][..0], true) == start;
  }
}
