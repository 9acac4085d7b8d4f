/** After one incremental update the host shows exactly what a full redraw of the frame
    would show, if and only if a condition on cache and frame holds. */
module KittyRefinement {
  import opened Wrappers
  import opened Bytes
  import opened KittyTypes
  import opened KittyCache
  import opened KittyHost
  import opened KittySessions

  // --- Hypotheses on ids and on the frame ---

  /** No two contents in use share an id. */
  predicate CollisionFree(h: Hashes, used: set<Content>) {
    forall u, v :: u in used && v in used && h.imageId(u.0, u.1) == h.imageId(v.0, v.1) ==> u.1 == v.1
  }

  predicate InUse(used: set<Content>, frame: seq<HostPlacement>) {
    forall i :: 0 <= i < |frame| && Visible(frame[i]) ==> (frame[i].pane, SignatureOf(frame[i])) in used
  }

  /** Visible placements have distinct keys, and a source shows one image per frame. */
  predicate WellKeyed(h: Hashes, frame: seq<HostPlacement>) {
    forall i, j :: 0 <= i < j < |frame| && Visible(frame[i]) && Visible(frame[j]) ==>
      && KeyOf(h, frame[i]) != KeyOf(h, frame[j])
      && (frame[i].source == frame[j].source ==> ImageIdOf(h, frame[i]) == ImageIdOf(h, frame[j]))
  }

  // --- The full redraw ---

  /** What a frame asks the host to show: every visible placement, nothing else. */
  function Desired(h: Hashes, frame: seq<HostPlacement>): map<Key, PlacementSignature> {
    if frame == [] then map[]
    else
      var front, p := Desired(h, frame[..|frame| - 1]), frame[|frame| - 1];
      if Visible(p) then front[KeyOf(h, p) := PlacementOf(p)] else front
  }

  // --- When a placement can do without its data ---

  /** Which image each source is on once the placements of `frame` were handled. */
  function SourcesAfter(h: Hashes, base: map<SourceKey, Id>, frame: seq<HostPlacement>): map<SourceKey, Id> {
    if frame == [] then base
    else
      var front, p := SourcesAfter(h, base, frame[..|frame| - 1]), frame[|frame| - 1];
      if Visible(p) then front[p.source := ImageIdOf(h, p)] else front
  }

  /** The image of placement `i` is on the host when its turn comes: some source is on it
      by then, or it is cached, no surviving source was on it, and no pane layer that
      left the screen was. */
  predicate Ready(h: Hashes, c: Cache, frame: seq<HostPlacement>, i: nat)
    requires i < |frame|
  {
    var id := ImageIdOf(h, frame[i]);
    || RefersTo(SourcesAfter(h, Retained(c, frame), frame[..i]), id)
    || (id in c.images && !RefersTo(Retained(c, frame), id) && id !in RemovedLayerImages(c, frame))
  }

  predicate Supplied(h: Hashes, c: Cache, frame: seq<HostPlacement>, i: nat)
    requires i < |frame|
  {
    Visible(frame[i]) ==> frame[i].placement.data != [] || Ready(h, c, frame, i)
  }

  // --- When ids collide ---

  predicate IsImageOf(h: Hashes, frame: seq<HostPlacement>, id: Id) {
    exists i :: 0 <= i < |frame| && Visible(frame[i]) && ImageIdOf(h, frame[i]) == id
  }

  /** Placement `i` agrees with the earlier ones about the content behind its id. */
  predicate Agrees(h: Hashes, frame: seq<HostPlacement>, i: nat)
    requires i < |frame|
  {
    forall j :: 0 <= j < i && Visible(frame[j]) && Visible(frame[i]) && ImageIdOf(h, frame[j]) == ImageIdOf(h, frame[i])
      ==> SignatureOf(frame[j]) == SignatureOf(frame[i])
  }

  /** When its turn comes the id is still cached for other content. */
  predicate Overwrites(h: Hashes, c: Cache, frame: seq<HostPlacement>, i: nat)
    requires i < |frame|
  {
    var id := ImageIdOf(h, frame[i]);
    && Ready(h, c, frame, i) && !IsImageOf(h, frame[..i], id)
    && id in c.images && c.images[id] != SignatureOf(frame[i])
  }

  /** The placement is shown and stays: it is supplied, and where it overwrites cached
      content it carries data and was not itself cached. */
  predicate Displayable(h: Hashes, c: Cache, frame: seq<HostPlacement>, i: nat)
    requires i < |frame|
  {
    && Supplied(h, c, frame, i)
    && (Visible(frame[i]) && Overwrites(h, c, frame, i) ==>
          frame[i].placement.data != [] && KeyOf(h, frame[i]) !in c.placements)
  }

  predicate Good(h: Hashes, c: Cache, frame: seq<HostPlacement>, i: nat)
    requires i < |frame|
  {
    Displayable(h, c, frame, i) && Agrees(h, frame, i)
  }

  // --- One placement ---

  /** The image that loses its last source when `source` moves to `id`. */
  function Superseded(sources: map<SourceKey, Id>, source: SourceKey, id: Id): set<Id> {
    if source in sources && sources[source] != id && !RefersTo(sources[source := id], sources[source])
    then {sources[source]} else {}
  }

  /** The image whose cached content is replaced. */
  function Overwritten(h: Hashes, images: map<Id, ImageSignature>, p: HostPlacement): set<Id> {
    if Collides(h, images, p) then {ImageIdOf(h, p)} else {}
  }

  function Without<T>(m: map<Key, T>, ids: set<Id>): map<Key, T> {
    map k | k in m && k.0 !in ids :: m[k]
  }

  lemma WithoutNone<T>(m: map<Key, T>)
    ensures Without(m, {}) == m
  {
  }

  lemma ReleaseEffect(w: Work, source: SourceKey, id: Id)
    ensures var gone := Superseded(w.cache.sources, source, id);
            var r := Release(w, source, id);
            && r.cache.sources == w.cache.sources[source := id]
            && r.cache.images == w.cache.images - gone
            && r.cache.placements == Without(w.cache.placements, gone)
            && (forall k :: k in r.current <==> k in w.current && !(k in w.cache.placements && k.0 in gone))
  {
    WithoutNone(w.cache.placements);
    assert w.cache.images - {} == w.cache.images;
    hide RefersTo;
  }

  /** Uploading, with or without a collision. */
  lemma EnsureEffect(h: Hashes, w: Work, p: HostPlacement)
    requires p.placement.data != []
             || (ImageIdOf(h, p) in w.cache.images && !Collides(h, w.cache.images, p))
    ensures var lost := Overwritten(h, w.cache.images, p);
            var (r, held) := EnsureImage(h, w, p);
            && held && r.cache.sources == w.cache.sources
            && r.cache.images == w.cache.images[ImageIdOf(h, p) := SignatureOf(p)]
            && r.cache.placements == Without(w.cache.placements, lost)
            && (forall k :: k in r.current <==> k in w.current && !(k in w.cache.placements && k.0 in lost))
  {
    WithoutNone(w.cache.placements);
    hide SignatureOf, ImageIdOf;
    if !Collides(h, w.cache.images, p) && ImageIdOf(h, p) in w.cache.images {
      assert w.cache.images[ImageIdOf(h, p) := SignatureOf(p)] == w.cache.images;
    }
  }

  lemma ShowEffect(h: Hashes, w: Work, p: HostPlacement, viewChanged: bool)
    requires Visible(p)
    ensures var r := Show(h, w, p, viewChanged);
            && r.cache == w.cache.(placements := w.cache.placements[KeyOf(h, p) := PlacementOf(p)])
            && r.current == w.current
  {
    hide Visible, PlacementOf, KeyOf;
    if KeyOf(h, p) in w.cache.placements && w.cache.placements[KeyOf(h, p)] == PlacementOf(p) {
      assert w.cache.placements[KeyOf(h, p) := PlacementOf(p)] == w.cache.placements;
    }
  }

  /** What handling a placement does to the caches and the claims, if it does not have to
      be skipped for want of data. */
  lemma ProcessEffect(h: Hashes, w: Work, p: HostPlacement, viewChanged: bool)
    requires Visible(p)
    requires p.placement.data != []
             || (ImageIdOf(h, p) in w.cache.images && !Collides(h, w.cache.images, p))
    ensures var id, key := ImageIdOf(h, p), KeyOf(h, p);
            var gone := Superseded(w.cache.sources, p.source, id);
            var lost := Overwritten(h, w.cache.images, p);
            var r := Process(h, w, p, viewChanged);
            && r.cache.sources == w.cache.sources[p.source := id]
            && r.cache.images == w.cache.images[id := SignatureOf(p)] - gone
            && r.cache.placements == Without(w.cache.placements, gone + lost)[key := PlacementOf(p)]
            && (forall k :: k in r.current <==>
                  (k in w.current || k == key) && !(k in w.cache.placements && k.0 in gone + lost))
  {
    var claimed := w.(current := w.current + {KeyOf(h, p)});
    EnsureEffect(h, claimed, p);
    var held := EnsureImage(h, claimed, p).0;
    ReleaseEffect(held, p.source, ImageIdOf(h, p));
    var released := Release(held, p.source, ImageIdOf(h, p));
    ShowEffect(h, released, p, viewChanged);
    hide EnsureImage, Release, Show, Visible, SignatureOf, PlacementOf, ImageIdOf, KeyOf, Superseded, Overwritten;
    WithoutTwice(w.cache.placements, Overwritten(h, w.cache.images, p),
                 Superseded(w.cache.sources, p.source, ImageIdOf(h, p)));
  }

  lemma WithoutTwice<T>(m: map<Key, T>, a: set<Id>, b: set<Id>)
    ensures Without(Without(m, a), b) == Without(m, b + a)
  {
  }

  /** A placement that needs data and has none is not displayed. */
  lemma StarvedEffect(h: Hashes, w: Work, p: HostPlacement, viewChanged: bool)
    requires Visible(p) && p.placement.data == [] && ImageIdOf(h, p) !in w.cache.images
    ensures Process(h, w, p, viewChanged) == w.(current := w.current + {KeyOf(h, p)})
  {
    hide Visible, KeyOf, ImageIdOf, SignatureOf, Release, Show;
  }

  lemma StarvedOverwriteEffect(h: Hashes, w: Work, p: HostPlacement, viewChanged: bool)
    requires Visible(p) && p.placement.data == [] && Collides(h, w.cache.images, p)
    ensures Process(h, w, p, viewChanged).cache
            == w.cache.(placements := WithoutImage(w.cache.placements, ImageIdOf(h, p)))
  {
    hide Visible, KeyOf, ImageIdOf, SignatureOf, Release, Show, WithoutImage;
  }

  // --- A prefix of the frame ---

  predicate Held(h: Hashes, c: Cache, p: HostPlacement)
    requires Visible(p)
  {
    var id, key := ImageIdOf(h, p), KeyOf(h, p);
    && id in c.images && c.images[id] == SignatureOf(p)
    && key in c.placements && c.placements[key] == PlacementOf(p)
    && p.source in c.sources && c.sources[p.source] == id
  }

  predicate AllHeld(h: Hashes, c: Cache, frame: seq<HostPlacement>) {
    forall i :: 0 <= i < |frame| && Visible(frame[i]) ==> Held(h, c, frame[i])
  }

  predicate IsKeyOf(h: Hashes, frame: seq<HostPlacement>, k: Key) {
    exists i :: 0 <= i < |frame| && Visible(frame[i]) && KeyOf(h, frame[i]) == k
  }

  /** The cached images: those some source is on, and those no source was on to begin with. */
  ghost predicate ImagesFollowSources(base: Cache, c: Cache) {
    forall id :: id in c.images <==>
      RefersTo(c.sources, id) || (id in base.images && !RefersTo(base.sources, id))
  }

  /** An image that no placement so far showed is as it was, and so are its placements. */
  ghost predicate Untouched(h: Hashes, base: Cache, c: Cache, frame: seq<HostPlacement>) {
    && (forall id :: id in c.images && !IsImageOf(h, frame, id) ==>
          id in base.images && c.images[id] == base.images[id])
    && (forall k: Key :: k.0 in c.images && !IsImageOf(h, frame, k.0) ==>
          (k in c.placements <==> k in base.placements))
  }

  ghost predicate Progress(h: Hashes, base: Cache, frame: seq<HostPlacement>, w: Work) {
    && w.cache.sources == SourcesAfter(h, base.sources, frame)
    && ImagesFollowSources(base, w.cache)
    && AllHeld(h, w.cache, frame)
    && (forall k :: k in w.current <==> IsKeyOf(h, frame, k))
    && Closed(w.cache)
    && Untouched(h, base, w.cache, frame)
  }

  lemma NoCollision(h: Hashes, used: set<Content>, images: map<Id, ImageSignature>, p: HostPlacement)
    requires CollisionFree(h, used) && Grounded(h, used, images)
    requires (p.pane, SignatureOf(p)) in used
    ensures !Collides(h, images, p)
  {
    var id := ImageIdOf(h, p);
    if id in images {
      assert HasOwner(h, used, id, images[id]);
    }
  }

  lemma IsKeyOfSnoc(h: Hashes, front: seq<HostPlacement>, p: HostPlacement, k: Key)
    ensures IsKeyOf(h, front + [p], k) <==> IsKeyOf(h, front, k) || (Visible(p) && KeyOf(h, p) == k)
  {
    var frame := front + [p];
    hide Visible, KeyOf;
    if IsKeyOf(h, front, k) {
      var i :| 0 <= i < |front| && Visible(front[i]) && KeyOf(h, front[i]) == k;
      assert frame[i] == front[i];
    }
    if Visible(p) && KeyOf(h, p) == k {
      assert frame[|front|] == p;
    }
  }

  lemma IsImageOfSnoc(h: Hashes, front: seq<HostPlacement>, p: HostPlacement, id: Id)
    ensures IsImageOf(h, front + [p], id) <==> IsImageOf(h, front, id) || (Visible(p) && ImageIdOf(h, p) == id)
  {
    var frame := front + [p];
    hide Visible, ImageIdOf;
    if IsImageOf(h, front, id) {
      var i :| 0 <= i < |front| && Visible(front[i]) && ImageIdOf(h, front[i]) == id;
      assert frame[i] == front[i];
    }
    if Visible(p) && ImageIdOf(h, p) == id {
      assert frame[|front|] == p;
    }
  }

  /** A held placement of the prefix keeps its image when `p` is handled. */
  lemma HeldSurvives(h: Hashes, c: Cache, q: HostPlacement, p: HostPlacement)
    requires Visible(q) && Visible(p) && Held(h, c, q)
    requires q.source == p.source ==> ImageIdOf(h, q) == ImageIdOf(h, p)
    requires ImageIdOf(h, q) == ImageIdOf(h, p) ==> SignatureOf(q) == SignatureOf(p)
    ensures ImageIdOf(h, q) !in Superseded(c.sources, p.source, ImageIdOf(h, p))
    ensures ImageIdOf(h, q) !in Overwritten(h, c.images, p)
  {
    hide Visible, ImageIdOf, SignatureOf, PlacementOf, KeyOf;
    var id := ImageIdOf(h, p);
    if q.source != p.source {
      assert c.sources[p.source := id][q.source] == ImageIdOf(h, q);
      assert RefersTo(c.sources[p.source := id], ImageIdOf(h, q));
    }
  }

  lemma ImagesFollow(base: Cache, c: Cache, source: SourceKey, id: Id)
    requires ImagesFollowSources(base, c) && Closed(c)
    requires source in c.sources && c.sources[source] != id ==> RefersTo(base.sources, c.sources[source])
    ensures var sources := c.sources[source := id];
            forall x :: (x in c.images || x == id) && x !in Superseded(c.sources, source, id)
                        <==> RefersTo(sources, x) || (x in base.images && !RefersTo(base.sources, x))
  {
    var sources := c.sources[source := id];
    assert sources[source] == id;
    assert forall s :: s in c.sources && s != source ==> sources[s] == c.sources[s];
    forall x
      ensures (x in c.images || x == id) && x !in Superseded(c.sources, source, id)
              <==> RefersTo(sources, x) || (x in base.images && !RefersTo(base.sources, x))
    {
      if RefersTo(sources, x) {
        var s :| s in sources && sources[s] == x;
        assert s == source || (s in c.sources && c.sources[s] == x);
      }
      if RefersTo(c.sources, x) && !RefersTo(sources, x) {
        var s :| s in c.sources && c.sources[s] == x;
        assert s in sources;
      }
    }
  }

  lemma {:induction false} SourcesAfterFrom(h: Hashes, base: map<SourceKey, Id>, frame: seq<HostPlacement>,
                                            s: SourceKey)
    requires s in SourcesAfter(h, base, frame)
    ensures || (s in base && SourcesAfter(h, base, frame)[s] == base[s])
            || exists i :: 0 <= i < |frame| && Visible(frame[i]) && frame[i].source == s
                           && ImageIdOf(h, frame[i]) == SourcesAfter(h, base, frame)[s]
    decreases |frame|
  {
    if frame != [] {
      var front, p := frame[..|frame| - 1], frame[|frame| - 1];
      if !(Visible(p) && p.source == s) {
        SourcesAfterFrom(h, base, front, s);
        if i :| 0 <= i < |front| && Visible(front[i]) && front[i].source == s
                && ImageIdOf(h, front[i]) == SourcesAfter(h, base, front)[s] {
          assert frame[i] == front[i];
        }
      }
    }
  }

  /** A source that moves away from an image in this frame was on it before the frame. */
  lemma MovesFromBase(h: Hashes, base: map<SourceKey, Id>, frame: seq<HostPlacement>)
    requires frame != [] && WellKeyed(h, frame) && Visible(frame[|frame| - 1])
    ensures var front, p := frame[..|frame| - 1], frame[|frame| - 1];
            var sources := SourcesAfter(h, base, front);
            p.source in sources && sources[p.source] != ImageIdOf(h, p) ==> RefersTo(base, sources[p.source])
  {
    var front, p := frame[..|frame| - 1], frame[|frame| - 1];
    var sources := SourcesAfter(h, base, front);
    if p.source in sources {
      SourcesAfterFrom(h, base, front, p.source);
      if i :| 0 <= i < |front| && Visible(front[i]) && front[i].source == p.source
              && ImageIdOf(h, front[i]) == sources[p.source] {
        assert frame[i] == front[i];
      }
    }
  }

  lemma WellKeyedPrefix(h: Hashes, frame: seq<HostPlacement>, n: nat)
    requires WellKeyed(h, frame) && n <= |frame|
    ensures WellKeyed(h, frame[..n])
  {
  }

  /** The caches after a placement that is not skipped, as `ProcessEffect` describes them. */
  predicate Effect(h: Hashes, c: Cache, p: HostPlacement, after: Cache)
    requires Visible(p)
  {
    var id, key := ImageIdOf(h, p), KeyOf(h, p);
    var gone := Superseded(c.sources, p.source, id);
    && after.sources == c.sources[p.source := id]
    && after.images == c.images[id := SignatureOf(p)] - gone
    && after.placements == Without(c.placements, gone + Overwritten(h, c.images, p))[key := PlacementOf(p)]
  }

  lemma OwnImageStays(sources: map<SourceKey, Id>, source: SourceKey, id: Id)
    ensures id !in Superseded(sources, source, id)
  {
  }

  lemma EffectKeepsClosed(h: Hashes, c: Cache, p: HostPlacement, after: Cache)
    requires Visible(p) && Closed(c) && Effect(h, c, p, after)
    ensures Closed(after)
  {
    hide Visible, SignatureOf, PlacementOf, ImageIdOf, Overwritten;
    var id := ImageIdOf(h, p);
    OwnImageStays(c.sources, p.source, id);
    forall s | s in after.sources
      ensures after.sources[s] in after.images
    {
      assert RefersTo(after.sources, after.sources[s]);
    }
  }

  lemma EffectHolds(h: Hashes, c: Cache, p: HostPlacement, after: Cache)
    requires Visible(p) && Effect(h, c, p, after)
    ensures Held(h, after, p)
  {
    OwnImageStays(c.sources, p.source, ImageIdOf(h, p));
    hide Superseded, Overwritten, Visible, ImageIdOf, SignatureOf, PlacementOf, KeyOf;
  }

  lemma HeldStays(h: Hashes, c: Cache, q: HostPlacement, p: HostPlacement, after: Cache)
    requires Visible(q) && Visible(p) && Held(h, c, q) && Effect(h, c, p, after)
    requires KeyOf(h, q) != KeyOf(h, p)
    requires q.source == p.source ==> ImageIdOf(h, q) == ImageIdOf(h, p)
    requires ImageIdOf(h, q) == ImageIdOf(h, p) ==> SignatureOf(q) == SignatureOf(p)
    ensures Held(h, after, q)
  {
    HeldSurvives(h, c, q, p);
    assert KeyOf(h, q).0 == ImageIdOf(h, q);
    hide Superseded, Overwritten, SignatureOf, PlacementOf, Visible, ImageIdOf, KeyOf;
  }

  /** Away from the last element, a placement of the frame and the last one do not clash. */
  lemma NoClash(h: Hashes, frame: seq<HostPlacement>, i: nat)
    requires frame != [] && i < |frame| - 1 && Visible(frame[i]) && Visible(frame[|frame| - 1])
    requires WellKeyed(h, frame) && Agrees(h, frame, |frame| - 1)
    ensures var q, p := frame[i], frame[|frame| - 1];
            && KeyOf(h, q) != KeyOf(h, p)
            && (q.source == p.source ==> ImageIdOf(h, q) == ImageIdOf(h, p))
            && (ImageIdOf(h, q) == ImageIdOf(h, p) ==> SignatureOf(q) == SignatureOf(p))
  {
    hide Visible, KeyOf, ImageIdOf, SignatureOf;
  }

  /** A placement that is not skipped and not claimed away carries the invariant over to
      the longer prefix. */
  lemma ProgressStep(h: Hashes, base: Cache, frame: seq<HostPlacement>, w: Work, viewChanged: bool)
    requires frame != [] && WellKeyed(h, frame) && Agrees(h, frame, |frame| - 1)
    requires Progress(h, base, frame[..|frame| - 1], w)
    requires Visible(frame[|frame| - 1]) ==> TurnSucceeds(h, w, frame[|frame| - 1])
    ensures Progress(h, base, frame, Process(h, w, frame[|frame| - 1], viewChanged))
  {
    var front, p := frame[..|frame| - 1], frame[|frame| - 1];
    assert frame == front + [p];
    forall k
      ensures IsKeyOf(h, frame, k) <==> IsKeyOf(h, front, k) || (Visible(p) && KeyOf(h, p) == k)
    {
      IsKeyOfSnoc(h, front, p, k);
    }
    forall id
      ensures IsImageOf(h, frame, id) <==> IsImageOf(h, front, id) || (Visible(p) && ImageIdOf(h, p) == id)
    {
      IsImageOfSnoc(h, front, p, id);
    }
    hide Visible, KeyOf, ImageIdOf, IsKeyOf, IsImageOf, Agrees, WellKeyed;
    if Visible(p) {
      ProgressVisible(h, base, frame, w, viewChanged);
    } else {
      assert forall i :: 0 <= i < |frame| && Visible(frame[i]) ==> i < |front| && frame[i] == front[i];
    }
  }

  /** The placement has its image or its data, and if it overwrites content its own key is
      not on screen, so that its claim survives. */
  predicate TurnSucceeds(h: Hashes, w: Work, p: HostPlacement) {
    && (p.placement.data != [] || (ImageIdOf(h, p) in w.cache.images && !Collides(h, w.cache.images, p)))
    && (Collides(h, w.cache.images, p) ==> KeyOf(h, p) !in w.cache.placements)
  }

  lemma ProgressVisible(h: Hashes, base: Cache, frame: seq<HostPlacement>, w: Work, viewChanged: bool)
    requires frame != [] && Visible(frame[|frame| - 1])
    requires WellKeyed(h, frame) && Agrees(h, frame, |frame| - 1)
    requires Progress(h, base, frame[..|frame| - 1], w) && TurnSucceeds(h, w, frame[|frame| - 1])
    requires var front, p := frame[..|frame| - 1], frame[|frame| - 1];
             && (forall k :: IsKeyOf(h, frame, k) <==> IsKeyOf(h, front, k) || KeyOf(h, p) == k)
             && (forall id :: IsImageOf(h, frame, id) <==> IsImageOf(h, front, id) || ImageIdOf(h, p) == id)
    ensures Progress(h, base, frame, Process(h, w, frame[|frame| - 1], viewChanged))
  {
    var front, p := frame[..|frame| - 1], frame[|frame| - 1];
    var r := Process(h, w, p, viewChanged);
    ProcessEffect(h, w, p, viewChanged);
    assert Effect(h, w.cache, p, r.cache);
    hide Process, Visible, SignatureOf, Superseded, Without, ImageIdOf, Overwritten, KeyOf, PlacementOf;
    assert r.cache.sources == SourcesAfter(h, base.sources, frame);
    hide SourcesAfter, IsKeyOf, IsImageOf;
    MovesFromBase(h, base.sources, frame);
    EffectKeepsClosed(h, w.cache, p, r.cache);
    EffectImages(h, base, w.cache, p, r.cache);
    PrefixHeld(h, frame, w, r.cache);
    UntouchedStays(h, base, frame, w.cache, r.cache);
    ClaimsStay(h, frame, w);
    hide WellKeyed, Agrees, AllHeld, Closed, ImagesFollowSources, Effect, Untouched, TurnSucceeds;
  }

  lemma EffectImages(h: Hashes, base: Cache, c: Cache, p: HostPlacement, after: Cache)
    requires Visible(p) && Effect(h, c, p, after)
    requires ImagesFollowSources(base, c) && Closed(c)
    requires p.source in c.sources && c.sources[p.source] != ImageIdOf(h, p)
             ==> RefersTo(base.sources, c.sources[p.source])
    ensures ImagesFollowSources(base, after)
  {
    hide Visible, SignatureOf, Superseded, ImageIdOf, RefersTo, Overwritten, Without;
    ImagesFollow(base, c, p.source, ImageIdOf(h, p));
  }

  lemma UntouchedStays(h: Hashes, base: Cache, frame: seq<HostPlacement>, c: Cache, after: Cache)
    requires frame != [] && Visible(frame[|frame| - 1])
    requires Effect(h, c, frame[|frame| - 1], after) && Untouched(h, base, c, frame[..|frame| - 1])
    requires var front, p := frame[..|frame| - 1], frame[|frame| - 1];
             forall id :: IsImageOf(h, frame, id) <==> IsImageOf(h, front, id) || ImageIdOf(h, p) == id
    ensures Untouched(h, base, after, frame)
  {
    var front, p := frame[..|frame| - 1], frame[|frame| - 1];
    hide Visible, SignatureOf, PlacementOf, IsImageOf, Superseded;
    assert KeyOf(h, p).0 == ImageIdOf(h, p);
    assert forall id :: id in Overwritten(h, c.images, p) ==> id == ImageIdOf(h, p);
    hide ImageIdOf, KeyOf, Overwritten;
  }

  /** Nothing the prefix holds is lost when the last placement is handled. */
  lemma PrefixHeld(h: Hashes, frame: seq<HostPlacement>, w: Work, after: Cache)
    requires frame != [] && Visible(frame[|frame| - 1])
    requires WellKeyed(h, frame) && Agrees(h, frame, |frame| - 1)
    requires AllHeld(h, w.cache, frame[..|frame| - 1])
    requires Effect(h, w.cache, frame[|frame| - 1], after)
    ensures AllHeld(h, after, frame)
  {
    var p := frame[|frame| - 1];
    EffectHolds(h, w.cache, p, after);
    hide Visible, WellKeyed, Agrees, Effect, Held, ImageIdOf, KeyOf, SignatureOf;
    forall i | 0 <= i < |frame| - 1 && Visible(frame[i])
      ensures Held(h, after, frame[i])
    {
      assert frame[i] == frame[..|frame| - 1][i];
      NoClash(h, frame, i);
      HeldStays(h, w.cache, frame[i], p, after);
    }
  }

  /** No claim, old or new, is lost when the last placement is handled. */
  lemma ClaimsStay(h: Hashes, frame: seq<HostPlacement>, w: Work)
    requires frame != [] && Visible(frame[|frame| - 1])
    requires WellKeyed(h, frame) && Agrees(h, frame, |frame| - 1)
    requires AllHeld(h, w.cache, frame[..|frame| - 1])
    requires TurnSucceeds(h, w, frame[|frame| - 1])
    requires forall k :: k in w.current <==> IsKeyOf(h, frame[..|frame| - 1], k)
    ensures var p := frame[|frame| - 1];
            forall k :: k in w.current || k == KeyOf(h, p) ==>
              !(k in w.cache.placements
                && k.0 in Superseded(w.cache.sources, p.source, ImageIdOf(h, p)) + Overwritten(h, w.cache.images, p))
  {
    var front, p := frame[..|frame| - 1], frame[|frame| - 1];
    OwnImageStays(w.cache.sources, p.source, ImageIdOf(h, p));
    assert KeyOf(h, p).0 == ImageIdOf(h, p);
    hide Visible, WellKeyed, Agrees, SignatureOf, Superseded, ImageIdOf;
    forall k | k in w.current
      ensures k.0 !in Superseded(w.cache.sources, p.source, ImageIdOf(h, p)) + Overwritten(h, w.cache.images, p)
    {
      var i :| 0 <= i < |front| && Visible(front[i]) && KeyOf(h, front[i]) == k;
      assert front[i] == frame[i] && k.0 == ImageIdOf(h, frame[i]);
      NoClash(h, frame, i);
      HeldSurvives(h, w.cache, frame[i], p);
    }
  }

  // --- The whole frame ---

  lemma {:induction false} DropAllEffect(w: Work, ids: seq<Id>)
    requires Closed(w.cache)
    ensures var c := DropAll(w, ids).cache;
            && c.sources == w.cache.sources && Closed(c)
            && (forall id :: id in c.images <==>
                  id in w.cache.images && (id in ids ==> RefersTo(w.cache.sources, id)))
            && (forall id :: id in c.images ==> c.images[id] == w.cache.images[id])
            && (forall k :: k in c.placements <==> k in w.cache.placements && k.0 in c.images)
    ensures DropAll(w, ids).current == w.current
    decreases |ids|
  {
    if ids != [] {
      var front, id := ids[..|ids| - 1], ids[|ids| - 1];
      assert ids == front + [id];
      DropAllEffect(w, front);
      DropOneEffect(DropAll(w, front), id);
      hide DropUnreferenced, RefersTo, Closed;
    }
  }

  lemma DropOneEffect(w: Work, id: Id)
    requires Closed(w.cache)
    ensures var c := DropUnreferenced(w, id).cache;
            && c.sources == w.cache.sources && Closed(c)
            && (forall x :: x in c.images <==> x in w.cache.images && (x == id ==> RefersTo(w.cache.sources, x)))
            && (forall x :: x in c.images ==> c.images[x] == w.cache.images[x])
            && (forall k :: k in c.placements <==> k in w.cache.placements && k.0 in c.images)
    ensures DropUnreferenced(w, id).current == w.current
  {
    if !RefersTo(w.cache.sources, id) {
      assert forall s :: s in w.cache.sources ==> w.cache.sources[s] != id;
    }
    hide RefersTo;
  }

  /** The caches when the placement loop starts. */
  function Base(c: Cache, frame: seq<HostPlacement>, drops: seq<Id>): Work {
    DropAll(Pruned(c, frame), drops)
  }

  lemma BaseFacts(h: Hashes, c: Cache, frame: seq<HostPlacement>, drops: seq<Id>)
    requires Closed(c)
    requires Enumerates(drops, RemovedLayerImages(c, frame))
    ensures var b := Base(c, frame, drops);
            && b.cache.sources == Retained(c, frame)
            && (forall id :: id in b.cache.images && !RefersTo(Retained(c, frame), id) <==>
                  id in c.images && id !in RemovedLayerImages(c, frame) && !RefersTo(Retained(c, frame), id))
            && (forall id :: id in b.cache.images ==> id in c.images && b.cache.images[id] == c.images[id])
            && (forall k :: k in b.cache.placements <==> k in c.placements && k.0 in b.cache.images)
            && Progress(h, b.cache, [], b)
  {
    DropAllEffect(Pruned(c, frame), drops);
    var b := Base(c, frame, drops);
    hide DropAll, Retained, RemovedLayerImages;
    forall id | RefersTo(b.cache.sources, id)
      ensures id in b.cache.images
    {
      var s :| s in b.cache.sources && b.cache.sources[s] == id;
    }
    hide RefersTo;
  }

  /** Away from the last element, slices of a slice are slices of the frame. */
  lemma Slices(frame: seq<HostPlacement>, n: nat)
    requires 0 < n <= |frame|
    ensures frame[..n][..|frame[..n]| - 1] == frame[..n - 1]
    ensures frame[..n][|frame[..n]| - 1] == frame[n - 1]
  {
  }

  ghost predicate SuppliedUpTo(h: Hashes, c: Cache, frame: seq<HostPlacement>, n: nat)
    requires n <= |frame|
  {
    forall i :: 0 <= i < n ==> Supplied(h, c, frame, i)
  }

  ghost predicate GoodUpTo(h: Hashes, c: Cache, frame: seq<HostPlacement>, n: nat)
    requires n <= |frame|
  {
    forall i :: 0 <= i < n ==> Good(h, c, frame, i)
  }

  /** Without collisions there is nothing to agree on and nothing to overwrite. */
  lemma SuppliedIsGood(h: Hashes, used: set<Content>, c: Cache, frame: seq<HostPlacement>, i: nat)
    requires Grounded(h, used, c.images) && CollisionFree(h, used) && InUse(used, frame) && i < |frame|
    ensures Good(h, c, frame, i) <==> Supplied(h, c, frame, i)
  {
    if Visible(frame[i]) {
      NoCollision(h, used, c.images, frame[i]);
    }
    hide Visible, ImageIdOf, Ready, KeyOf;
    forall j | 0 <= j < i && Visible(frame[j]) && Visible(frame[i])
               && ImageIdOf(h, frame[j]) == ImageIdOf(h, frame[i])
      ensures SignatureOf(frame[j]) == SignatureOf(frame[i])
    {
      SameContent(h, used, frame[j], frame[i]);
    }
  }

  lemma SameContent(h: Hashes, used: set<Content>, p: HostPlacement, q: HostPlacement)
    requires CollisionFree(h, used)
    requires (p.pane, SignatureOf(p)) in used && (q.pane, SignatureOf(q)) in used
    requires ImageIdOf(h, p) == ImageIdOf(h, q)
    ensures SignatureOf(p) == SignatureOf(q)
  {
    var u, v := (p.pane, SignatureOf(p)), (q.pane, SignatureOf(q));
    assert h.imageId(u.0, u.1) == h.imageId(v.0, v.1);
  }

  /** The caches when the turn of placement `n` comes. */
  function AtTurn(h: Hashes, c: Cache, frame: seq<HostPlacement>, drops: seq<Id>, viewChanged: bool, n: nat): Work
    requires n <= |frame|
  {
    ProcessAll(h, Base(c, frame, drops), frame[..n], viewChanged)
  }

  /** While every placement succeeded, what can be told from cache and frame is what the
      loop finds: whether the image is there, and whether its content is overwritten. */
  lemma TurnFacts(h: Hashes, c: Cache, frame: seq<HostPlacement>, drops: seq<Id>, viewChanged: bool, n: nat)
    requires Closed(c) && Enumerates(drops, RemovedLayerImages(c, frame)) && n < |frame|
    requires Progress(h, Base(c, frame, drops).cache, frame[..n], AtTurn(h, c, frame, drops, viewChanged, n))
    ensures var w, p := AtTurn(h, c, frame, drops, viewChanged, n), frame[n];
            && (Ready(h, c, frame, n) <==> ImageIdOf(h, p) in w.cache.images)
            && (Visible(p) && Agrees(h, frame, n) ==>
                  (Overwrites(h, c, frame, n) <==> Collides(h, w.cache.images, p)))
            && (Overwrites(h, c, frame, n) ==> (KeyOf(h, p) in w.cache.placements <==> KeyOf(h, p) in c.placements))
  {
    BaseFacts(h, c, frame, drops);
    var b, w, p := Base(c, frame, drops), AtTurn(h, c, frame, drops, viewChanged, n), frame[n];
    var id := ImageIdOf(h, p);
    assert KeyOf(h, p).0 == id;
    hide Base, AtTurn, Retained, RemovedLayerImages, RefersTo, Closed, IsKeyOf, Visible, ImageIdOf, SignatureOf, KeyOf;
    assert Ready(h, c, frame, n) <==> id in w.cache.images;
    hide Ready, SourcesAfter, ImagesFollowSources;
    if IsImageOf(h, frame[..n], id) {
      var j :| 0 <= j < n && Visible(frame[..n][j]) && ImageIdOf(h, frame[..n][j]) == id;
      assert Held(h, w.cache, frame[j]);
    }
    hide Held, AllHeld, IsImageOf;
  }

  lemma {:induction false} PrefixProgress(h: Hashes, c: Cache, frame: seq<HostPlacement>,
                                          viewChanged: bool, drops: seq<Id>, n: nat)
    requires Closed(c) && WellKeyed(h, frame)
    requires Enumerates(drops, RemovedLayerImages(c, frame))
    requires n <= |frame| && GoodUpTo(h, c, frame, n)
    ensures Progress(h, Base(c, frame, drops).cache, frame[..n], AtTurn(h, c, frame, drops, viewChanged, n))
    decreases n
  {
    if n == 0 {
      BaseFacts(h, c, frame, drops);
      assert frame[..0] == [];
    } else {
      PrefixProgress(h, c, frame, viewChanged, drops, n - 1);
      assert Good(h, c, frame, n - 1);
      TurnFacts(h, c, frame, drops, viewChanged, n - 1);
      Slices(frame, n);
      WellKeyedPrefix(h, frame, n);
      AgreesPrefix(h, frame, n);
      hide Base, Progress, WellKeyed, Agrees, Ready, Overwrites, Process, Enumerates, Collides, KeyOf, ImageIdOf;
      ProgressStep(h, Base(c, frame, drops).cache, frame[..n], AtTurn(h, c, frame, drops, viewChanged, n - 1),
                   viewChanged);
    }
  }

  lemma AgreesPrefix(h: Hashes, frame: seq<HostPlacement>, n: nat)
    requires 0 < n <= |frame|
    ensures Agrees(h, frame[..n], n - 1) <==> Agrees(h, frame, n - 1)
  {
    hide Visible, ImageIdOf, SignatureOf;
    assert forall j :: 0 <= j < n ==> frame[..n][j] == frame[j];
  }

  lemma {:induction false} DesiredKeys(h: Hashes, frame: seq<HostPlacement>, k: Key)
    ensures k in Desired(h, frame) <==> IsKeyOf(h, frame, k)
    decreases |frame|
  {
    if frame != [] {
      var front, p := frame[..|frame| - 1], frame[|frame| - 1];
      assert frame == front + [p];
      DesiredKeys(h, front, k);
      IsKeyOfSnoc(h, front, p, k);
    }
  }

  lemma {:induction false} DesiredValue(h: Hashes, frame: seq<HostPlacement>, i: nat)
    requires WellKeyed(h, frame) && i < |frame| && Visible(frame[i])
    ensures KeyOf(h, frame[i]) in Desired(h, frame)
    ensures Desired(h, frame)[KeyOf(h, frame[i])] == PlacementOf(frame[i])
    decreases |frame|
  {
    if i < |frame| - 1 {
      var front := frame[..|frame| - 1];
      WellKeyedPrefix(h, frame, |frame| - 1);
      assert front[i] == frame[i];
      DesiredValue(h, front, i);
    }
  }

  lemma {:induction false} DeleteStaleEffect(w: Work, keys: seq<Key>)
    ensures var c := DeleteStale(w, keys).cache;
            && c.images == w.cache.images && c.sources == w.cache.sources
            && (forall k :: k in c.placements <==> k in w.cache.placements && k !in keys)
            && (forall k :: k in c.placements ==> c.placements[k] == w.cache.placements[k])
    decreases |keys|
  {
    if keys != [] {
      var front := keys[..|keys| - 1];
      assert keys == front + [keys[|keys| - 1]];
      DeleteStaleEffect(w, front);
    }
  }

  /** What remains when the stale placements are gone. */
  lemma UpdateEffect(h: Hashes, c: Cache, frame: seq<HostPlacement>, viewChanged: bool,
                     drops: seq<Id>, stale: seq<Key>)
    requires ValidOrders(h, c, frame, viewChanged, drops, stale)
    ensures var w := ProcessAll(h, Base(c, frame, drops), frame, viewChanged);
            var c' := Update(h, c, frame, viewChanged, drops, stale).0;
            && c'.images == w.cache.images && c'.sources == w.cache.sources
            && (forall k :: k in c'.placements <==> k in w.cache.placements && k in w.current)
            && (forall k :: k in c'.placements ==> c'.placements[k] == w.cache.placements[k])
  {
    var w := ProcessAll(h, Base(c, frame, drops), frame, viewChanged);
    assert w == Painted(h, c, frame, viewChanged, drops);
    DeleteStaleEffect(w, stale);
    hide ProcessAll, Base, DeleteStale;
    assert forall k :: k in stale <==> k in Stale(w);
  }

  lemma HeldPlacementsAreDesired(h: Hashes, frame: seq<HostPlacement>, c: Cache,
                                 placements: map<Key, PlacementSignature>)
    requires WellKeyed(h, frame) && AllHeld(h, c, frame)
    requires forall k :: k in placements <==> IsKeyOf(h, frame, k)
    requires forall k :: k in placements && k in c.placements ==> placements[k] == c.placements[k]
    ensures placements == Desired(h, frame)
  {
    forall k
      ensures k in Desired(h, frame) <==> k in placements
      ensures k in placements ==> placements[k] == Desired(h, frame)[k]
    {
      DesiredKeys(h, frame, k);
      if k in placements {
        var i :| 0 <= i < |frame| && Visible(frame[i]) && KeyOf(h, frame[i]) == k;
        DesiredValue(h, frame, i);
        assert Held(h, c, frame[i]);
      }
    }
  }

  /** A frame of good placements is shown: every visible placement is held, nothing else
      is left. */
  lemma GoodFrameIsShown(h: Hashes, c: Cache, frame: seq<HostPlacement>,
                         viewChanged: bool, drops: seq<Id>, stale: seq<Key>)
    requires Closed(c) && WellKeyed(h, frame)
    requires ValidOrders(h, c, frame, viewChanged, drops, stale)
    requires GoodUpTo(h, c, frame, |frame|)
    ensures var c' := Update(h, c, frame, viewChanged, drops, stale).0;
            && c'.placements == Desired(h, frame)
            && AllHeld(h, c', frame)
            && c'.sources == SourcesAfter(h, Retained(c, frame), frame)
            && ImagesFollowSources(Base(c, frame, drops).cache, c')
  {
    hide Update, ProcessAll, Base, GoodUpTo, Closed, Untouched, AllHeld, IsKeyOf, Desired, WellKeyed;
    hide Painted, Stale, Enumerates, RemovedLayerImages, SourcesAfter;
    var w := ProcessAll(h, Base(c, frame, drops), frame, viewChanged);
    var c' := Update(h, c, frame, viewChanged, drops, stale).0;
    PrefixProgress(h, c, frame, viewChanged, drops, |frame|);
    assert frame[..|frame|] == frame;
    BaseFacts(h, c, frame, drops);
    UpdateEffect(h, c, frame, viewChanged, drops, stale);
    HeldKeysAreCached(h, w.cache, frame);
    HeldPlacementsAreDesired(h, frame, w.cache, c'.placements);
    HeldAfterCleanup(h, frame, w.cache, c');
  }

  /** Dropping placements that the frame does not show leaves the frame's own in place. */
  lemma HeldAfterCleanup(h: Hashes, frame: seq<HostPlacement>, c: Cache, after: Cache)
    requires AllHeld(h, c, frame)
    requires after.images == c.images && after.sources == c.sources
    requires forall k :: k in after.placements <==> IsKeyOf(h, frame, k)
    requires forall k :: k in after.placements && k in c.placements ==> after.placements[k] == c.placements[k]
    ensures AllHeld(h, after, frame)
  {
    hide Visible, KeyOf, ImageIdOf, SignatureOf, PlacementOf;
    forall i | 0 <= i < |frame| && Visible(frame[i])
      ensures Held(h, after, frame[i])
    {
      assert Held(h, c, frame[i]);
      assert IsKeyOf(h, frame, KeyOf(h, frame[i]));
    }
  }

  /** Without collisions it is enough that every placement is supplied. */
  lemma SuppliedFrameIsShown(h: Hashes, used: set<Content>, c: Cache, frame: seq<HostPlacement>,
                             viewChanged: bool, drops: seq<Id>, stale: seq<Key>)
    requires Closed(c) && Grounded(h, used, c.images)
    requires CollisionFree(h, used) && InUse(used, frame) && WellKeyed(h, frame)
    requires ValidOrders(h, c, frame, viewChanged, drops, stale)
    requires SuppliedUpTo(h, c, frame, |frame|)
    ensures var c' := Update(h, c, frame, viewChanged, drops, stale).0;
            && c'.placements == Desired(h, frame)
            && AllHeld(h, c', frame)
            && c'.sources == SourcesAfter(h, Retained(c, frame), frame)
            && ImagesFollowSources(Base(c, frame, drops).cache, c')
  {
    forall i | 0 <= i < |frame|
      ensures Good(h, c, frame, i)
    {
      SuppliedIsGood(h, used, c, frame, i);
      assert Supplied(h, c, frame, i);
    }
    hide Good, Supplied, WellKeyed, ValidOrders, Update, Closed;
    GoodFrameIsShown(h, c, frame, viewChanged, drops, stale);
  }

  lemma HeldKeysAreCached(h: Hashes, c: Cache, frame: seq<HostPlacement>)
    requires AllHeld(h, c, frame)
    ensures forall k :: IsKeyOf(h, frame, k) ==> k in c.placements
  {
    forall k | IsKeyOf(h, frame, k)
      ensures k in c.placements
    {
      var i :| 0 <= i < |frame| && Visible(frame[i]) && KeyOf(h, frame[i]) == k;
      assert Held(h, c, frame[i]);
    }
  }

  // --- The converse ---

  lemma ProcessShowsOnlyItsKey(h: Hashes, w: Work, p: HostPlacement, viewChanged: bool, k: Key)
    requires Visible(p) ==> KeyOf(h, p) != k
    ensures k !in w.cache.placements ==> k !in Process(h, w, p, viewChanged).cache.placements
    ensures k !in w.current ==> k !in Process(h, w, p, viewChanged).current
  {
    hide Visible, KeyOf, ImageIdOf, SignatureOf, PlacementOf;
  }

  /** The placement is not on its way to the screen: not displayed, or not claimed. */
  predicate Missing(w: Work, k: Key) {
    k !in w.cache.placements || k !in w.current
  }

  lemma {:induction false} StaysMissing(h: Hashes, b: Work, frame: seq<HostPlacement>, viewChanged: bool,
                                        k: Key, from: nat, n: nat)
    requires from <= n <= |frame|
    requires Missing(ProcessAll(h, b, frame[..from], viewChanged), k)
    requires forall j :: from <= j < n && Visible(frame[j]) ==> KeyOf(h, frame[j]) != k
    ensures Missing(ProcessAll(h, b, frame[..n], viewChanged), k)
    decreases n
  {
    if from < n {
      StaysMissing(h, b, frame, viewChanged, k, from, n - 1);
      Slices(frame, n);
      hide Process, KeyOf, Visible;
      ProcessShowsOnlyItsKey(h, ProcessAll(h, b, frame[..n - 1], viewChanged), frame[n - 1], viewChanged, k);
    }
  }

  lemma {:induction false} FirstBad(h: Hashes, c: Cache, frame: seq<HostPlacement>, n: nat) returns (i: nat)
    requires n <= |frame| && !GoodUpTo(h, c, frame, n)
    ensures i < n && GoodUpTo(h, c, frame, i) && !Good(h, c, frame, i)
  {
    hide Good;
    i := 0;
    while Good(h, c, frame, i)
      invariant i < n && GoodUpTo(h, c, frame, i)
      decreases n - i
    {
      i := i + 1;
    }
  }

  /** A placement that is not displayable is missing right after its turn. */
  lemma UndisplayableIsMissing(h: Hashes, c: Cache, frame: seq<HostPlacement>, drops: seq<Id>, viewChanged: bool,
                               i: nat)
    requires Closed(c) && Enumerates(drops, RemovedLayerImages(c, frame)) && i < |frame|
    requires Progress(h, Base(c, frame, drops).cache, frame[..i], AtTurn(h, c, frame, drops, viewChanged, i))
    requires !Displayable(h, c, frame, i) && Agrees(h, frame, i)
    ensures Visible(frame[i])
    ensures Missing(Process(h, AtTurn(h, c, frame, drops, viewChanged, i), frame[i], viewChanged), KeyOf(h, frame[i]))
  {
    var w, p := AtTurn(h, c, frame, drops, viewChanged, i), frame[i];
    TurnFacts(h, c, frame, drops, viewChanged, i);
    assert Closed(w.cache);
    hide AtTurn, Base, Progress, Ready, Overwrites, Agrees, Process, Visible, PlacementOf, SignatureOf, Superseded;
    hide RemovedLayerImages;
    if !Collides(h, w.cache.images, p) {
      StarvedEffect(h, w, p, viewChanged);
    } else if p.placement.data == [] {
      StarvedOverwriteEffect(h, w, p, viewChanged);
    } else {
      ProcessEffect(h, w, p, viewChanged);
    }
  }

  /** Two contents under one id: the later placement wipes the earlier one off. */
  lemma DisagreementIsMissing(h: Hashes, c: Cache, frame: seq<HostPlacement>, drops: seq<Id>, viewChanged: bool,
                              i: nat)
    returns (j: nat)
    requires Closed(c) && WellKeyed(h, frame) && i < |frame|
    requires Progress(h, Base(c, frame, drops).cache, frame[..i], AtTurn(h, c, frame, drops, viewChanged, i))
    requires !Agrees(h, frame, i)
    ensures j < i && Visible(frame[j])
    ensures Missing(Process(h, AtTurn(h, c, frame, drops, viewChanged, i), frame[i], viewChanged), KeyOf(h, frame[j]))
  {
    var w, p := AtTurn(h, c, frame, drops, viewChanged, i), frame[i];
    assert AllHeld(h, w.cache, frame[..i]);
    hide AtTurn, Base, Progress, Visible, SignatureOf, PlacementOf;
    j :| 0 <= j < i && Visible(frame[j]) && Visible(p) && ImageIdOf(h, frame[j]) == ImageIdOf(h, p)
         && SignatureOf(frame[j]) != SignatureOf(p);
    assert frame[j] == frame[..i][j];
    assert Held(h, w.cache, frame[j]);
    assert Collides(h, w.cache.images, p) && KeyOf(h, frame[j]) != KeyOf(h, p);
    assert KeyOf(h, frame[j]).0 == ImageIdOf(h, p);
    hide WellKeyed, ImageIdOf, KeyOf, Collides, Held, AllHeld;
    WipedByCollision(h, w, p, viewChanged, KeyOf(h, frame[j]));
  }

  lemma WipedByCollision(h: Hashes, w: Work, p: HostPlacement, viewChanged: bool, k: Key)
    requires Visible(p) && Collides(h, w.cache.images, p) && k.0 == ImageIdOf(h, p) && k != KeyOf(h, p)
    ensures k !in Process(h, w, p, viewChanged).cache.placements
  {
    if p.placement.data == [] {
      StarvedOverwriteEffect(h, w, p, viewChanged);
    } else {
      ProcessEffect(h, w, p, viewChanged);
    }
    hide Process, Visible, SignatureOf, PlacementOf, ImageIdOf, Superseded;
  }

  /** The first placement that is not good leaves a visible placement missing, itself or an
      earlier one. */
  lemma FirstBadIsMissing(h: Hashes, c: Cache, frame: seq<HostPlacement>, drops: seq<Id>, viewChanged: bool)
    returns (i: nat, j: nat)
    requires Closed(c) && WellKeyed(h, frame) && Enumerates(drops, RemovedLayerImages(c, frame))
    requires !GoodUpTo(h, c, frame, |frame|)
    ensures j <= i < |frame| && Visible(frame[j])
    ensures Missing(AtTurn(h, c, frame, drops, viewChanged, i + 1), KeyOf(h, frame[j]))
  {
    hide Visible, KeyOf, WellKeyed, Closed, Enumerates, Process, Progress, Missing, RemovedLayerImages;
    i := FirstBad(h, c, frame, |frame|);
    PrefixProgress(h, c, frame, viewChanged, drops, i);
    NextTurn(h, c, frame, drops, viewChanged, i);
    hide Displayable, GoodUpTo, AtTurn, Base;
    if Agrees(h, frame, i) {
      j := i;
      UndisplayableIsMissing(h, c, frame, drops, viewChanged, i);
    } else {
      j := DisagreementIsMissing(h, c, frame, drops, viewChanged, i);
    }
  }

  lemma NextTurn(h: Hashes, c: Cache, frame: seq<HostPlacement>, drops: seq<Id>, viewChanged: bool, i: nat)
    requires i < |frame|
    ensures AtTurn(h, c, frame, drops, viewChanged, i + 1)
            == Process(h, AtTurn(h, c, frame, drops, viewChanged, i), frame[i], viewChanged)
  {
    hide Process, Base;
    Slices(frame, i + 1);
  }

  lemma MissingAtTheEnd(h: Hashes, c: Cache, frame: seq<HostPlacement>, drops: seq<Id>, viewChanged: bool,
                        j: nat, n: nat)
    requires WellKeyed(h, frame) && j < n <= |frame| && Visible(frame[j])
    requires Missing(AtTurn(h, c, frame, drops, viewChanged, n), KeyOf(h, frame[j]))
    ensures Missing(ProcessAll(h, Base(c, frame, drops), frame, viewChanged), KeyOf(h, frame[j]))
  {
    KeysDiffer(h, frame, j, n);
    hide Visible, KeyOf, WellKeyed, ProcessAll, Base, Missing;
    StaysMissing(h, Base(c, frame, drops), frame, viewChanged, KeyOf(h, frame[j]), n, |frame|);
    assert frame[..|frame|] == frame;
  }

  /** Some placement of the frame that is not good keeps the frame from being shown. */
  lemma BadFrameIsNotShown(h: Hashes, c: Cache, frame: seq<HostPlacement>,
                           viewChanged: bool, drops: seq<Id>, stale: seq<Key>)
    requires Closed(c) && WellKeyed(h, frame)
    requires ValidOrders(h, c, frame, viewChanged, drops, stale)
    requires !GoodUpTo(h, c, frame, |frame|)
    ensures Update(h, c, frame, viewChanged, drops, stale).0.placements != Desired(h, frame)
  {
    hide Update, Closed, AtTurn, ProcessAll, Base, Visible, KeyOf, WellKeyed, Desired, GoodUpTo;
    hide Painted, Stale, Enumerates, RemovedLayerImages;
    UpdateEffect(h, c, frame, viewChanged, drops, stale);
    var i, j := FirstBadIsMissing(h, c, frame, drops, viewChanged);
    MissingAtTheEnd(h, c, frame, drops, viewChanged, j, i + 1);
    DesiredValue(h, frame, j);
  }

  lemma KeysDiffer(h: Hashes, frame: seq<HostPlacement>, j: nat, from: nat)
    requires WellKeyed(h, frame) && j < from <= |frame| && Visible(frame[j])
    ensures forall m :: from <= m < |frame| && Visible(frame[m]) ==> KeyOf(h, frame[m]) != KeyOf(h, frame[j])
  {
    hide Visible, KeyOf, ImageIdOf;
  }

  /** The update shows exactly the frame if and only if its placements agree on the content
      behind each id, every one has data or a ready image when its turn comes, and every
      one that overwrites cached content has data and was not cached under its own key.
      All of it can be told from cache and frame alone. */
  lemma FrameShownIff(h: Hashes, c: Cache, frame: seq<HostPlacement>,
                      viewChanged: bool, drops: seq<Id>, stale: seq<Key>)
    requires Closed(c) && WellKeyed(h, frame)
    requires ValidOrders(h, c, frame, viewChanged, drops, stale)
    ensures Update(h, c, frame, viewChanged, drops, stale).0.placements == Desired(h, frame)
            <==> forall i :: 0 <= i < |frame| ==> Displayable(h, c, frame, i) && Agrees(h, frame, i)
  {
    hide Update, Desired, Displayable, Agrees, ValidOrders, WellKeyed, Closed;
    assert forall i :: 0 <= i < |frame| ==>
      (Good(h, c, frame, i) <==> Displayable(h, c, frame, i) && Agrees(h, frame, i));
    if GoodUpTo(h, c, frame, |frame|) {
      GoodFrameIsShown(h, c, frame, viewChanged, drops, stale);
    } else {
      BadFrameIsNotShown(h, c, frame, viewChanged, drops, stale);
    }
  }

  /** Without collisions only the data matters. */
  lemma FrameShownIffSupplied(h: Hashes, used: set<Content>, c: Cache, frame: seq<HostPlacement>,
                              viewChanged: bool, drops: seq<Id>, stale: seq<Key>)
    requires Closed(c) && Grounded(h, used, c.images)
    requires CollisionFree(h, used) && InUse(used, frame) && WellKeyed(h, frame)
    requires ValidOrders(h, c, frame, viewChanged, drops, stale)
    ensures Update(h, c, frame, viewChanged, drops, stale).0.placements == Desired(h, frame)
            <==> forall i :: 0 <= i < |frame| ==> Supplied(h, c, frame, i)
  {
    forall i | 0 <= i < |frame|
      ensures Displayable(h, c, frame, i) && Agrees(h, frame, i) <==> Supplied(h, c, frame, i)
    {
      SuppliedIsGood(h, used, c, frame, i);
    }
    hide Update, Desired, Displayable, Agrees, Supplied, ValidOrders, WellKeyed, Closed;
    FrameShownIff(h, c, frame, viewChanged, drops, stale);
  }
}
