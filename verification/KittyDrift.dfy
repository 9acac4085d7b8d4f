/** How cache and host can come apart, on a run from the empty cache. */
module KittyDrift {
  import opened Wrappers
  import opened Bytes
  import opened KittyTypes
  import opened KittyCache
  import opened KittyHost
  import opened KittySessions
  import opened KittyRefinement
  import opened KittyFrames
  import opened KittyCollect

  /** A colliding placement without pixels: the image is deleted on the host, but it stays
      in the cache. */
  lemma CollisionDrifts(h: Hashes, host: Host, w: Work, p: HostPlacement, viewChanged: bool)
    requires Visible(p) && Collides(h, w.cache.images, p) && p.placement.data == []
    ensures var r := Process(h, w, p, viewChanged);
            ImageIdOf(h, p) in r.cache.images && ImageIdOf(h, p) !in ExecAll(host, r.out).images
  {
    hide Visible, ImageIdOf, SignatureOf, KeyOf, Release, Show, WithoutImage, KeysOf, ExecAll, Accepts;
    ExecSnoc(host, w.out, DeleteImage(ImageIdOf(h, p)));
  }

  lemma {:induction false} DeleteStaleKeepsImages(host: Host, w: Work, keys: seq<Key>)
    ensures DeleteStale(w, keys).cache.images == w.cache.images
    ensures ExecAll(host, DeleteStale(w, keys).out).images == ExecAll(host, w.out).images
    decreases |keys|
  {
    hide ExecAll, Accepts;
    if keys != [] {
      var front, k := keys[..|keys| - 1], keys[|keys| - 1];
      DeleteStaleKeepsImages(host, w, front);
      ExecSnoc(host, DeleteStale(w, front).out, DeletePlacement(k.0, k.1));
    }
  }

  /** A frame whose first placement takes over the one cached image and whose second asks
      for the old content without bringing it. */
  lemma TakeoverDrifts(fp: Fingerprint, h: Hashes, host: Host, c: Cache, q: HostPlacement, p: HostPlacement,
                       viewChanged: bool, stale: seq<Key>)
    requires Visible(p) && Visible(q) && p.source.Terminal? && q.source !in c.sources
    requires ImageIdOf(h, p) == ImageIdOf(h, q) && SignatureOf(p) != SignatureOf(q)
    requires q.placement.data != [] && p.placement.data == []
    ensures var (c', out) := Update(h, c, [q, p], viewChanged, [], stale); !Mirrors(fp, c', ExecAll(host, out))
  {
    hide Visible, ImageIdOf, SignatureOf, KeyOf, PlacementOf, ExecAll, DeleteStale;
    var frame := [q, p];
    var start := Pruned(c, frame);
    var w := Process(h, start, q, viewChanged);
    assert frame[..1] == [q] && frame[..0] == [] && [q][..0] == [];
    assert q.source !in start.cache.sources;
    assert Painted(h, c, frame, viewChanged, []) == Process(h, w, p, viewChanged) by {
      hide Process, Pruned;
      assert ProcessAll(h, start, frame[..1], viewChanged) == w;
    }
    ProcessEffect(h, start, q, viewChanged);
    assert Superseded(start.cache.sources, q.source, ImageIdOf(h, q)) == {};
    hide Process, Pruned, Painted, Visible, ImageIdOf, SignatureOf, KeyOf, PlacementOf, Superseded, Overwritten;
    assert Collides(h, w.cache.images, p);
    CollisionDrifts(h, host, w, p, viewChanged);
    DeleteStaleKeepsImages(host, Process(h, w, p, viewChanged), stale);
    hide DeleteStale, ExecAll;
  }

  // --- A run that gets there ---

  /** Every content gets the same id. */
  const COLLIDING_HASHES: Hashes :=
    Hashes((pane: int, sig: ImageSignature) => HOST_IMAGE_ID_BASE,
           (layer: bool, pane: int, image: int, k: int) => image)

  const FIRST_BYTE: Fingerprint := (data: seq<Byte>) => if data == [] then 0 else data[0]

  const PIXELS_A: seq<Byte> := [1, 0, 0, 0]
  const PIXELS_B: seq<Byte> := [2, 0, 0, 0]

  /** Image 1 shows content A. In the next frame image 2 shows B, whose id is that of A;
      image 1 still shows A, and its pixels are left out because A is cached when the frame
      is collected. Afterwards the cache holds an image that the host has deleted. */
  lemma DriftExample()
    ensures var h := COLLIDING_HASHES;
            var p := OneCell(1, 1, PIXELS_A);
            var (c, out) := Update(h, EMPTY, [p], true, [], []);
            var host := ExecAll(Host(map[], map[]), out);
            && ValidOrders(h, EMPTY, [p], true, [], []) && Mirrors(FIRST_BYTE, c, host)
            && WithheldIfCached(h, c.images, OneCell(1, 1, []))
            && forall viewChanged, stale ::
                 var (c', more) := Update(h, c, [OneCell(2, 2, PIXELS_B), OneCell(1, 1, [])], viewChanged, [], stale);
                 !Mirrors(FIRST_BYTE, c', ExecAll(host, more))
  {
    var h, p, q := COLLIDING_HASHES, OneCell(1, 1, PIXELS_A), OneCell(2, 2, PIXELS_B);
    var again := OneCell(1, 1, []);
    OneCellIsVisible(1, 1, PIXELS_A);
    OneCellIsVisible(2, 2, PIXELS_B);
    OneCellIsVisible(1, 1, []);
    FirstFrame(h, p);
    var (c, out) := Update(h, EMPTY, [p], true, [], []);
    var host := ExecAll(Host(map[], map[]), out);
    FirstFrameMirrors(h, p);
    assert q.source !in c.sources;
    forall viewChanged, stale
      ensures var (c', more) := Update(h, c, [q, again], viewChanged, [], stale);
              !Mirrors(FIRST_BYTE, c', ExecAll(host, more))
    {
      hide Update, Visible, Mirrors, ExecAll, ValidOrders;
      TakeoverDrifts(FIRST_BYTE, h, host, c, q, again, viewChanged, stale);
    }
  }

  lemma FirstFrameMirrors(h: Hashes, p: HostPlacement)
    requires Visible(p) && p.source.Terminal? && p.placement.data != [] && Truthful(FIRST_BYTE, p)
    ensures var (c, out) := Update(h, EMPTY, [p], true, [], []);
            Mirrors(FIRST_BYTE, c, ExecAll(Host(map[], map[]), out))
  {
    var used := {(p.pane, SignatureOf(p))};
    assert Admissible(FIRST_BYTE, h, used, [p]);
    assert Mirrors(FIRST_BYTE, EMPTY, Host(map[], map[])) && Grounded(h, used, EMPTY.images);
    hide Update, Visible, Mirrors, ExecAll, Admissible, Truthful, Grounded;
    UpdateKeepsMirror(FIRST_BYTE, h, used, Host(map[], map[]), EMPTY, [p], true, [], []);
  }
}
