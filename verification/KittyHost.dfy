/** The host terminal as a second state machine, and the proof that the cache mirrors it. */
module KittyHost {
  import opened Wrappers
  import opened Bytes
  import opened KittyTypes
  import opened KittyCache

  datatype HostImage = HostImage(format: U32, width: U32, height: U32, data: seq<Byte>)

  datatype HostPlacementState = HostPlacementState(shown: KittyTypes.Clipped, z: I32)

  datatype Host = Host(images: map<Id, HostImage>, placements: map<Key, HostPlacementState>)

  /** Execute one command. An upload replaces the image and its placements; deleting an
      image (`d=I`) drops its placements too; displaying an unknown image does nothing. */
  function Exec(host: Host, c: Command): Host {
    match c
    case Upload(id, format, width, height, data) =>
      Host(host.images[id := HostImage(format, width, height, data)], WithoutImage(host.placements, id))
    case Display(id, placement, shown, z) =>
      if id in host.images then
        host.(placements := host.placements[(id, placement) := HostPlacementState(shown, z)])
      else host
    case DeleteImage(id) => Host(host.images - {id}, WithoutImage(host.placements, id))
    case DeletePlacement(id, placement) => host.(placements := host.placements - {(id, placement)})
  }

  function ExecAll(host: Host, out: seq<Command>): Host {
    if out == [] then host else Exec(ExecAll(host, out[..|out| - 1]), out[|out| - 1])
  }

  /** No command displays an image the host lacks when the command arrives, and no upload
      replaces an image it holds. */
  predicate Accepts(host: Host, out: seq<Command>) {
    out == []
    || var before := ExecAll(host, out[..|out| - 1]);
       && Accepts(host, out[..|out| - 1])
       && (out[|out| - 1].Display? ==> out[|out| - 1].id in before.images)
       && (out[|out| - 1].Upload? ==> out[|out| - 1].id !in before.images)
  }

  lemma ExecSnoc(host: Host, out: seq<Command>, c: Command)
    ensures ExecAll(host, out + [c]) == Exec(ExecAll(host, out), c)
    ensures Accepts(host, out + [c])
            <==> && Accepts(host, out)
                 && (c.Display? ==> c.id in ExecAll(host, out).images)
                 && (c.Upload? ==> c.id !in ExecAll(host, out).images)
  {
    assert (out + [c])[..|out|] == out;
  }

  lemma {:induction false} ExecAppend(host: Host, a: seq<Command>, b: seq<Command>)
    ensures ExecAll(host, a + b) == ExecAll(ExecAll(host, a), b)
    ensures Accepts(host, a + b) <==> Accepts(host, a) && Accepts(ExecAll(host, a), b)
    decreases |b|
  {
    if b == [] {
      assert a + b == a;
    } else {
      assert (a + b)[..|a + b| - 1] == a + b[..|b| - 1];
      ExecAppend(host, a, b[..|b| - 1]);
    }
  }

  // --- The mirror ---

  type Fingerprint = seq<Byte> -> int

  function Describe(fp: Fingerprint, image: HostImage): ImageSignature {
    ImageSignature(image.width, image.height, image.format, |image.data|, fp(image.data))
  }

  predicate ImagesMatch(fp: Fingerprint, cached: map<Id, ImageSignature>, held: map<Id, HostImage>) {
    held.Keys == cached.Keys && forall id :: id in cached ==> Describe(fp, held[id]) == cached[id]
  }

  predicate PlacementsMatch(cached: map<Key, PlacementSignature>, held: map<Key, HostPlacementState>) {
    && held.Keys == cached.Keys
    && forall k :: k in cached ==> held[k] == HostPlacementState(cached[k].shown, cached[k].z)
  }

  /** Every placement and every source belongs to a cached image. */
  predicate Closed(c: Cache) {
    && (forall k :: k in c.placements ==> k.0 in c.images)
    && (forall s :: s in c.sources ==> c.sources[s] in c.images)
  }

  /** The host holds exactly the cached images and placements, every placement and every
      source belongs to a cached image. */
  predicate Mirrors(fp: Fingerprint, c: Cache, host: Host) {
    ImagesMatch(fp, c.images, host.images) && PlacementsMatch(c.placements, host.placements) && Closed(c)
  }

  /** Attached pixel data is the data the signature was computed from. */
  predicate Truthful(fp: Fingerprint, p: HostPlacement) {
    p.placement.data != [] ==>
      p.placement.dataLen == |p.placement.data| && p.placement.fingerprint == fp(p.placement.data)
  }

  /** Executing the commands sent so far, from `host`, gives what the caches say. */
  predicate InStep(fp: Fingerprint, host: Host, w: Work) {
    Mirrors(fp, w.cache, ExecAll(host, w.out)) && Accepts(host, w.out)
  }

  /** The mismatch arm: the id is cached for different content. */
  predicate Collides(h: Hashes, images: map<Id, ImageSignature>, p: HostPlacement) {
    ImageIdOf(h, p) in images && images[ImageIdOf(h, p)] != SignatureOf(p)
  }

  // --- One command ---

  lemma ImageRemoved(fp: Fingerprint, cached: map<Id, ImageSignature>, held: map<Id, HostImage>, id: Id)
    requires ImagesMatch(fp, cached, held)
    ensures ImagesMatch(fp, cached - {id}, held - {id})
  {
    hide Describe;
  }

  lemma ImageAdded(fp: Fingerprint, cached: map<Id, ImageSignature>, held: map<Id, HostImage>, id: Id, image: HostImage)
    requires ImagesMatch(fp, cached, held)
    ensures ImagesMatch(fp, cached[id := Describe(fp, image)], held[id := image])
  {
    hide Describe;
  }

  lemma PlacementsRemoved(cached: map<Key, PlacementSignature>, held: map<Key, HostPlacementState>, id: Id)
    requires PlacementsMatch(cached, held)
    ensures PlacementsMatch(WithoutImage(cached, id), WithoutImage(held, id))
  {
  }

  lemma PlacementAdded(cached: map<Key, PlacementSignature>, held: map<Key, HostPlacementState>, k: Key,
                       p: PlacementSignature)
    requires PlacementsMatch(cached, held)
    ensures PlacementsMatch(cached[k := p], held[k := HostPlacementState(p.shown, p.z)])
  {
  }

  /** Forget an image and its placements. */
  function Deleted(c: Cache, id: Id): Cache {
    c.(images := c.images - {id}, placements := WithoutImage(c.placements, id))
  }

  lemma DeletedStaysClosed(c: Cache, id: Id)
    requires Closed(c) && !RefersTo(c.sources, id)
    ensures Closed(Deleted(c, id))
  {
    assert forall s :: s in c.sources ==> c.sources[s] != id;
    hide RefersTo;
  }

  lemma DeleteMirrors(fp: Fingerprint, c: Cache, host: Host, id: Id)
    requires Mirrors(fp, c, host) && !RefersTo(c.sources, id)
    ensures Mirrors(fp, Deleted(c, id), Exec(host, DeleteImage(id)))
  {
    DeletedStaysClosed(c, id);
    ImageRemoved(fp, c.images, host.images, id);
    PlacementsRemoved(c.placements, host.placements, id);
    hide RefersTo, ImagesMatch, PlacementsMatch, WithoutImage, Closed;
  }

  /** A source that moves to a cached image. */
  lemma MovedSourceStaysClosed(c: Cache, source: SourceKey, id: Id)
    requires Closed(c) && id in c.images
    ensures Closed(c.(sources := c.sources[source := id]))
  {
  }

  /** Sending one command from a mirrored, or almost mirrored, state. */
  lemma Sent(fp: Fingerprint, host: Host, w: Work, c: Command, after: Work)
    requires Accepts(host, w.out) && after.out == w.out + [c]
    requires Mirrors(fp, after.cache, Exec(ExecAll(host, w.out), c))
    requires c.Display? ==> c.id in ExecAll(host, w.out).images
    requires c.Upload? ==> c.id !in ExecAll(host, w.out).images
    ensures InStep(fp, host, after)
  {
    hide Mirrors, Exec, ExecAll, Accepts;
    ExecSnoc(host, w.out, c);
  }

  // --- Each step keeps the mirror ---

  lemma DropKeepsStep(fp: Fingerprint, host: Host, w: Work, id: Id)
    requires InStep(fp, host, w)
    ensures InStep(fp, host, DropUnreferenced(w, id))
  {
    hide Mirrors, Exec, ExecAll, Accepts, RefersTo;
    if !RefersTo(w.cache.sources, id) {
      DeleteMirrors(fp, w.cache, ExecAll(host, w.out), id);
      Sent(fp, host, w, DeleteImage(id), DropUnreferenced(w, id));
    }
  }

  lemma {:induction false} DropAllKeepsStep(fp: Fingerprint, host: Host, w: Work, ids: seq<Id>)
    requires InStep(fp, host, w)
    ensures InStep(fp, host, DropAll(w, ids))
    decreases |ids|
  {
    if ids != [] {
      hide InStep, DropUnreferenced;
      DropAllKeepsStep(fp, host, w, ids[..|ids| - 1]);
      DropKeepsStep(fp, host, DropAll(w, ids[..|ids| - 1]), ids[|ids| - 1]);
    }
  }

  function ImageFrom(p: HostPlacement): HostImage {
    HostImage(FormatCode(p.placement.format), p.placement.imageWidth, p.placement.imageHeight, p.placement.data)
  }

  lemma UploadDescribes(fp: Fingerprint, p: HostPlacement)
    requires Truthful(fp, p) && p.placement.data != []
    ensures Describe(fp, ImageFrom(p)) == SignatureOf(p)
  {
  }

  /** An image that is not cached is uploaded. */
  lemma UploadMirrors(fp: Fingerprint, h: Hashes, c: Cache, host: Host, p: HostPlacement)
    requires Mirrors(fp, c, host) && Truthful(fp, p) && p.placement.data != [] && ImageIdOf(h, p) !in c.images
    ensures Mirrors(fp, c.(images := c.images[ImageIdOf(h, p) := SignatureOf(p)]), Exec(host, UploadOf(h, p)))
  {
    var id := ImageIdOf(h, p);
    UploadDescribes(fp, p);
    ImageAdded(fp, c.images, host.images, id, ImageFrom(p));
    assert WithoutImage(host.placements, id) == host.placements;
    hide ImagesMatch, PlacementsMatch, WithoutImage, SignatureOf, ImageIdOf, Describe;
  }

  /** The cached content is deleted and the new one uploaded under the same id. */
  lemma ReplaceMirrors(fp: Fingerprint, h: Hashes, c: Cache, host: Host, p: HostPlacement)
    requires Mirrors(fp, c, host) && Truthful(fp, p) && p.placement.data != [] && ImageIdOf(h, p) in c.images
    ensures var id := ImageIdOf(h, p);
            Mirrors(fp, c.(images := c.images[id := SignatureOf(p)], placements := WithoutImage(c.placements, id)),
                    Exec(Exec(host, DeleteImage(id)), UploadOf(h, p)))
  {
    var id := ImageIdOf(h, p);
    UploadDescribes(fp, p);
    PlacementsRemoved(c.placements, host.placements, id);
    ImageAdded(fp, c.images, host.images, id, ImageFrom(p));
    assert WithoutImage(WithoutImage(host.placements, id), id) == WithoutImage(host.placements, id);
    assert (host.images - {id})[id := ImageFrom(p)] == host.images[id := ImageFrom(p)];
    ReplacedStaysClosed(c, id, SignatureOf(p));
    hide ImagesMatch, PlacementsMatch, WithoutImage, SignatureOf, ImageIdOf, Describe, Closed;
  }

  lemma ReplacedStaysClosed(c: Cache, id: Id, sig: ImageSignature)
    requires Closed(c) && id in c.images
    ensures Closed(c.(images := c.images[id := sig], placements := WithoutImage(c.placements, id)))
  {
  }

  /** Uploading keeps host and cache in step unless an id collides and the placement
      carries no data: then the cached image stays behind after the host lost it. */
  lemma EnsureKeepsStepIff(fp: Fingerprint, h: Hashes, host: Host, w: Work, p: HostPlacement)
    requires InStep(fp, host, w) && Truthful(fp, p)
    ensures var (w', held) := EnsureImage(h, w, p);
            && (InStep(fp, host, w') <==> !(Collides(h, w.cache.images, p) && p.placement.data == []))
            && (held ==> ImageIdOf(h, p) in w'.cache.images && w'.cache.images[ImageIdOf(h, p)] == SignatureOf(p))
            && w'.cache.sources == w.cache.sources
  {
    var id := ImageIdOf(h, p);
    var (w', held) := EnsureImage(h, w, p);
    assert ExecAll(host, w.out).images.Keys == w.cache.images.Keys;
    hide Mirrors, Exec, ExecAll, Accepts, SignatureOf, ImageIdOf, WithoutImage, KeysOf, Truthful;
    if Collides(h, w.cache.images, p) {
      CollisionDeletes(host, w.out, id);
      if p.placement.data == [] {
        DeletedIsNotMirrored(fp, host, w', id);
      } else {
        ReplaceMirrors(fp, h, w.cache, ExecAll(host, w.out), p);
        var deleted := w.(out := w.out + [DeleteImage(id)]);
        Sent(fp, host, deleted, UploadOf(h, p), w');
      }
    } else if id !in w.cache.images && p.placement.data != [] {
      UploadMirrors(fp, h, w.cache, ExecAll(host, w.out), p);
      Sent(fp, host, w, UploadOf(h, p), w');
    }
  }

  lemma CollisionDeletes(host: Host, out: seq<Command>, id: Id)
    ensures var all := out + [DeleteImage(id)];
            && ExecAll(host, all) == Exec(ExecAll(host, out), DeleteImage(id))
            && id !in ExecAll(host, all).images
            && (Accepts(host, all) <==> Accepts(host, out))
  {
    ExecSnoc(host, out, DeleteImage(id));
    hide ExecAll, Accepts;
  }

  lemma DeletedIsNotMirrored(fp: Fingerprint, host: Host, w: Work, id: Id)
    requires id in w.cache.images && id !in ExecAll(host, w.out).images
    ensures !InStep(fp, host, w)
  {
    hide ExecAll, Accepts;
  }

  lemma ReleaseKeepsStep(fp: Fingerprint, host: Host, w: Work, source: SourceKey, id: Id)
    requires InStep(fp, host, w) && id in w.cache.images
    ensures InStep(fp, host, Release(w, source, id))
    ensures var c := Release(w, source, id).cache;
            id in c.images && c.images[id] == w.cache.images[id] && c.sources == w.cache.sources[source := id]
  {
    var moved := w.cache.(sources := w.cache.sources[source := id]);
    MovedSourceStaysClosed(w.cache, source, id);
    assert Mirrors(fp, moved, ExecAll(host, w.out));
    var r := Release(w, source, id);
    hide Mirrors, Exec, ExecAll, Accepts, RefersTo, WithoutImage, KeysOf;
    if r.out != w.out {
      var previous := w.cache.sources[source];
      DeleteMirrors(fp, moved, ExecAll(host, w.out), previous);
      Sent(fp, host, w, DeleteImage(previous), r);
    }
  }

  lemma ShowKeepsStep(fp: Fingerprint, h: Hashes, host: Host, w: Work, p: HostPlacement, viewChanged: bool)
    requires Visible(p) && InStep(fp, host, w) && ImageIdOf(h, p) in w.cache.images
    ensures InStep(fp, host, Show(h, w, p, viewChanged))
  {
    var r := Show(h, w, p, viewChanged);
    if r.out != w.out {
      DisplayMirrors(fp, h, w.cache, ExecAll(host, w.out), p);
      hide Mirrors, Exec, ExecAll, Accepts, Visible, PlacementOf, KeyOf, ImageIdOf, DisplayOf;
      assert KeyOf(h, p).0 == ImageIdOf(h, p) by { KeyIsOfImage(h, p); }
      DisplayNamesImage(h, p);
      SameImages(fp, host, w);
      Sent(fp, host, w, DisplayOf(h, p), r);
    }
  }

  lemma KeyIsOfImage(h: Hashes, p: HostPlacement)
    ensures KeyOf(h, p).0 == ImageIdOf(h, p)
  {
  }

  lemma DisplayNamesImage(h: Hashes, p: HostPlacement)
    requires Visible(p)
    ensures DisplayOf(h, p).Display? && DisplayOf(h, p).id == ImageIdOf(h, p)
  {
  }

  lemma SameImages(fp: Fingerprint, host: Host, w: Work)
    requires InStep(fp, host, w)
    ensures ExecAll(host, w.out).images.Keys == w.cache.images.Keys
  {
    hide ExecAll, Accepts;
  }

  lemma DisplayMirrors(fp: Fingerprint, h: Hashes, c: Cache, host: Host, p: HostPlacement)
    requires Visible(p) && Mirrors(fp, c, host) && ImageIdOf(h, p) in c.images
    ensures Mirrors(fp, c.(placements := c.placements[KeyOf(h, p) := PlacementOf(p)]), Exec(host, DisplayOf(h, p)))
  {
    KeyIsOfImage(h, p);
    PlacementAdded(c.placements, host.placements, KeyOf(h, p), PlacementOf(p));
    hide ImagesMatch, PlacementsMatch, Visible, ImageIdOf;
    assert ImageIdOf(h, p) in host.images by { MirroredImage(fp, c, host, ImageIdOf(h, p)); }
  }

  lemma MirroredImage(fp: Fingerprint, c: Cache, host: Host, id: Id)
    requires Mirrors(fp, c, host) && id in c.images
    ensures id in host.images
  {
  }

  /** One placement keeps the mirror exactly when it does not hit the drifting arm. */
  lemma ProcessKeepsStepIff(fp: Fingerprint, h: Hashes, host: Host, w: Work, p: HostPlacement, viewChanged: bool)
    requires InStep(fp, host, w) && Truthful(fp, p)
    ensures InStep(fp, host, Process(h, w, p, viewChanged))
            <==> !(Visible(p) && Collides(h, w.cache.images, p) && p.placement.data == [])
  {
    if Visible(p) {
      var claimed := w.(current := w.current + {KeyOf(h, p)});
      EnsureKeepsStepIff(fp, h, host, claimed, p);
      var (w', held) := EnsureImage(h, claimed, p);
      hide EnsureImage, Mirrors, Show, Release, ExecAll, Accepts, SignatureOf, ImageIdOf, PlacementOf;
      if held {
        if InStep(fp, host, w') {
          ReleaseKeepsStep(fp, host, w', p.source, ImageIdOf(h, p));
          ShowKeepsStep(fp, h, host, Release(w', p.source, ImageIdOf(h, p)), p, viewChanged);
        }
      }
    }
  }
}
