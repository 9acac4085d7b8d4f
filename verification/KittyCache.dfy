/** The incremental updater of `kitty_graphics.rs`: what one frame does to the three
    cached maps and which commands it sends. The class at the end is the imperative form. */
module KittyCache {
  import opened Wrappers
  import opened Bytes
  import opened KittyTypes
  import opened KittyClip

  type Key = (Id, Id)

  datatype PlacementSignature = PlacementSignature(shown: Clipped, z: I32, scrollback: U32)

  datatype Cache = Cache(images: map<Id, ImageSignature>,
                         placements: map<Key, PlacementSignature>,
                         sources: map<SourceKey, Id>)

  const EMPTY: Cache := Cache(map[], map[], map[])

  /** The hash functions behind the ids. The placement hash covers whether the source is a
      pane layer, the pane, and the image and placement ids the pane's program chose. */
  datatype Hashes = Hashes(imageId: (int, ImageSignature) -> Id,
                           placementId: (bool, int, int, int) -> Id)

  datatype Command =
    | Upload(id: Id, format: U32, width: U32, height: U32, data: seq<Byte>)
    | Display(id: Id, placement: Id, shown: Clipped, z: I32)
    | DeleteImage(id: Id)
    | DeletePlacement(id: Id, placement: Id)

  // --- One placement of a frame ---

  predicate Visible(p: HostPlacement) {
    Clip(p).Some?
  }

  function SignatureOf(p: HostPlacement): ImageSignature {
    ImageSignature(p.placement.imageWidth, p.placement.imageHeight, FormatCode(p.placement.format),
                   p.placement.dataLen, p.placement.fingerprint)
  }

  function ImageIdOf(h: Hashes, p: HostPlacement): Id {
    h.imageId(p.pane, SignatureOf(p))
  }

  function KeyOf(h: Hashes, p: HostPlacement): Key {
    (ImageIdOf(h, p), h.placementId(p.source.PaneLayer?, p.source.pane, p.placement.imageId, p.placement.placementId))
  }

  function PlacementOf(p: HostPlacement): PlacementSignature
    requires Visible(p)
  {
    PlacementSignature(Clip(p).value, p.placement.z, p.scrollback)
  }

  function UploadOf(h: Hashes, p: HostPlacement): Command {
    Upload(ImageIdOf(h, p), FormatCode(p.placement.format), p.placement.imageWidth, p.placement.imageHeight,
           p.placement.data)
  }

  function DisplayOf(h: Hashes, p: HostPlacement): Command
    requires Visible(p)
  {
    Display(KeyOf(h, p).0, KeyOf(h, p).1, Clip(p).value, p.placement.z)
  }

  // --- Pieces of the update ---

  predicate RefersTo(sources: map<SourceKey, Id>, id: Id) {
    exists s :: s in sources && sources[s] == id
  }

  function KeysOf<T>(m: map<Key, T>, id: Id): set<Key> {
    set k | k in m && k.0 == id
  }

  function WithoutImage<T>(m: map<Key, T>, id: Id): map<Key, T> {
    map k | k in m && k.0 != id :: m[k]
  }

  /** The sources that survive pruning: everything a terminal still shows, clipped or not,
      and the pane layers that are visible. */
  predicate IsCurrentSource(frame: seq<HostPlacement>, s: SourceKey) {
    exists i :: 0 <= i < |frame| && frame[i].source == s && (s.Terminal? || Visible(frame[i]))
  }

  function Retained(c: Cache, frame: seq<HostPlacement>): map<SourceKey, Id> {
    map s | s in c.sources && IsCurrentSource(frame, s) :: c.sources[s]
  }

  /** The images of pane layers that left the screen. */
  function RemovedLayerImages(c: Cache, frame: seq<HostPlacement>): set<Id> {
    set s | s in c.sources && s.PaneLayer? && !IsCurrentSource(frame, s) :: c.sources[s]
  }

  /** The caches, the placements this frame has claimed so far and the commands sent. */
  datatype Work = Work(cache: Cache, current: set<Key>, out: seq<Command>)

  /** Delete a removed layer's image unless another source still shows it. */
  function DropUnreferenced(w: Work, id: Id): Work {
    if RefersTo(w.cache.sources, id) then w
    else
      w.(cache := w.cache.(images := w.cache.images - {id},
                           placements := WithoutImage(w.cache.placements, id)),
         out := w.out + [DeleteImage(id)])
  }

  function DropAll(w: Work, ids: seq<Id>): Work {
    if ids == [] then w else DropUnreferenced(DropAll(w, ids[..|ids| - 1]), ids[|ids| - 1])
  }

  /** Make sure the host holds the image; `None` where the source skips the placement. */
  function EnsureImage(h: Hashes, w: Work, p: HostPlacement): (Work, bool) {
    var id, sig := ImageIdOf(h, p), SignatureOf(p);
    if id in w.cache.images && w.cache.images[id] == sig then (w, true)
    else
      var w' :=
        if id in w.cache.images then
          w.(cache := w.cache.(placements := WithoutImage(w.cache.placements, id)),
             current := w.current - KeysOf(w.cache.placements, id),
             out := w.out + [DeleteImage(id)])
        else w;
      if p.placement.data == [] then (w', false)
      else
        (w'.(cache := w'.cache.(images := w'.cache.images[id := sig]), out := w'.out + [UploadOf(h, p)]), true)
  }

  /** `release_superseded_source_image`. */
  function Release(w: Work, source: SourceKey, id: Id): Work {
    var sources := w.cache.sources[source := id];
    var w' := w.(cache := w.cache.(sources := sources));
    if source !in w.cache.sources || w.cache.sources[source] == id
       || RefersTo(sources, w.cache.sources[source]) then w'
    else
      var previous := w.cache.sources[source];
      w'.(cache := w'.cache.(images := w'.cache.images - {previous},
                             placements := WithoutImage(w'.cache.placements, previous)),
          current := w'.current - KeysOf(w'.cache.placements, previous),
          out := w'.out + [DeleteImage(previous)])
  }

  /** Emit the placement unless the host already shows it like this. */
  function Show(h: Hashes, w: Work, p: HostPlacement, viewChanged: bool): Work
    requires Visible(p)
  {
    var key := KeyOf(h, p);
    if key in w.cache.placements && !viewChanged && w.cache.placements[key] == PlacementOf(p) then w
    else
      w.(cache := w.cache.(placements := w.cache.placements[key := PlacementOf(p)]),
         out := w.out + [DisplayOf(h, p)])
  }

  function Process(h: Hashes, w: Work, p: HostPlacement, viewChanged: bool): Work {
    if !Visible(p) then w
    else
      var (w', held) := EnsureImage(h, w.(current := w.current + {KeyOf(h, p)}), p);
      if !held then w'
      else Show(h, Release(w', p.source, ImageIdOf(h, p)), p, viewChanged)
  }

  function ProcessAll(h: Hashes, w: Work, frame: seq<HostPlacement>, viewChanged: bool): Work {
    if frame == [] then w
    else
      Process(h, ProcessAll(h, w, frame[..|frame| - 1], viewChanged), frame[|frame| - 1], viewChanged)
  }

  function DeleteStale(w: Work, keys: seq<Key>): Work {
    if keys == [] then w
    else
      var w' := DeleteStale(w, keys[..|keys| - 1]);
      var k := keys[|keys| - 1];
      w'.(cache := w'.cache.(placements := w'.cache.placements - {k}),
          out := w'.out + [DeletePlacement(k.0, k.1)])
  }

  // --- The update ---

  /** `order` lists every element of `s` once: the order a hash set happens to yield. */
  ghost predicate Enumerates<T(!new)>(order: seq<T>, s: set<T>) {
    && (forall x :: x in order <==> x in s)
    && (forall i, j :: 0 <= i < j < |order| ==> order[i] != order[j])
  }

  function Pruned(c: Cache, frame: seq<HostPlacement>): Work {
    Work(c.(sources := Retained(c, frame)), {}, [])
  }

  /** Everything up to the stale placements, given the order in which images are dropped. */
  function Painted(h: Hashes, c: Cache, frame: seq<HostPlacement>, viewChanged: bool, drops: seq<Id>): Work {
    ProcessAll(h, DropAll(Pruned(c, frame), drops), frame, viewChanged)
  }

  function Stale(w: Work): set<Key> {
    w.cache.placements.Keys - w.current
  }

  /** `encode_graphics_update`, given the iteration orders of its two hash collections. */
  function Update(h: Hashes, c: Cache, frame: seq<HostPlacement>, viewChanged: bool,
                  drops: seq<Id>, stale: seq<Key>): (Cache, seq<Command>)
  {
    var w := DeleteStale(Painted(h, c, frame, viewChanged, drops), stale);
    (w.cache, w.out)
  }

  ghost predicate ValidOrders(h: Hashes, c: Cache, frame: seq<HostPlacement>, viewChanged: bool,
                              drops: seq<Id>, stale: seq<Key>)
  {
    && Enumerates(drops, RemovedLayerImages(c, frame))
    && Enumerates(stale, Stale(Painted(h, c, frame, viewChanged, drops)))
  }

  lemma SomeMember(s: set<Id>)
    requires s != {}
    ensures exists x: Id :: x in s
  {
    if forall x: Id :: x !in s {
      assert false;
    }
  }

  function DeleteImages(ids: seq<Id>): seq<Command> {
    seq(|ids|, i requires 0 <= i < |ids| => DeleteImage(ids[i]))
  }

  // --- The imperative cache ---

  type ViewKey = (int, int)

  class HostGraphicsCache {
    const hashes: Hashes
    var images: map<Id, ImageSignature>
    var placements: map<Key, PlacementSignature>
    var sources: map<SourceKey, Id>
    var view: Option<ViewKey>

    ghost function Snapshot(): Cache
      reads this
    {
      Cache(images, placements, sources)
    }

    constructor (hashes: Hashes)
      ensures Snapshot() == EMPTY && view == None && this.hashes == hashes
    {
      this.hashes := hashes;
      images := map[];
      placements := map[];
      sources := map[];
      view := None;
    }

    /** Delete every cached image and forget everything. */
    method ClearBytes() returns (out: seq<Command>, ghost order: seq<Id>)
      modifies this
      ensures Snapshot() == EMPTY && view == None
      ensures Enumerates(order, old(images).Keys) && out == DeleteImages(order)
    {
      out := [];
      order := [];
      var remaining := images.Keys;
      while remaining != {}
        invariant images == old(images) && remaining <= images.Keys
        invariant Enumerates(order, images.Keys - remaining) && out == DeleteImages(order)
      {
        assert exists id: Id :: id in remaining by { SomeMember(remaining); }
        var id :| id in remaining;
        remaining := remaining - {id};
        assert DeleteImages(order + [id]) == DeleteImages(order) + [DeleteImage(id)];
        order := order + [id];
        out := out + [DeleteImage(id)];
      }
      images := map[];
      placements := map[];
      sources := map[];
      view := None;
    }

    method UpdateView(viewKey: Option<ViewKey>) returns (changed: bool)
      modifies this`view
      ensures changed == (old(view) != viewKey) && view == viewKey
    {
      changed := view != viewKey;
      view := viewKey;
    }

    /** The part of `encode_local_pane_graphics` behind the collection of placements. */
    method Paint(enabled: bool, viewKey: Option<ViewKey>, frame: seq<HostPlacement>)
      returns (out: seq<Command>, ghost drops: seq<Id>, ghost stale: seq<Key>)
      modifies this
      ensures enabled ==> view == viewKey
                          && ValidOrders(hashes, old(Snapshot()), frame, old(view) != viewKey, drops, stale)
                          && (Snapshot(), out)
                             == Update(hashes, old(Snapshot()), frame, old(view) != viewKey, drops, stale)
      ensures !enabled ==> view == None && Snapshot() == EMPTY
                           && Enumerates(drops, old(images).Keys) && out == DeleteImages(drops)
    {
      drops, stale := [], [];
      if !enabled {
        out, drops := ClearBytes();
      } else {
        var changed := UpdateView(viewKey);
        out, drops, stale := EncodeGraphicsUpdate(frame, changed);
      }
    }

    method EncodeGraphicsUpdate(frame: seq<HostPlacement>, viewChanged: bool)
      returns (out: seq<Command>, ghost drops: seq<Id>, ghost stale: seq<Key>)
      modifies this`images, this`placements, this`sources
      ensures ValidOrders(hashes, old(Snapshot()), frame, viewChanged, drops, stale)
      ensures (Snapshot(), out) == Update(hashes, old(Snapshot()), frame, viewChanged, drops, stale)
    {
      out, drops := DropRemovedLayers(frame);
      var current: set<Key> := {};
      ghost var start := Work(Snapshot(), current, out);
      for i := 0 to |frame|
        invariant Work(Snapshot(), current, out) == ProcessAll(hashes, start, frame[..i], viewChanged)
      {
        assert frame[..i + 1][..i] == frame[..i];
        out, current := PaintPlacement(frame[i], viewChanged, out, current);
      }
      assert frame[..|frame|] == frame;
      out, stale := DeleteStalePlacements(out, current);
    }

    /** Prune the sources and delete the images of pane layers that left the screen. */
    method DropRemovedLayers(frame: seq<HostPlacement>) returns (out: seq<Command>, ghost drops: seq<Id>)
      modifies this`images, this`placements, this`sources
      ensures Enumerates(drops, RemovedLayerImages(old(Snapshot()), frame))
      ensures Work(Snapshot(), {}, out) == DropAll(Pruned(old(Snapshot()), frame), drops)
    {
      out, drops := [], [];
      var removed := RemovedLayerImages(Cache(images, placements, sources), frame);
      sources := Retained(Cache(images, placements, sources), frame);
      ghost var start := Work(Snapshot(), {}, []);
      var remaining := removed;
      while remaining != {}
        invariant remaining <= removed && Enumerates(drops, removed - remaining)
        invariant Work(Snapshot(), {}, out) == DropAll(start, drops)
      {
        assert exists id: Id :: id in remaining by { SomeMember(remaining); }
        var id :| id in remaining;
        remaining := remaining - {id};
        assert (drops + [id])[..|drops|] == drops;
        drops := drops + [id];
        if !RefersTo(sources, id) {
          out := out + [DeleteImage(id)];
          images := images - {id};
          placements := WithoutImage(placements, id);
        }
      }
    }

    /** The body of the placement loop. */
    method PaintPlacement(p: HostPlacement, viewChanged: bool, sent: seq<Command>, claimed: set<Key>)
      returns (out: seq<Command>, current: set<Key>)
      modifies this`images, this`placements, this`sources
      ensures Work(Snapshot(), current, out)
              == Process(hashes, Work(old(Snapshot()), claimed, sent), p, viewChanged)
    {
      out, current := sent, claimed;
      var clipped := Clip(p);
      if clipped.None? {
        return;
      }
      var id, key, signature := ImageIdOf(hashes, p), KeyOf(hashes, p), SignatureOf(p);
      current := current + {key};
      if !(id in images && images[id] == signature) {
        if id in images {
          out := out + [DeleteImage(id)];
          current := current - KeysOf(placements, id);
          placements := WithoutImage(placements, id);
        }
        if p.placement.data == [] {
          return;
        }
        out := out + [UploadOf(hashes, p)];
        images := images[id := signature];
      }
      out, current := ReleaseSupersededSourceImage(p.source, id, out, current);
      if !(key in placements && !viewChanged && placements[key] == PlacementOf(p)) {
        out := out + [DisplayOf(hashes, p)];
        placements := placements[key := PlacementOf(p)];
      }
    }

    method ReleaseSupersededSourceImage(source: SourceKey, id: Id, sent: seq<Command>, claimed: set<Key>)
      returns (out: seq<Command>, current: set<Key>)
      modifies this`images, this`placements, this`sources
      ensures Work(Snapshot(), current, out) == Release(Work(old(Snapshot()), claimed, sent), source, id)
    {
      out, current := sent, claimed;
      var previous := if source in sources then Some(sources[source]) else None;
      sources := sources[source := id];
      if previous.None? || previous.value == id || RefersTo(sources, previous.value) {
        return;
      }
      out := out + [DeleteImage(previous.value)];
      images := images - {previous.value};
      current := current - KeysOf(placements, previous.value);
      placements := WithoutImage(placements, previous.value);
    }

    method DeleteStalePlacements(sent: seq<Command>, current: set<Key>)
      returns (out: seq<Command>, ghost order: seq<Key>)
      modifies this`placements
      ensures var w := Work(old(Snapshot()), current, sent);
              && Enumerates(order, Stale(w))
              && (Snapshot(), out) == (DeleteStale(w, order).cache, DeleteStale(w, order).out)
    {
      out, order := sent, [];
      ghost var start := Work(Snapshot(), current, sent);
      var stale := placements.Keys - current;
      var remaining := stale;
      while remaining != {}
        invariant remaining <= stale && Enumerates(order, stale - remaining)
        invariant Work(Snapshot(), current, out) == DeleteStale(start, order)
      {
        var key :| key in remaining;
        remaining := remaining - {key};
        assert (order + [key])[..|order|] == order;
        order := order + [key];
        out := out + [DeletePlacement(key.0, key.1)];
        placements := placements - {key};
      }
    }
  }
}
