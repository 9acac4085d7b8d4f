/** Whole frames and whole runs keep host and cache in step. */
module KittySessions {
  import opened Wrappers
  import opened Bytes
  import opened KittyTypes
  import opened KittyCache
  import opened KittyHost

  /** A pane and the content one of its images had at some point. */
  type Content = (int, ImageSignature)

  /** Every cached image was uploaded under the id its content hashes to. */
  ghost predicate Grounded(h: Hashes, used: set<Content>, images: map<Id, ImageSignature>) {
    forall id :: id in images ==> HasOwner(h, used, id, images[id])
  }

  ghost predicate HasOwner(h: Hashes, used: set<Content>, id: Id, sig: ImageSignature) {
    exists u :: u in used && u.1 == sig && h.imageId(u.0, u.1) == id
  }

  /** The placement brings its data, or its id never stands for other content. */
  predicate Safe(h: Hashes, used: set<Content>, p: HostPlacement) {
    p.placement.data != []
    || forall u :: u in used && h.imageId(u.0, u.1) == ImageIdOf(h, p) ==> u.1 == SignatureOf(p)
  }

  predicate Admissible(fp: Fingerprint, h: Hashes, used: set<Content>, frame: seq<HostPlacement>) {
    forall i :: 0 <= i < |frame| ==>
      && Truthful(fp, frame[i])
      && (Visible(frame[i]) ==> (frame[i].pane, SignatureOf(frame[i])) in used && Safe(h, used, frame[i]))
  }

  lemma SafeDoesNotDrift(h: Hashes, used: set<Content>, images: map<Id, ImageSignature>, p: HostPlacement)
    requires Grounded(h, used, images) && Safe(h, used, p)
    ensures !(Collides(h, images, p) && p.placement.data == [])
  {
    var id := ImageIdOf(h, p);
    if id in images {
      assert HasOwner(h, used, id, images[id]);
    }
  }

  lemma ProcessKeepsGrounded(h: Hashes, used: set<Content>, w: Work, p: HostPlacement, viewChanged: bool)
    requires Grounded(h, used, w.cache.images)
    requires Visible(p) ==> (p.pane, SignatureOf(p)) in used
    ensures Grounded(h, used, Process(h, w, p, viewChanged).cache.images)
  {
    if Visible(p) {
      var u := (p.pane, SignatureOf(p));
      assert u in used && u.1 == SignatureOf(p) && h.imageId(u.0, u.1) == ImageIdOf(h, p);
      assert HasOwner(h, used, ImageIdOf(h, p), SignatureOf(p));
    }
    ProcessImages(h, w, p, viewChanged);
    hide Process, Visible, HasOwner, SignatureOf, ImageIdOf;
  }

  /** Every image a placement leaves cached was cached before, or is its own. */
  lemma ProcessImages(h: Hashes, w: Work, p: HostPlacement, viewChanged: bool)
    ensures var after := Process(h, w, p, viewChanged).cache.images;
            forall id :: id in after ==>
              || (id in w.cache.images && after[id] == w.cache.images[id])
              || (Visible(p) && id == ImageIdOf(h, p) && after[id] == SignatureOf(p))
  {
    hide Visible, SignatureOf, ImageIdOf, KeyOf, EnsureImage, Release;
    if Visible(p) {
      var claimed := w.(current := w.current + {KeyOf(h, p)});
      EnsureImages(h, claimed, p);
      ReleaseImages(EnsureImage(h, claimed, p).0, p.source, ImageIdOf(h, p));
    }
  }

  lemma EnsureImages(h: Hashes, w: Work, p: HostPlacement)
    ensures var after := EnsureImage(h, w, p).0.cache.images;
            after == w.cache.images || after == w.cache.images[ImageIdOf(h, p) := SignatureOf(p)]
  {
    hide SignatureOf, ImageIdOf;
  }

  lemma ReleaseImages(w: Work, source: SourceKey, id: Id)
    ensures var after := Release(w, source, id).cache.images;
            forall x :: x in after ==> x in w.cache.images && after[x] == w.cache.images[x]
  {
    hide RefersTo;
  }

  lemma {:induction false} DropAllKeepsGrounded(h: Hashes, used: set<Content>, w: Work, ids: seq<Id>)
    requires Grounded(h, used, w.cache.images)
    ensures Grounded(h, used, DropAll(w, ids).cache.images)
    decreases |ids|
  {
    if ids != [] {
      DropAllKeepsGrounded(h, used, w, ids[..|ids| - 1]);
    }
  }

  lemma {:induction false} ProcessAllKeepsStep(fp: Fingerprint, h: Hashes, used: set<Content>, host: Host,
                                               w: Work, frame: seq<HostPlacement>, viewChanged: bool)
    requires InStep(fp, host, w) && Grounded(h, used, w.cache.images) && Admissible(fp, h, used, frame)
    ensures var w' := ProcessAll(h, w, frame, viewChanged);
            InStep(fp, host, w') && Grounded(h, used, w'.cache.images)
    decreases |frame|
  {
    if frame != [] {
      var front, p := frame[..|frame| - 1], frame[|frame| - 1];
      ProcessAllKeepsStep(fp, h, used, host, w, front, viewChanged);
      var before := ProcessAll(h, w, front, viewChanged);
      hide InStep, Process, Grounded, Collides, ImageIdOf, SignatureOf;
      ProcessKeepsGrounded(h, used, before, p, viewChanged);
      ProcessKeepsStepIff(fp, h, host, before, p, viewChanged);
      if Visible(p) {
        SafeDoesNotDrift(h, used, before.cache.images, p);
      }
    }
  }

  lemma {:induction false} DeleteStaleKeepsStep(fp: Fingerprint, host: Host, w: Work, keys: seq<Key>)
    requires InStep(fp, host, w)
    ensures InStep(fp, host, DeleteStale(w, keys))
    ensures DeleteStale(w, keys).cache.images == w.cache.images
    decreases |keys|
  {
    if keys != [] {
      var k := keys[|keys| - 1];
      DeleteStaleKeepsStep(fp, host, w, keys[..|keys| - 1]);
      ExecSnoc(host, DeleteStale(w, keys[..|keys| - 1]).out, DeletePlacement(k.0, k.1));
    }
  }

  /** One frame: executing its commands takes a mirrored host to a mirrored host, and
      every command finds the images it names. */
  lemma UpdateKeepsMirror(fp: Fingerprint, h: Hashes, used: set<Content>, host: Host, c: Cache,
                          frame: seq<HostPlacement>, viewChanged: bool, drops: seq<Id>, stale: seq<Key>)
    requires Mirrors(fp, c, host) && Grounded(h, used, c.images) && Admissible(fp, h, used, frame)
    ensures var (c', out) := Update(h, c, frame, viewChanged, drops, stale);
            && Mirrors(fp, c', ExecAll(host, out)) && Accepts(host, out)
            && Grounded(h, used, c'.images)
  {
    var start := Pruned(c, frame);
    assert InStep(fp, host, start);
    DropAllKeepsStep(fp, host, start, drops);
    DropAllKeepsGrounded(h, used, start, drops);
    hide Mirrors, Grounded, Admissible, Accepts, DropAll;
    ProcessAllKeepsStep(fp, h, used, host, DropAll(start, drops), frame, viewChanged);
    DeleteStaleKeepsStep(fp, host, Painted(h, c, frame, viewChanged, drops), stale);
  }

  // --- Clearing ---

  lemma {:induction false} DeletingImages(host: Host, ids: seq<Id>)
    ensures Accepts(host, DeleteImages(ids))
    ensures var after := ExecAll(host, DeleteImages(ids));
            && (forall id :: id in after.images <==> id in host.images && id !in ids)
            && (forall k :: k in after.placements <==> k in host.placements && k.0 !in ids)
    decreases |ids|
  {
    if ids != [] {
      var front := ids[..|ids| - 1];
      assert DeleteImages(ids) == DeleteImages(front) + [DeleteImage(ids[|ids| - 1])];
      assert ids == front + [ids[|ids| - 1]];
      DeletingImages(host, front);
      ExecSnoc(host, DeleteImages(front), DeleteImage(ids[|ids| - 1]));
    }
  }

  lemma NoKeys<T>(m: map<Id, T>)
    requires forall id: Id :: id !in m
    ensures m == map[]
  {
    if m.Keys != {} {
      SomeMember(m.Keys);
      assert false;
    }
  }

  /** Clearing empties the host of everything the cache knew. */
  lemma ClearKeepsMirror(fp: Fingerprint, host: Host, c: Cache, order: seq<Id>)
    requires Mirrors(fp, c, host) && Enumerates(order, c.images.Keys)
    ensures Accepts(host, DeleteImages(order))
    ensures ExecAll(host, DeleteImages(order)) == Host(map[], map[])
    ensures Mirrors(fp, EMPTY, Host(map[], map[]))
  {
    DeletingImages(host, order);
    var after := ExecAll(host, DeleteImages(order));
    forall id: Id
      ensures id !in after.images
    {
      assert id in host.images.Keys <==> id in c.images.Keys;
    }
    NoKeys(after.images);
    assert after.placements == map[] by {
      forall k | k in host.placements
        ensures k.0 in order
      {
        assert k in c.placements;
      }
    }
  }

  // --- Runs ---

  datatype Session = Session(cache: Cache, view: Option<ViewKey>)

  /** One call of `encode_local_pane_graphics`, with the iteration orders it happens to use. */
  datatype Event = Event(enabled: bool, view: Option<ViewKey>, frame: seq<HostPlacement>,
                         drops: seq<Id>, stale: seq<Key>)

  function StepSession(h: Hashes, s: Session, e: Event): (Session, seq<Command>) {
    if e.enabled then
      var (c, out) := Update(h, s.cache, e.frame, s.view != e.view, e.drops, e.stale);
      (Session(c, e.view), out)
    else (Session(EMPTY, None), DeleteImages(e.drops))
  }

  ghost predicate ValidEvent(h: Hashes, s: Session, e: Event) {
    if e.enabled then ValidOrders(h, s.cache, e.frame, s.view != e.view, e.drops, e.stale)
    else Enumerates(e.drops, s.cache.images.Keys)
  }

  function RunSession(h: Hashes, s: Session, events: seq<Event>): (Session, seq<Command>)
    decreases |events|
  {
    if events == [] then (s, [])
    else
      var (s', out) := StepSession(h, s, events[0]);
      var (last, more) := RunSession(h, s', events[1..]);
      (last, out + more)
  }

  ghost predicate ValidRun(h: Hashes, s: Session, events: seq<Event>)
    decreases |events|
  {
    events == []
    || (ValidEvent(h, s, events[0]) && ValidRun(h, StepSession(h, s, events[0]).0, events[1..]))
  }

  lemma StepKeepsMirror(fp: Fingerprint, h: Hashes, used: set<Content>, host: Host, s: Session, e: Event)
    requires Mirrors(fp, s.cache, host) && Grounded(h, used, s.cache.images)
    requires ValidEvent(h, s, e) && Admissible(fp, h, used, e.frame)
    ensures var (s', out) := StepSession(h, s, e);
            && Mirrors(fp, s'.cache, ExecAll(host, out)) && Accepts(host, out)
            && Grounded(h, used, s'.cache.images)
  {
    if e.enabled {
      hide Mirrors, Grounded, Admissible, Update;
      UpdateKeepsMirror(fp, h, used, host, s.cache, e.frame, s.view != e.view, e.drops, e.stale);
    } else {
      ClearKeepsMirror(fp, host, s.cache, e.drops);
    }
  }

  /** Cache and host never drift: after every run of paints and clears the host holds
      exactly what the cache says, and no command along the way displayed an image the
      host lacked. */
  lemma {:induction false} NeverDrift(fp: Fingerprint, h: Hashes, used: set<Content>, host: Host,
                                      s: Session, events: seq<Event>)
    requires Mirrors(fp, s.cache, host) && Grounded(h, used, s.cache.images)
    requires ValidRun(h, s, events)
    requires forall i :: 0 <= i < |events| ==> Admissible(fp, h, used, events[i].frame)
    ensures var (last, out) := RunSession(h, s, events);
            && Mirrors(fp, last.cache, ExecAll(host, out)) && Accepts(host, out)
            && Grounded(h, used, last.cache.images)
    decreases |events|
  {
    hide Mirrors, Grounded, Admissible, StepSession, ValidEvent, Accepts;
    if events == [] {
      assert ExecAll(host, []) == host;
      AcceptsNothing(host);
    } else {
      StepKeepsMirror(fp, h, used, host, s, events[0]);
      var (s', out) := StepSession(h, s, events[0]);
      NeverDrift(fp, h, used, ExecAll(host, out), s', events[1..]);
      ExecAppend(host, out, RunSession(h, s', events[1..]).1);
    }
  }

  lemma AcceptsNothing(host: Host)
    ensures Accepts(host, [])
  {
  }
}
