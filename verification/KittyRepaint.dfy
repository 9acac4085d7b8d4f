/** What a change of the view is for: a frame painted under another view restores every
    placement, even on a host that lost all of them. */
module KittyRepaint {
  import opened Wrappers
  import opened Bytes
  import opened KittyTypes
  import opened KittyClip
  import opened KittyCache
  import opened KittyHost
  import opened KittySessions
  import opened KittyRefinement
  import opened KittyFrames

  /** The host with its images and without its placements. */
  function Wiped(host: Host): Host {
    host.(placements := map[])
  }

  /** `b` shows a part of what `a` shows, and all of what is claimed. */
  predicate Follows(a: Host, b: Host, claimed: set<Key>) {
    && a.images == b.images
    && (forall k :: k in b.placements ==> k in a.placements && a.placements[k] == b.placements[k])
    && (forall k :: k in a.placements && k in claimed ==> k in b.placements)
  }

  lemma FollowsExec(a: Host, b: Host, claimed: set<Key>, c: Command)
    requires Follows(a, b, claimed)
    ensures Follows(Exec(a, c), Exec(b, c), claimed)
  {
  }

  lemma FollowsDisplay(a: Host, b: Host, claimed: set<Key>, c: Command)
    requires Follows(a, b, claimed) && c.Display? && c.id in a.images
    ensures Follows(Exec(a, c), Exec(b, c), claimed + {(c.id, c.placement)})
  {
  }

  lemma FollowsFewer(a: Host, b: Host, claimed: set<Key>, fewer: set<Key>)
    requires Follows(a, b, claimed) && fewer <= claimed
    ensures Follows(a, b, fewer)
  {
  }

  /** The wiped host after the commands of `w` follows the other one. */
  predicate Restoring(host: Host, w: Work, claimed: set<Key>) {
    Follows(ExecAll(host, w.out), ExecAll(Wiped(host), w.out), claimed)
  }

  lemma SentRestores(host: Host, w: Work, c: Command, claimed: set<Key>, after: Work, fewer: set<Key>)
    requires Restoring(host, w, claimed) && after.out == w.out + [c] && fewer <= claimed
    ensures Restoring(host, after, fewer)
  {
    hide Exec, ExecAll, Accepts, Follows;
    ExecSnoc(host, w.out, c);
    ExecSnoc(Wiped(host), w.out, c);
    FollowsExec(ExecAll(host, w.out), ExecAll(Wiped(host), w.out), claimed, c);
    FollowsFewer(ExecAll(host, after.out), ExecAll(Wiped(host), after.out), claimed, fewer);
  }

  lemma SilentRestores(host: Host, w: Work, claimed: set<Key>, after: Work, fewer: set<Key>)
    requires Restoring(host, w, claimed) && after.out == w.out && fewer <= claimed
    ensures Restoring(host, after, fewer)
  {
    hide ExecAll, Follows;
    FollowsFewer(ExecAll(host, w.out), ExecAll(Wiped(host), w.out), claimed, fewer);
  }

  lemma {:induction false} DropsRestore(host: Host, w: Work, ids: seq<Id>)
    requires Restoring(host, w, {})
    ensures Restoring(host, DropAll(w, ids), {})
    decreases |ids|
  {
    hide Restoring, RefersTo, WithoutImage;
    if ids != [] {
      DropsRestore(host, w, ids[..|ids| - 1]);
      var before := DropAll(w, ids[..|ids| - 1]);
      if DropUnreferenced(before, ids[|ids| - 1]).out != before.out {
        SentRestores(host, before, DeleteImage(ids[|ids| - 1]), {}, DropAll(w, ids), {});
      } else {
        SilentRestores(host, before, {}, DropAll(w, ids), {});
      }
    }
  }

  lemma EnsureRestores(h: Hashes, host: Host, w: Work, p: HostPlacement, key: Key)
    requires Restoring(host, w, w.current - {key}) && p.placement.data != []
    ensures var w' := EnsureImage(h, w, p).0; Restoring(host, w', w'.current - {key}) && w'.current <= w.current
  {
    hide Restoring, ImageIdOf, SignatureOf;
    var w' := EnsureImage(h, w, p).0;
    if Collides(h, w.cache.images, p) {
      var deleted := w.(out := w.out + [DeleteImage(ImageIdOf(h, p))]);
      SentRestores(host, w, DeleteImage(ImageIdOf(h, p)), w.current - {key}, deleted, w'.current - {key});
      SentRestores(host, deleted, UploadOf(h, p), w'.current - {key}, w', w'.current - {key});
    } else if w'.out != w.out {
      SentRestores(host, w, UploadOf(h, p), w.current - {key}, w', w.current - {key});
    } else {
      SilentRestores(host, w, w.current - {key}, w', w.current - {key});
    }
  }

  lemma ReleaseRestores(host: Host, w: Work, source: SourceKey, id: Id, key: Key)
    requires Restoring(host, w, w.current - {key})
    ensures var w' := Release(w, source, id); Restoring(host, w', w'.current - {key}) && w'.current <= w.current
  {
    hide Restoring, RefersTo, WithoutImage;
    var w' := Release(w, source, id);
    if w'.out != w.out {
      SentRestores(host, w, DeleteImage(w.cache.sources[source]), w.current - {key}, w', w'.current - {key});
    } else {
      SilentRestores(host, w, w.current - {key}, w', w'.current - {key});
    }
  }

  /** Under another view the placement is displayed again, whatever is cached for it. */
  lemma ShowRestores(h: Hashes, host: Host, w: Work, p: HostPlacement)
    requires Visible(p) && Restoring(host, w, w.current - {KeyOf(h, p)})
    requires ImageIdOf(h, p) in ExecAll(host, w.out).images
    ensures var w' := Show(h, w, p, true); Restoring(host, w', w'.current)
  {
    var key, c := KeyOf(h, p), DisplayOf(h, p);
    KeyIsOfImage(h, p);
    var w' := Show(h, w, p, true);
    assert w'.out == w.out + [c] && w'.current == w.current && (c.id, c.placement) == key;
    hide Exec, ExecAll, Accepts, Follows, Visible, KeyOf, ImageIdOf, Show;
    ExecSnoc(host, w.out, c);
    ExecSnoc(Wiped(host), w.out, c);
    var a, b := ExecAll(host, w.out), ExecAll(Wiped(host), w.out);
    FollowsDisplay(a, b, w.current - {key}, c);
    FollowsFewer(Exec(a, c), Exec(b, c), w.current - {key} + {key}, w.current);
  }

  /** A placement whose image is missing was not on screen. */
  lemma StarvedRestores(fp: Fingerprint, h: Hashes, host: Host, w: Work, p: HostPlacement, after: Work)
    requires Restoring(host, w, w.current) && InStep(fp, host, w) && ImageIdOf(h, p) !in w.cache.images
    requires after.out == w.out && after.current == w.current + {KeyOf(h, p)}
    ensures Restoring(host, after, after.current)
  {
    KeyIsOfImage(h, p);
    hide ExecAll, Accepts, KeyOf, ImageIdOf;
    assert KeyOf(h, p) !in ExecAll(host, w.out).placements.Keys;
  }

  lemma ProcessRestores(fp: Fingerprint, h: Hashes, host: Host, w: Work, p: HostPlacement)
    requires InStep(fp, host, w) && Truthful(fp, p) && Restoring(host, w, w.current)
    requires Visible(p) ==> !(Collides(h, w.cache.images, p) && p.placement.data == [])
    ensures var w' := Process(h, w, p, true); Restoring(host, w', w'.current)
  {
    if Visible(p) {
      var key := KeyOf(h, p);
      var claimed := w.(current := w.current + {key});
      assert InStep(fp, host, claimed);
      hide Restoring, InStep, Visible, KeyOf, ImageIdOf, SignatureOf, Show, Release, Truthful;
      var (w', held) := EnsureImage(h, claimed, p);
      if held {
        SilentRestores(host, w, w.current, claimed, claimed.current - {key});
        if p.placement.data != [] {
          EnsureRestores(h, host, claimed, p, key);
        }
        EnsureKeepsStepIff(fp, h, host, claimed, p);
        ReleaseRestores(host, w', p.source, ImageIdOf(h, p), key);
        ReleaseKeepsStep(fp, host, w', p.source, ImageIdOf(h, p));
        var released := Release(w', p.source, ImageIdOf(h, p));
        hide EnsureImage;
        SameImages(fp, host, released);
        assert ImageIdOf(h, p) in released.cache.images.Keys;
        ShowRestores(h, host, released, p);
      } else {
        StarvedRestores(fp, h, host, w, p, w');
      }
    }
  }

  lemma {:induction false} FrameRestores(fp: Fingerprint, h: Hashes, used: set<Content>, host: Host, w: Work,
                                         frame: seq<HostPlacement>)
    requires InStep(fp, host, w) && Grounded(h, used, w.cache.images) && Admissible(fp, h, used, frame)
    requires Restoring(host, w, w.current)
    ensures var w' := ProcessAll(h, w, frame, true); Restoring(host, w', w'.current)
    decreases |frame|
  {
    if frame != [] {
      var front, p := frame[..|frame| - 1], frame[|frame| - 1];
      ProcessAllKeepsStep(fp, h, used, host, w, front, true);
      FrameRestores(fp, h, used, host, w, front);
      var before := ProcessAll(h, w, front, true);
      if Visible(p) {
        SafeDoesNotDrift(h, used, before.cache.images, p);
      }
      hide InStep, Restoring, Process, Grounded, Collides, ImageIdOf, SignatureOf;
      ProcessRestores(fp, h, host, before, p);
    }
  }

  lemma {:induction false} StaleRestores(host: Host, w: Work, keys: seq<Key>, claimed: set<Key>)
    requires Restoring(host, w, claimed)
    ensures Restoring(host, DeleteStale(w, keys), claimed)
    decreases |keys|
  {
    hide Restoring;
    if keys != [] {
      var front, k := keys[..|keys| - 1], keys[|keys| - 1];
      StaleRestores(host, w, front, claimed);
      SentRestores(host, DeleteStale(w, front), DeletePlacement(k.0, k.1), claimed, DeleteStale(w, keys), claimed);
    }
  }

  /** Painted under a changed view, any admissible frame brings a host that lost all its
      placements to the very state of a host that lost none. */
  lemma ViewChangeRestores(fp: Fingerprint, h: Hashes, used: set<Content>, host: Host, c: Cache,
                           frame: seq<HostPlacement>, drops: seq<Id>, stale: seq<Key>)
    requires Mirrors(fp, c, host) && Grounded(h, used, c.images) && Admissible(fp, h, used, frame)
    requires ValidOrders(h, c, frame, true, drops, stale)
    ensures var out := Update(h, c, frame, true, drops, stale).1;
            ExecAll(Wiped(host), out) == ExecAll(host, out)
  {
    var start := Pruned(c, frame);
    assert InStep(fp, host, start) && Restoring(host, start, {});
    var w := Painted(h, c, frame, true, drops);
    hide Mirrors, Accepts, InStep, Restoring, Grounded, Admissible, DropAll, ProcessAll, DeleteStale, ExecAll;
    DropAllKeepsStep(fp, host, start, drops);
    DropAllKeepsGrounded(h, used, start, drops);
    DropsRestore(host, start, drops);
    DropAllClaimsNothing(start, drops);
    FrameRestores(fp, h, used, host, DropAll(start, drops), frame);
    StaleRestores(host, w, stale, w.current);
    UpdateKeepsMirror(fp, h, used, host, c, frame, true, drops, stale);
    UpdateEffect(h, c, frame, true, drops, stale);
    var (c', out) := Update(h, c, frame, true, drops, stale);
    hide Update, Painted;
    AllClaimed(fp, host, DeleteStale(w, stale), c', w.current);
  }

  lemma {:induction false} DropAllClaimsNothing(w: Work, ids: seq<Id>)
    ensures DropAll(w, ids).current == w.current
    decreases |ids|
  {
    hide RefersTo, WithoutImage;
    if ids != [] {
      DropAllClaimsNothing(w, ids[..|ids| - 1]);
    }
  }

  /** Where everything on screen is claimed, following is being equal. */
  lemma AllClaimed(fp: Fingerprint, host: Host, w: Work, c: Cache, claimed: set<Key>)
    requires Restoring(host, w, claimed) && Mirrors(fp, c, ExecAll(host, w.out))
    requires forall k :: k in c.placements ==> k in claimed
    ensures ExecAll(Wiped(host), w.out) == ExecAll(host, w.out)
  {
    hide ExecAll, ImagesMatch;
    var a, b := ExecAll(host, w.out), ExecAll(Wiped(host), w.out);
    assert a.placements.Keys == c.placements.Keys;
    assert forall k :: k in a.placements ==> k in b.placements;
    assert a.placements == b.placements;
  }

  // --- What is sent ---

  /** A placement that was not there and is there now was displayed, as it is now. */
  lemma {:induction false} DisplayedByCommand(host: Host, out: seq<Command>, k: Key)
    requires k !in host.placements && k in ExecAll(host, out).placements
    ensures var st := ExecAll(host, out).placements[k]; Display(k.0, k.1, st.shown, st.z) in out
    decreases |out|
  {
    if out != [] {
      var front, c := out[..|out| - 1], out[|out| - 1];
      assert out == front + [c];
      var before := ExecAll(host, front);
      if k in before.placements && before.placements[k] == ExecAll(host, out).placements[k] {
        DisplayedByCommand(host, front, k);
      }
    }
  }

  /** Under a changed view the host is sent a display command for every visible placement of
      a supplied frame, with its current clip and z, and shows the frame whatever it showed
      of the cached placements before. */
  lemma ViewChangeDisplaysAll(fp: Fingerprint, h: Hashes, used: set<Content>, host: Host, c: Cache,
                              frame: seq<HostPlacement>, drops: seq<Id>, stale: seq<Key>)
    requires Mirrors(fp, c, host) && Grounded(h, used, c.images) && Admissible(fp, h, used, frame)
    requires CollisionFree(h, used) && WellKeyed(h, frame) && AllSupplied(h, c, frame)
    requires ValidOrders(h, c, frame, true, drops, stale)
    ensures var out := Update(h, c, frame, true, drops, stale).1;
            && HostShows(fp, h, ExecAll(Wiped(host), out), frame)
            && forall i :: 0 <= i < |frame| && Visible(frame[i]) ==>
                 Display(ImageIdOf(h, frame[i]), KeyOf(h, frame[i]).1, Clip(frame[i]).value, frame[i].placement.z)
                 in out
  {
    hide Update, ValidOrders, ExecAll, Mirrors, Grounded, Admissible, CollisionFree, AllSupplied;
    ViewChangeRestores(fp, h, used, host, c, frame, drops, stale);
    UpdateShowsFrame(fp, h, used, host, c, frame, true, drops, stale);
    var out := Update(h, c, frame, true, drops, stale).1;
    forall i | 0 <= i < |frame| && Visible(frame[i])
      ensures Display(ImageIdOf(h, frame[i]), KeyOf(h, frame[i]).1, Clip(frame[i]).value, frame[i].placement.z) in out
    {
      DisplayedPlacement(fp, h, host, frame, out, i);
    }
  }

  lemma DisplayedPlacement(fp: Fingerprint, h: Hashes, host: Host, frame: seq<HostPlacement>, out: seq<Command>, i: nat)
    requires WellKeyed(h, frame) && i < |frame| && Visible(frame[i])
    requires HostShows(fp, h, ExecAll(Wiped(host), out), frame)
    ensures Display(ImageIdOf(h, frame[i]), KeyOf(h, frame[i]).1, Clip(frame[i]).value, frame[i].placement.z) in out
  {
    var k := KeyOf(h, frame[i]);
    var after := ExecAll(Wiped(host), out);
    DesiredValue(h, frame, i);
    KeyIsOfImage(h, frame[i]);
    assert k in after.placements.Keys;
    assert PlacementOf(frame[i]).shown == Clip(frame[i]).value && PlacementOf(frame[i]).z == frame[i].placement.z;
    hide ExecAll, Visible, KeyOf, ImageIdOf, SignatureOf, PlacementOf, Desired, WellKeyed;
    DisplayedByCommand(Wiped(host), out, k);
  }

  /** The same for one paint of a session: what counts is that its view differs from the
      view of the paint before. */
  lemma PaintUnderAnotherView(fp: Fingerprint, h: Hashes, used: set<Content>, host: Host, s: Session, e: Event)
    requires Mirrors(fp, s.cache, host) && Grounded(h, used, s.cache.images)
    requires e.enabled && e.view != s.view && ValidEvent(h, s, e) && Admissible(fp, h, used, e.frame)
    ensures var out := StepSession(h, s, e).1; ExecAll(Wiped(host), out) == ExecAll(host, out)
    ensures StepSession(h, s, e).0.view == e.view
  {
    hide Update, ValidOrders, ExecAll, Mirrors, Grounded, Admissible;
    ViewChangeRestores(fp, h, used, host, s.cache, e.frame, e.drops, e.stale);
  }
}
