/**
 The cache refines the host terminal: executing the commands of any update leaves the host
 holding exactly the images and placements the cache lists.
 */
module KittyRefinement {
  import opened Bytes
  import opened KittyGeometry
  import opened KittyCache

  type Fingerprint = bytes -> nat

  function SigOf(fp: Fingerprint, image: HostImage): ImageSig {
    ImageSig(image.width, image.height, image.formatCode, |image.data|, fp(image.data))
  }

  /** Host and cache agree, apart from the scrollback offset only the cache remembers. */
  ghost predicate Matches(fp: Fingerprint, h: Host, c: Cache) {
    && h.images.Keys == c.images.Keys
    && (forall id | id in c.images :: SigOf(fp, h.images[id]) == c.images[id])
    && h.placements.Keys == c.placements.Keys
    && (forall k | k in c.placements :: h.placements[k] == c.placements[k].shown)
  }

  /** Every placement's image is cached and every source points at a cached image. */
  ghost predicate Consistent(c: Cache) {
    && (forall k | k in c.placements :: k.0 in c.images)
    && (forall s | s in c.sources :: c.sources[s] in c.images)
  }

  /** The data that comes with a placement is what its signature describes. */
  ghost predicate Honest(fp: Fingerprint, item: Item) {
    item.data != [] ==> item.sig.dataLen == |item.data| && item.sig.fingerprint == fp(item.data)
  }

  /** The host that executed the commands so far agrees with the cache so far. */
  ghost predicate Coupled(fp: Fingerprint, h: Host, p: Progress) {
    Matches(fp, ExecAll(h, p.commands), p.cache) && Consistent(p.cache)
  }

  lemma {:induction false} ExecMore(h: Host, cs: seq<Command>, c: Command)
    ensures ExecAll(h, cs + [c]) == Exec(ExecAll(h, cs), c)
    decreases |cs|
  {
    hide Exec;
    if cs == [] {
      assert cs + [c] == [c] && [c][1..] == [];
    } else {
      assert (cs + [c])[1..] == cs[1..] + [c];
      ExecMore(Exec(h, cs[0]), cs[1..], c);
    }
  }

  // ----- the building blocks keep host and cache in step -----

  lemma ForgetMatches(fp: Fingerprint, h: Host, p: Progress, id: u32)
    requires Matches(fp, ExecAll(h, p.commands), p.cache)
    ensures var q := ForgetImage(p, id); Matches(fp, ExecAll(h, q.commands), q.cache)
  {
    hide ExecAll;
    ExecMore(h, p.commands, DeleteImage(id));
  }

  lemma UploadMatches(fp: Fingerprint, h: Host, p: Progress, item: Item)
    requires Matches(fp, ExecAll(h, p.commands), p.cache) && Honest(fp, item)
    requires item.hostId !in p.cache.images && forall k | k in p.cache.placements :: k.0 != item.hostId
    ensures var q := UploadImage(p, item).0; Matches(fp, ExecAll(h, q.commands), q.cache)
  {
    hide ExecAll;
    ExecMore(h, p.commands, Upload(item.hostId, item.sig, item.data));
  }

  lemma ForgetKeeps(fp: Fingerprint, h: Host, p: Progress, id: u32)
    requires Coupled(fp, h, p) && !Referenced(p.cache.sources, id)
    ensures Coupled(fp, h, ForgetImage(p, id))
  {
    hide ExecAll, Matches;
    ForgetMatches(fp, h, p, id);
  }

  lemma UploadKeeps(fp: Fingerprint, h: Host, p: Progress, item: Item)
    requires Coupled(fp, h, p) && Honest(fp, item) && item.hostId !in p.cache.images
    ensures Coupled(fp, h, UploadImage(p, item).0)
  {
    hide ExecAll, Matches;
    UploadMatches(fp, h, p, item);
  }

  /** Deleting a colliding image loses it on the host only; uploading the new one in its place repairs that. */
  lemma ReplaceKeeps(fp: Fingerprint, h: Host, p: Progress, item: Item)
    requires Coupled(fp, h, p) && Honest(fp, item) && item.hostId in p.cache.images
    ensures !Coupled(fp, h, DropPlacements(p, item.hostId))
    ensures item.data != [] ==> Coupled(fp, h, UploadImage(DropPlacements(p, item.hostId), item).0)
  {
    hide ExecAll, Matches;
    ReplaceLoses(fp, h, p, item);
    var f := ForgetImage(p, item.hostId);
    if item.data != [] {
      ForgetMatches(fp, h, p, item.hostId);
      UploadMatches(fp, h, f, item);
      ReplaceIsForget(p, item);
    }
  }

  /** Uploading over an image is forgetting it first. */
  lemma ReplaceIsForget(p: Progress, item: Item)
    requires item.data != []
    ensures UploadImage(ForgetImage(p, item.hostId), item) == UploadImage(DropPlacements(p, item.hostId), item)
    ensures Consistent(p.cache) ==> Consistent(UploadImage(DropPlacements(p, item.hostId), item).0.cache)
  {
    var (q, f) := (DropPlacements(p, item.hostId), ForgetImage(p, item.hostId));
    assert f.cache.images[item.hostId := item.sig] == q.cache.images[item.hostId := item.sig];
  }

  lemma ReplaceLoses(fp: Fingerprint, h: Host, p: Progress, item: Item)
    requires item.hostId in p.cache.images
    ensures !Coupled(fp, h, DropPlacements(p, item.hostId))
  {
    hide ExecAll;
    ExecMore(h, p.commands, DeleteImage(item.hostId));
    assert item.hostId !in ExecAll(h, DropPlacements(p, item.hostId).commands).images;
  }

  /** The one branch that loses track of the host: an id collision without data to upload. */
  predicate CollidesWithoutData(c: Cache, item: Item) {
    item.visible && item.hostId in c.images && c.images[item.hostId] != item.sig && item.data == []
  }

  lemma EnsureKeeps(fp: Fingerprint, h: Host, p: Progress, item: Item)
    requires Coupled(fp, h, p) && Honest(fp, item) && item.visible
    requires !CollidesWithoutData(p.cache, item)
    ensures var (q, uploaded) := EnsureImage(p, item);
            Coupled(fp, h, q) && (uploaded ==> item.hostId in q.cache.images && q.cache.images[item.hostId] == item.sig)
  {
    hide Coupled, DropPlacements;
    if item.hostId !in p.cache.images {
      UploadKeeps(fp, h, p, item);
    } else if p.cache.images[item.hostId] != item.sig {
      ReplaceKeeps(fp, h, p, item);
    }
  }

  lemma ReleaseKeeps(fp: Fingerprint, h: Host, p: Progress, source: SourceKey, id: u32)
    requires Coupled(fp, h, p) && id in p.cache.images
    ensures Coupled(fp, h, ReleaseSuperseded(p, source, id))
    ensures id in ReleaseSuperseded(p, source, id).cache.images
  {
    hide ExecAll;
    var q := p.(cache := p.cache.(sources := p.cache.sources[source := id]));
    assert Coupled(fp, h, q);
    if source in p.cache.sources {
      var previous := p.cache.sources[source];
      if !Referenced(q.cache.sources, previous) {
        ForgetKeeps(fp, h, q, previous);
      }
    }
  }

  lemma ShowKeeps(fp: Fingerprint, h: Host, p: Progress, item: Item, viewChanged: bool)
    requires Coupled(fp, h, p) && item.hostId in p.cache.images
    ensures Coupled(fp, h, Show(p, item, viewChanged))
  {
    hide ExecAll;
    ExecMore(h, p.commands, Display(item.hostId, item.placementId, item.look.shown));
  }

  /**
   Processing one placement keeps host and cache in agreement exactly when it is not a collision
   without data.
   */
  lemma PlaceItemExact(fp: Fingerprint, h: Host, p: Progress, item: Item, viewChanged: bool)
    requires Coupled(fp, h, p) && Honest(fp, item)
    ensures Coupled(fp, h, PlaceItem(p, item, viewChanged)) <==> !CollidesWithoutData(p.cache, item)
  {
    hide EnsureImage, ReleaseSuperseded, Show, Matches, Consistent, ExecAll;
    if item.visible {
      var q := p.(current := p.current + {item.Key()});
      if CollidesWithoutData(p.cache, item) {
        CollisionDrops(q, item);
        ReplaceKeeps(fp, h, q, item);
      } else {
        EnsureKeeps(fp, h, q, item);
        var (r, uploaded) := EnsureImage(q, item);
        if uploaded {
          ReleaseKeeps(fp, h, r, item.source, item.hostId);
          ShowKeeps(fp, h, ReleaseSuperseded(r, item.source, item.hostId), item, viewChanged);
        }
      }
    }
  }

  lemma CollisionDrops(p: Progress, item: Item)
    requires CollidesWithoutData(p.cache, item)
    ensures EnsureImage(p, item) == (DropPlacements(p, item.hostId), false)
  {
  }

  /**
   Such a collision, as a frame can bring it: the image of `i` is cached, so `i` comes without data, and before
   it another image `j` takes its id. The update ends with that id in the cache and no such image on the host.
   */
  lemma CollisionLosesTrack(fp: Fingerprint, h: Host, c: Cache, j: Item, i: Item, viewChanged: bool,
                            removed: seq<u32>, stale: seq<(u32, u32)>)
    requires Matches(fp, h, c) && Consistent(c)
    requires i.visible && i.data == [] && i.hostId in c.images && c.images[i.hostId] == i.sig
    requires j.visible && j.data != [] && j.hostId == i.hostId && j.sig != i.sig
    ensures var u := Update(c, [j, i], viewChanged, removed, stale);
            && i.hostId in u.cache.images && i.hostId !in ExecAll(h, u.commands).images
            && !Matches(fp, ExecAll(h, u.commands), u.cache)
  {
    hide ExecAll, PruneImages, Sweep, Start, PlaceItem;
    var p := PruneImages(Start(c, [j, i]), removed).(current := {});
    var q := PlaceItem(p, j, viewChanged);
    var r := PlaceItem(q, i, viewChanged);
    assert [j, i][1..] == [i] && [i][1..] == [];
    assert PlaceAll(p, [j, i], viewChanged) == PlaceAll(q, [i], viewChanged);
    assert PlaceAll(q, [i], viewChanged) == PlaceAll(r, [], viewChanged) == r;
    UploadTakesId(p, j, viewChanged);
    CollisionDeletes(h, q, i, viewChanged);
    SweepImages(h, r, stale);
  }

  lemma UploadTakesId(p: Progress, j: Item, viewChanged: bool)
    requires j.visible && j.data != []
    ensures var q := PlaceItem(p, j, viewChanged); j.hostId in q.cache.images && q.cache.images[j.hostId] == j.sig
  {
    hide Without, PlacementsOf, Referenced;
  }

  lemma CollisionDeletes(h: Host, q: Progress, i: Item, viewChanged: bool)
    requires CollidesWithoutData(q.cache, i)
    ensures var r := PlaceItem(q, i, viewChanged);
            i.hostId in r.cache.images && i.hostId !in ExecAll(h, r.commands).images
  {
    hide ExecAll;
    var p := q.(current := q.current + {i.Key()});
    CollisionDrops(p, i);
    ExecMore(h, p.commands, DeleteImage(i.hostId));
  }

  lemma {:induction false} SweepImages(h: Host, p: Progress, stale: seq<(u32, u32)>)
    ensures var q := Sweep(p, stale);
            q.cache.images == p.cache.images && ExecAll(h, q.commands).images == ExecAll(h, p.commands).images
    decreases |stale|
  {
    hide ExecAll;
    if stale != [] {
      ExecMore(h, p.commands, DeletePlacement(stale[0].0, stale[0].1));
      SweepImages(h, SweepOne(p, stale[0]), stale[1..]);
    }
  }

  // ----- a whole frame -----

  /** No visible placement that comes without data shares its id with another image, cached or incoming. */
  ghost predicate DatalessUnambiguous(images: map<u32, ImageSig>, frame: seq<Item>) {
    && (forall i | i in frame && i.visible && i.data == [] && i.hostId in images :: images[i.hostId] == i.sig)
    && (forall i, j | i in frame && j in frame && i.visible && j.visible && i.data == [] && i.hostId == j.hostId ::
          i.sig == j.sig)
  }

  ghost predicate FrameHonest(fp: Fingerprint, frame: seq<Item>) {
    forall i | i in frame :: Honest(fp, i)
  }

  lemma ImagesAfterEnsure(p: Progress, item: Item)
    ensures var images := EnsureImage(p, item).0.cache.images;
            forall id | id in images ::
              (id in p.cache.images && images[id] == p.cache.images[id]) || (id == item.hostId && images[id] == item.sig)
  {
    hide Without, PlacementsOf;
  }

  lemma ImagesAfterRelease(p: Progress, source: SourceKey, id: u32)
    ensures var images := ReleaseSuperseded(p, source, id).cache.images;
            forall j | j in images :: j in p.cache.images && images[j] == p.cache.images[j]
  {
    hide Without, PlacementsOf, Referenced;
  }

  /** Placing an item adds at most its own image. */
  lemma ImagesAfterPlace(p: Progress, item: Item, viewChanged: bool)
    ensures var images := PlaceItem(p, item, viewChanged).cache.images;
            forall id | id in images ::
              (id in p.cache.images && images[id] == p.cache.images[id]) || (item.visible && id == item.hostId && images[id] == item.sig)
  {
    hide EnsureImage, ReleaseSuperseded;
    var q := p.(current := p.current + {item.Key()});
    ImagesAfterEnsure(q, item);
    ImagesAfterRelease(EnsureImage(q, item).0, item.source, item.hostId);
  }

  lemma {:induction false} PlaceAllKeeps(fp: Fingerprint, h: Host, p: Progress, frame: seq<Item>, viewChanged: bool)
    requires Coupled(fp, h, p) && FrameHonest(fp, frame) && DatalessUnambiguous(p.cache.images, frame)
    ensures Coupled(fp, h, PlaceAll(p, frame, viewChanged))
    decreases |frame|
  {
    hide Coupled, PlaceItem, Honest;
    if frame != [] {
      PlaceItemExact(fp, h, p, frame[0], viewChanged);
      ImagesAfterPlace(p, frame[0], viewChanged);
      assert forall i | i in frame[1..] :: i in frame;
      PlaceAllKeeps(fp, h, PlaceItem(p, frame[0], viewChanged), frame[1..], viewChanged);
    }
  }

  lemma {:induction false} PruneKeeps(fp: Fingerprint, h: Host, p: Progress, removed: seq<u32>)
    requires Coupled(fp, h, p)
    ensures Coupled(fp, h, PruneImages(p, removed))
    ensures forall id | id in PruneImages(p, removed).cache.images ::
              id in p.cache.images && PruneImages(p, removed).cache.images[id] == p.cache.images[id]
    decreases |removed|
  {
    hide Coupled;
    if removed != [] {
      if !Referenced(p.cache.sources, removed[0]) {
        ForgetKeeps(fp, h, p, removed[0]);
      }
      PruneKeeps(fp, h, PruneImage(p, removed[0]), removed[1..]);
    }
  }

  lemma {:induction false} SweepKeeps(fp: Fingerprint, h: Host, p: Progress, stale: seq<(u32, u32)>)
    requires Coupled(fp, h, p)
    ensures Coupled(fp, h, Sweep(p, stale))
    decreases |stale|
  {
    hide ExecAll;
    if stale != [] {
      ExecMore(h, p.commands, DeletePlacement(stale[0].0, stale[0].1));
      SweepKeeps(fp, h, SweepOne(p, stale[0]), stale[1..]);
    }
  }

  /** Any update, in any iteration order, keeps host and cache in agreement and the cache consistent. */
  lemma UpdateRefines(fp: Fingerprint, h: Host, c: Cache, frame: seq<Item>, viewChanged: bool,
                      removed: seq<u32>, stale: seq<(u32, u32)>)
    requires Matches(fp, h, c) && Consistent(c)
    requires FrameHonest(fp, frame) && DatalessUnambiguous(c.images, frame)
    ensures var u := Update(c, frame, viewChanged, removed, stale);
            Matches(fp, ExecAll(h, u.commands), u.cache) && Consistent(u.cache)
  {
    var start := Start(c, frame);
    assert Coupled(fp, h, start);
    hide Start, PruneImages, PlaceAll, Sweep, Matches, Consistent, ExecAll;
    PruneKeeps(fp, h, start, removed);
    var pruned := PruneImages(start, removed).(current := {});
    StartImages(c, frame);
    assert Coupled(fp, h, pruned);
    PlaceAllKeeps(fp, h, pruned, frame, viewChanged);
    SweepKeeps(fp, h, PlaceAll(pruned, frame, viewChanged), stale);
  }

  lemma StartImages(c: Cache, frame: seq<Item>)
    ensures Start(c, frame).cache.images == c.images
  {
  }

  /** Clearing empties the host as well as the cache. */
  lemma ClearRefines(fp: Fingerprint, h: Host, c: Cache, order: seq<u32>)
    requires Matches(fp, h, c) && Consistent(c)
    requires Enumerates(order, c.images.Keys)
    ensures Matches(fp, ExecAll(h, ClearCommands(order)), EMPTY)
  {
    ClearDeletes(h, order);
    assert forall id :: id in order <==> id in h.images;
    var g := ExecAll(h, ClearCommands(order));
    assert g.images == map[] && g.placements == map[];
  }

  lemma {:induction false} ClearDeletes(h: Host, order: seq<u32>)
    ensures var g := ExecAll(h, ClearCommands(order));
            && (forall id :: id in g.images <==> id in h.images && id !in order)
            && (forall k :: k in g.placements <==> k in h.placements && k.0 !in order)
    decreases |order|
  {
    if order != [] {
      var cs := ClearCommands(order);
      assert cs[1..] == ClearCommands(order[1..]);
      ClearDeletes(Exec(h, cs[0]), order[1..]);
    }
  }

  // ----- runs -----

  datatype Step =
    | Paint(frame: seq<Item>, viewChanged: bool, removed: seq<u32>, stale: seq<(u32, u32)>)
    | Clear(order: seq<u32>)

  function StepCache(c: Cache, step: Step): Cache {
    match step
    case Paint(frame, viewChanged, removed, stale) => Update(c, frame, viewChanged, removed, stale).cache
    case Clear(_) => EMPTY
  }

  function StepCommands(c: Cache, step: Step): seq<Command> {
    match step
    case Paint(frame, viewChanged, removed, stale) => Update(c, frame, viewChanged, removed, stale).commands
    case Clear(order) => ClearCommands(order)
  }

  ghost predicate StepAllowed(fp: Fingerprint, c: Cache, step: Step) {
    match step
    case Paint(frame, viewChanged, removed, stale) =>
      FrameHonest(fp, frame) && DatalessUnambiguous(c.images, frame) && IsUpdateOrder(c, frame, viewChanged, removed, stale)
    case Clear(order) => Enumerates(order, c.images.Keys)
  }

  ghost predicate RunAllowed(fp: Fingerprint, c: Cache, steps: seq<Step>)
    decreases |steps|
  {
    steps == [] || (StepAllowed(fp, c, steps[0]) && RunAllowed(fp, StepCache(c, steps[0]), steps[1..]))
  }

  function RunCache(c: Cache, steps: seq<Step>): Cache
    decreases |steps|
  {
    if steps == [] then c else RunCache(StepCache(c, steps[0]), steps[1..])
  }

  function RunHost(h: Host, c: Cache, steps: seq<Step>): Host
    decreases |steps|
  {
    if steps == [] then h
    else RunHost(ExecAll(h, StepCommands(c, steps[0])), StepCache(c, steps[0]), steps[1..])
  }

  /** Over every run of updates and clears, host and cache agree and the cache stays consistent. */
  lemma {:induction false} RunRefines(fp: Fingerprint, h: Host, c: Cache, steps: seq<Step>)
    requires Matches(fp, h, c) && Consistent(c)
    requires RunAllowed(fp, c, steps)
    ensures Matches(fp, RunHost(h, c, steps), RunCache(c, steps))
    ensures Consistent(RunCache(c, steps))
    decreases |steps|
  {
    hide Matches, StepCache, StepCommands, StepAllowed;
    if steps != [] {
      StepRefines(fp, h, c, steps[0]);
      RunRefines(fp, ExecAll(h, StepCommands(c, steps[0])), StepCache(c, steps[0]), steps[1..]);
    }
  }

  lemma StepRefines(fp: Fingerprint, h: Host, c: Cache, step: Step)
    requires Matches(fp, h, c) && Consistent(c) && StepAllowed(fp, c, step)
    ensures Matches(fp, ExecAll(h, StepCommands(c, step)), StepCache(c, step))
    ensures Consistent(StepCache(c, step))
  {
    hide Matches, Update, ExecAll, ClearCommands;
    match step {
      case Paint(frame, viewChanged, removed, stale) => UpdateRefines(fp, h, c, frame, viewChanged, removed, stale);
      case Clear(order) => ClearRefines(fp, h, c, order);
    }
  }
}
