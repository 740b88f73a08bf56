/**
 Painting as the program does it: each paint collects the placements anew, leaving out the data of
 images the cache lists. Over every run of paints this keeps the host in step, and no placement is
 missed for longer than one paint.
 */
module KittyPaint {
  import opened KittyGeometry
  import opened KittyCache
  import opened KittyRefinement
  import opened KittySupply
  import opened KittyFrame

  /** Images are cached under ids without the bit that marks the ids consulted for pane layers. */
  ghost predicate Below(images: map<u32, ImageSig>) {
    forall id | id in images :: id < PANE_GRAPHICS_IMAGE_ID_BIT
  }

  ghost predicate IdRanges(ids: HostIds) {
    && (forall pane, sig :: ids.image(pane, sig) < PANE_GRAPHICS_IMAGE_ID_BIT)
    && (forall pane, sig :: ids.layer(pane, sig) >= PANE_GRAPHICS_IMAGE_ID_BIT)
  }

  function Collected(ids: HostIds, c: Cache, placements: seq<HostPlacement>): seq<Item> {
    ResolveAll(ids, WithholdAll(ids, c.images, placements))
  }

  datatype Painting =
    | Painted(placements: seq<HostPlacement>, viewChanged: bool, removed: seq<u32>, stale: seq<(u32, u32)>)
    | Wiped(order: seq<u32>)

  function AsStep(ids: HostIds, c: Cache, p: Painting): Step {
    match p
    case Painted(placements, viewChanged, removed, stale) => Paint(Collected(ids, c, placements), viewChanged, removed, stale)
    case Wiped(order) => Clear(order)
  }

  function Next(ids: HostIds, c: Cache, p: Painting): Cache {
    StepCache(c, AsStep(ids, c, p))
  }

  function Sent(ids: HostIds, c: Cache, p: Painting): seq<Command> {
    StepCommands(c, AsStep(ids, c, p))
  }

  /** No two images collide, data is what the signatures say, and the hash collections are visited in some order. */
  ghost predicate Allowed(fp: Fingerprint, ids: HostIds, c: Cache, p: Painting) {
    match p
    case Painted(placements, viewChanged, removed, stale) =>
      && Unambiguous(c.images, ResolveAll(ids, placements)) && FrameHonest(fp, ResolveAll(ids, placements))
      && IsUpdateOrder(c, Collected(ids, c, placements), viewChanged, removed, stale)
    case Wiped(order) => Enumerates(order, c.images.Keys)
  }

  ghost predicate InStep(fp: Fingerprint, h: Host, c: Cache) {
    Matches(fp, h, c) && Consistent(c) && Below(c.images)
  }

  // ----- ids stay in their range -----

  lemma {:induction false} PlaceAllBelow(p: Progress, frame: seq<Item>, viewChanged: bool)
    requires Below(p.cache.images) && forall i | i in frame :: i.hostId < PANE_GRAPHICS_IMAGE_ID_BIT
    ensures Below(PlaceAll(p, frame, viewChanged).cache.images)
    decreases |frame|
  {
    hide PlaceItem;
    if frame != [] {
      ImagesAfterPlace(p, frame[0], viewChanged);
      assert forall i | i in frame[1..] :: i in frame;
      PlaceAllBelow(PlaceItem(p, frame[0], viewChanged), frame[1..], viewChanged);
    }
  }

  lemma UpdateBelow(c: Cache, frame: seq<Item>, viewChanged: bool, removed: seq<u32>, stale: seq<(u32, u32)>)
    requires Below(c.images) && forall i | i in frame :: i.hostId < PANE_GRAPHICS_IMAGE_ID_BIT
    ensures Below(Update(c, frame, viewChanged, removed, stale).cache.images)
  {
    hide PruneImages, PlaceAll, Sweep;
    var p := PruneImages(Start(c, frame), removed).(current := {});
    PruneFacts(Start(c, frame), removed);
    PlaceAllBelow(p, frame, viewChanged);
    SweepFacts(PlaceAll(p, frame, viewChanged), stale);
  }

  lemma CollectedBelow(ids: HostIds, c: Cache, placements: seq<HostPlacement>)
    requires IdRanges(ids)
    ensures forall i | i in Collected(ids, c, placements) :: i.hostId < PANE_GRAPHICS_IMAGE_ID_BIT
  {
    hide ClipAxis;
    var held := WithholdAll(ids, c.images, placements);
    forall i | i in Collected(ids, c, placements)
      ensures i.hostId < PANE_GRAPHICS_IMAGE_ID_BIT
    {
      var n := IndexIn(Collected(ids, c, placements), i);
      assert i == Resolve(ids, held[n]);
    }
  }

  lemma IndexIn<T>(s: seq<T>, x: T) returns (n: nat)
    requires x in s
    ensures n < |s| && s[n] == x
  {
    n :| 0 <= n < |s| && s[n] == x;
  }

  // ----- one paint -----

  lemma CollectedFed(ids: HostIds, c: Cache, placements: seq<HostPlacement>)
    requires IdRanges(ids) && Below(c.images)
    ensures Fed(c.images, ResolveAll(ids, placements), Collected(ids, c, placements))
  {
    hide Fed;
    CollectedIsFed(ids, c.images, placements);
  }

  /** Leaving out the data of cached images leaves a frame honest and unambiguous. */
  lemma FedAllowed(fp: Fingerprint, images: map<u32, ImageSig>, full: seq<Item>, fed: seq<Item>)
    requires Fed(images, full, fed) && Unambiguous(images, full) && FrameHonest(fp, full)
    ensures FrameHonest(fp, fed) && DatalessUnambiguous(images, fed)
  {
    forall i | i in fed
      ensures exists j :: j in full && i == j.(data := i.data) && (i.data == j.data || i.data == [])
    {
      var n := IndexIn(fed, i);
      assert full[n] in full;
    }
  }

  lemma PaintKeeps(fp: Fingerprint, ids: HostIds, h: Host, c: Cache, p: Painting)
    requires IdRanges(ids) && InStep(fp, h, c) && Allowed(fp, ids, c, p)
    ensures InStep(fp, ExecAll(h, Sent(ids, c, p)), Next(ids, c, p))
  {
    hide Matches, Consistent, Update, ExecAll, IsUpdateOrder, Unambiguous, FrameHonest, DatalessUnambiguous, Enumerates, Collected, IdRanges, Fed;
    match p {
      case Painted(placements, viewChanged, removed, stale) =>
        CollectedFed(ids, c, placements);
        FedAllowed(fp, c.images, ResolveAll(ids, placements), Collected(ids, c, placements));
        CollectedBelow(ids, c, placements);
        UpdateBelow(c, Collected(ids, c, placements), viewChanged, removed, stale);
      case Wiped(_) =>
    }
    StepRefines(fp, h, c, AsStep(ids, c, p));
  }

  // ----- runs of paints -----

  ghost predicate RunAllowed(fp: Fingerprint, ids: HostIds, c: Cache, paints: seq<Painting>)
    decreases |paints|
  {
    paints == [] || (Allowed(fp, ids, c, paints[0]) && RunAllowed(fp, ids, Next(ids, c, paints[0]), paints[1..]))
  }

  function CacheAfter(ids: HostIds, c: Cache, paints: seq<Painting>): Cache
    decreases |paints|
  {
    if paints == [] then c else CacheAfter(ids, Next(ids, c, paints[0]), paints[1..])
  }

  function HostAfter(ids: HostIds, h: Host, c: Cache, paints: seq<Painting>): Host
    decreases |paints|
  {
    if paints == [] then h else HostAfter(ids, ExecAll(h, Sent(ids, c, paints[0])), Next(ids, c, paints[0]), paints[1..])
  }

  lemma {:induction false} PaintsKeep(fp: Fingerprint, ids: HostIds, h: Host, c: Cache, paints: seq<Painting>)
    requires IdRanges(ids) && InStep(fp, h, c) && RunAllowed(fp, ids, c, paints)
    ensures InStep(fp, HostAfter(ids, h, c, paints), CacheAfter(ids, c, paints))
    decreases |paints|
  {
    hide InStep, Next, Sent, Allowed, IdRanges;
    if paints != [] {
      PaintKeeps(fp, ids, h, c, paints[0]);
      PaintsKeep(fp, ids, ExecAll(h, Sent(ids, c, paints[0])), Next(ids, c, paints[0]), paints[1..]);
    }
  }

  // ----- the same placements again -----

  /** A settled cache means the host shows the frame. */
  lemma SettledShows(fp: Fingerprint, h: Host, c: Cache, frame: seq<Item>)
    requires Matches(fp, h, c) && Settled(c, frame)
    ensures HostShowsExactly(fp, h, frame)
  {
  }

  lemma PaintTwiceSettles(fp: Fingerprint, ids: HostIds, c: Cache, placements: seq<HostPlacement>, p: Painting, q: Painting)
    requires IdRanges(ids) && Below(c.images) && Consistent(c)
    requires WellFormedFrame(c.images, ResolveAll(ids, placements)) && HasData(ResolveAll(ids, placements))
    requires p.Painted? && p.placements == placements && Allowed(fp, ids, c, p)
    requires q.Painted? && q.placements == placements && Allowed(fp, ids, Next(ids, c, p), q)
    ensures var v := Next(ids, Next(ids, c, p), q);
            && Settled(v, ResolveAll(ids, placements))
            && forall third, removed, stale | SameButData(ResolveAll(ids, placements), third) && IsUpdateOrder(v, third, false, removed, stale) ::
                 Update(v, third, false, removed, stale).commands == []
  {
    var (full, fed, u) := (ResolveAll(ids, placements), Collected(ids, c, placements), Next(ids, c, p));
    hide Update, IsUpdateOrder, Unambiguous, FrameHonest, Fed, WellFormedFrame, HasData, Settled, Collected, IdRanges, Consistent, SameButData;
    CollectedFed(ids, c, placements);
    CollectedBelow(ids, c, placements);
    UpdateBelow(c, fed, p.viewChanged, p.removed, p.stale);
    CollectedFed(ids, u, placements);
    RepaintSettles(c, full, fed, p.viewChanged, p.removed, p.stale, Collected(ids, u, placements), q.viewChanged, q.removed, q.stale);
  }

  /**
   From an empty cache and host, after any run of paints: when the same placements are painted three times,
   the host shows exactly their visible parts after the second paint, and the third, the view being the same,
   sends nothing.
   */
  lemma ThreePaints(fp: Fingerprint, ids: HostIds, paints: seq<Painting>, placements: seq<HostPlacement>,
                    p: Painting, q: Painting, r: Painting)
    requires IdRanges(ids) && RunAllowed(fp, ids, EMPTY, paints)
    requires p.Painted? && q.Painted? && r.Painted? && !r.viewChanged
    requires p.placements == placements && q.placements == placements && r.placements == placements
    requires var c := CacheAfter(ids, EMPTY, paints);
             && WellFormedFrame(c.images, ResolveAll(ids, placements)) && HasData(ResolveAll(ids, placements))
             && RunAllowed(fp, ids, c, [p, q, r])
    ensures var c := CacheAfter(ids, EMPTY, paints);
            var h := HostAfter(ids, Host(map[], map[]), EMPTY, paints);
            && HostShowsExactly(fp, HostAfter(ids, h, c, [p, q]), ResolveAll(ids, placements))
            && Sent(ids, CacheAfter(ids, c, [p, q]), r) == []
  {
    hide IdRanges, Allowed, WellFormedFrame, HasData, HostShowsExactly, Settled, Next, Sent;
    StartInStep(fp);
    var (c, h) := (CacheAfter(ids, EMPTY, paints), HostAfter(ids, Host(map[], map[]), EMPTY, paints));
    PaintsKeep(fp, ids, Host(map[], map[]), EMPTY, paints);
    ThreeAllowed(fp, ids, c, p, q, r);
    TwoAfter(ids, h, c, p, q);
    PaintsKeep(fp, ids, h, c, [p, q]);
    PaintTwiceSettles(fp, ids, c, placements, p, q);
    var v := Next(ids, Next(ids, c, p), q);
    SettledShows(fp, HostAfter(ids, h, c, [p, q]), v, ResolveAll(ids, placements));
    ThirdIsQuiet(fp, ids, v, placements, r);
  }

  lemma StartInStep(fp: Fingerprint)
    ensures InStep(fp, Host(map[], map[]), EMPTY)
  {
  }

  lemma ThreeAllowed(fp: Fingerprint, ids: HostIds, c: Cache, p: Painting, q: Painting, r: Painting)
    requires RunAllowed(fp, ids, c, [p, q, r])
    ensures Allowed(fp, ids, c, p) && Allowed(fp, ids, Next(ids, c, p), q) && Allowed(fp, ids, Next(ids, Next(ids, c, p), q), r)
    ensures RunAllowed(fp, ids, c, [p, q])
  {
    hide Allowed, Next;
    var (u, v) := (Next(ids, c, p), Next(ids, Next(ids, c, p), q));
    assert [p, q, r][1..] == [q, r] && [q, r][1..] == [r] && [p, q][1..] == [q] && [q][1..] == [];
    assert RunAllowed(fp, ids, u, [q, r]) && RunAllowed(fp, ids, v, [r]);
    assert RunAllowed(fp, ids, v, []) && RunAllowed(fp, ids, u, [q]);
  }

  lemma TwoAfter(ids: HostIds, h: Host, c: Cache, p: Painting, q: Painting)
    ensures CacheAfter(ids, c, [p, q]) == Next(ids, Next(ids, c, p), q)
  {
    hide Next;
    assert [p, q][1..] == [q] && [q][1..] == [];
    assert CacheAfter(ids, Next(ids, c, p), [q]) == CacheAfter(ids, Next(ids, Next(ids, c, p), q), []);
  }

  lemma ThirdIsQuiet(fp: Fingerprint, ids: HostIds, v: Cache, placements: seq<HostPlacement>, r: Painting)
    requires r.Painted? && !r.viewChanged && r.placements == placements && Allowed(fp, ids, v, r)
    requires IdRanges(ids) && Below(v.images)
    requires forall third, removed, stale | SameButData(ResolveAll(ids, placements), third) && IsUpdateOrder(v, third, false, removed, stale) ::
               Update(v, third, false, removed, stale).commands == []
    ensures Sent(ids, v, r) == []
  {
    hide Update, IsUpdateOrder, Unambiguous, FrameHonest, Fed, Collected, IdRanges, SameButData;
    CollectedFed(ids, v, placements);
    FedSameBack(v.images, ResolveAll(ids, placements), Collected(ids, v, placements));
  }

  lemma FedSameBack(images: map<u32, ImageSig>, full: seq<Item>, fed: seq<Item>)
    requires Fed(images, full, fed)
    ensures SameButData(full, fed)
  {
  }
}
