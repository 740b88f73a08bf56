/**
 The kitty graphics cache: one frame's placements become upload, display and delete commands,
 while the cache keeps track of what the host terminal holds.
 */
module KittyCache {
  import opened Options
  import opened Bytes
  import opened KittyGeometry

  // ----- what is to be shown -----

  type PaneId = u32

  datatype Format = Rgb | Rgba | Png

  /** The protocol's format codes. */
  function FormatCode(format: Format): u32 {
    match format
    case Rgb => 24
    case Rgba => 32
    case Png => 100
  }

  datatype ImageSig = ImageSig(width: u32, height: u32, formatCode: u32, dataLen: nat, fingerprint: nat)

  datatype SourceKey =
    | Terminal(pane: PaneId, image: u32)
    | PaneLayer(pane: PaneId)

  /** Along one axis: the cells covered and the part of the image they show. */
  datatype Extent = Extent(cells: nat, sourceStart: nat, sourceLen: nat)

  /** What a displayed placement looks like. */
  datatype Shown = Shown(x: nat, y: nat, horizontal: Extent, vertical: Extent, xOffset: u32, yOffset: u32, z: i32)

  datatype PlacementSig = PlacementSig(shown: Shown, scrollback: u32)

  datatype HostPlacement = HostPlacement(
    pane: PaneId,
    areaX: u16,
    areaY: u16,
    horizontal: Axis,
    vertical: Axis,
    source: SourceKey,
    imageId: u32,
    placementId: u32,
    xOffset: u32,
    yOffset: u32,
    z: i32,
    format: Format,
    dataLen: nat,
    fingerprint: nat,
    data: bytes,
    scrollback: u32)

  /** The hash functions that pick host ids; `layer` is only consulted before the data of a pane layer is copied. */
  datatype HostIds = HostIds(
    image: (PaneId, ImageSig) -> u32,
    layer: (PaneId, ImageSig) -> u32,
    placement: (SourceKey, u32, u32) -> u32)

  /** Ids consulted for pane layers have this bit set. */
  const PANE_GRAPHICS_IMAGE_ID_BIT: u32 := 0x8000_0000

  /** A placement as the update sees it: host ids, signature and, when visible, its clipped appearance. */
  datatype Item = Item(
    source: SourceKey,
    hostId: u32,
    placementId: u32,
    sig: ImageSig,
    visible: bool,
    look: PlacementSig,
    data: bytes)
  {
    function Key(): (u32, u32) {
      (hostId, placementId)
    }
  }

  const NOTHING: PlacementSig :=
    PlacementSig(Shown(0, 0, Extent(0, 0, 0), Extent(0, 0, 0), 0, 0, 0), 0)

  function SourceId(source: SourceKey): SourceKey {
    if source.Terminal? then Terminal(source.pane, 0) else source
  }

  function ExtentOf(c: AxisClip): Extent {
    Extent(c.cells, c.sourceStart, c.sourceLen)
  }

  function SigOfPlacement(p: HostPlacement): ImageSig {
    ImageSig(p.horizontal.imageLen, p.vertical.imageLen, FormatCode(p.format), p.dataLen, p.fingerprint)
  }

  /** Collecting a placement: its data is left out when its image is cached. */
  function Withhold(ids: HostIds, images: map<u32, ImageSig>, p: HostPlacement): HostPlacement {
    var sig := SigOfPlacement(p);
    var id := if p.source.Terminal? then ids.image(p.pane, sig) else ids.layer(p.pane, sig);
    if id in images && images[id] == sig then p.(data := []) else p
  }

  function WithholdAll(ids: HostIds, images: map<u32, ImageSig>, placements: seq<HostPlacement>): seq<HostPlacement> {
    seq(|placements|, n requires 0 <= n < |placements| => Withhold(ids, images, placements[n]))
  }

  function Resolve(ids: HostIds, p: HostPlacement): Item {
    var sig := SigOfPlacement(p);
    var (h, v) := (ClipAxis(p.horizontal), ClipAxis(p.vertical));
    var look :=
      if h.None? || v.None? then NOTHING
      else
        PlacementSig(Shown(p.areaX + h.value.offset, p.areaY + v.value.offset, ExtentOf(h.value), ExtentOf(v.value),
                           if p.horizontal.ClippedCells() == 0 then p.xOffset else 0,
                           if p.vertical.ClippedCells() == 0 then p.yOffset else 0, p.z), p.scrollback);
    Item(p.source, ids.image(p.pane, sig), ids.placement(SourceId(p.source), p.imageId, p.placementId), sig,
         h.Some? && v.Some?, look, p.data)
  }

  function ResolveAll(ids: HostIds, placements: seq<HostPlacement>): (frame: seq<Item>)
    ensures |frame| == |placements|
    ensures forall n | 0 <= n < |frame| :: frame[n] == Resolve(ids, placements[n])
  {
    if placements == [] then []
    else [Resolve(ids, placements[0])] + ResolveAll(ids, placements[1..])
  }

  // ----- commands and the host terminal that executes them -----

  datatype Command =
    | Upload(id: u32, sig: ImageSig, data: bytes)
    | Display(id: u32, placementId: u32, shown: Shown)
    | DeleteImage(id: u32)
    | DeletePlacement(id: u32, placementId: u32)

  datatype HostImage = HostImage(width: u32, height: u32, formatCode: u32, data: bytes)

  datatype Host = Host(images: map<u32, HostImage>, placements: map<(u32, u32), Shown>)

  function Without<V>(placements: map<(u32, u32), V>, id: u32): map<(u32, u32), V> {
    map k | k in placements && k.0 != id :: placements[k]
  }

  /**
   Kitty terminal graphics protocol: transmitting replaces an image together with its placements,
   displaying needs the image, `d=I` frees the image and its placements, `d=i` one placement.
   */
  function Exec(h: Host, c: Command): Host {
    match c
    case Upload(id, sig, data) =>
      Host(h.images[id := HostImage(sig.width, sig.height, sig.formatCode, data)], Without(h.placements, id))
    case Display(id, placementId, shown) =>
      if id in h.images then h.(placements := h.placements[(id, placementId) := shown]) else h
    case DeleteImage(id) => Host(h.images - {id}, Without(h.placements, id))
    case DeletePlacement(id, placementId) => h.(placements := h.placements - {(id, placementId)})
  }

  function ExecAll(h: Host, cs: seq<Command>): Host
    decreases |cs|
  {
    if cs == [] then h else ExecAll(Exec(h, cs[0]), cs[1..])
  }

  // ----- the update -----

  datatype Cache = Cache(
    images: map<u32, ImageSig>,
    placements: map<(u32, u32), PlacementSig>,
    sources: map<SourceKey, u32>)

  const EMPTY: Cache := Cache(map[], map[], map[])

  /** The cache, the placements this frame accounts for, and the commands so far. */
  datatype Progress = Progress(cache: Cache, current: set<(u32, u32)>, commands: seq<Command>)

  /** The cached placements of an image. */
  function PlacementsOf(c: Cache, id: u32): set<(u32, u32)> {
    set k | k in c.placements && k.0 == id
  }

  predicate Referenced(sources: map<SourceKey, u32>, id: u32) {
    exists s | s in sources :: sources[s] == id
  }

  /** Emits a `d=I` delete and forgets the image's placements, on the host and in this frame. */
  function DropPlacements(p: Progress, id: u32): Progress {
    Progress(p.cache.(placements := Without(p.cache.placements, id)),
             p.current - PlacementsOf(p.cache, id),
             p.commands + [DeleteImage(id)])
  }

  function ForgetImage(p: Progress, id: u32): Progress {
    var q := DropPlacements(p, id);
    q.(cache := q.cache.(images := q.cache.images - {id}))
  }

  /** Sources of this frame; a clipped-away pane layer is not one. */
  function CurrentSources(frame: seq<Item>): set<SourceKey> {
    set i | 0 <= i < |frame| && (frame[i].source.Terminal? || frame[i].visible) :: frame[i].source
  }

  function Retained(c: Cache, frame: seq<Item>): map<SourceKey, u32> {
    map s | s in c.sources && s in CurrentSources(frame) :: c.sources[s]
  }

  /** Host images of pane layers that are gone. */
  function RemovedLayerImages(c: Cache, frame: seq<Item>): set<u32> {
    set s | s in c.sources && s !in CurrentSources(frame) && s.PaneLayer? :: c.sources[s]
  }

  function PruneImage(p: Progress, id: u32): Progress {
    if Referenced(p.cache.sources, id) then p else ForgetImage(p, id)
  }

  function PruneImages(p: Progress, removed: seq<u32>): Progress
    decreases |removed|
  {
    if removed == [] then p else PruneImages(PruneImage(p, removed[0]), removed[1..])
  }

  /** Uploads the image unless there is no data; the second component says whether it is now on the host. */
  function UploadImage(p: Progress, item: Item): (Progress, bool) {
    if item.data == [] then (p, false)
    else
      (p.(cache := p.cache.(images := p.cache.images[item.hostId := item.sig]),
          commands := p.commands + [Upload(item.hostId, item.sig, item.data)]), true)
  }

  function EnsureImage(p: Progress, item: Item): (Progress, bool) {
    if item.hostId !in p.cache.images then UploadImage(p, item)
    else if p.cache.images[item.hostId] == item.sig then (p, true)
    else UploadImage(DropPlacements(p, item.hostId), item)
  }

  /** Points the source at its image and deletes the one it leaves, unless another source needs it. */
  function ReleaseSuperseded(p: Progress, source: SourceKey, id: u32): Progress {
    var q := p.(cache := p.cache.(sources := p.cache.sources[source := id]));
    if source !in p.cache.sources then q
    else
      var previous := p.cache.sources[source];
      if previous == id || Referenced(q.cache.sources, previous) then q else ForgetImage(q, previous)
  }

  function Show(p: Progress, item: Item, viewChanged: bool): Progress {
    var key := item.Key();
    if key in p.cache.placements && !viewChanged && p.cache.placements[key] == item.look then p
    else
      p.(cache := p.cache.(placements := p.cache.placements[key := item.look]),
         commands := p.commands + [Display(item.hostId, item.placementId, item.look.shown)])
  }

  function PlaceItem(p: Progress, item: Item, viewChanged: bool): Progress {
    if !item.visible then p
    else
      var (q, uploaded) := EnsureImage(p.(current := p.current + {item.Key()}), item);
      if !uploaded then q
      else Show(ReleaseSuperseded(q, item.source, item.hostId), item, viewChanged)
  }

  function PlaceAll(p: Progress, frame: seq<Item>, viewChanged: bool): Progress
    decreases |frame|
  {
    if frame == [] then p else PlaceAll(PlaceItem(p, frame[0], viewChanged), frame[1..], viewChanged)
  }

  function SweepOne(p: Progress, k: (u32, u32)): Progress {
    p.(cache := p.cache.(placements := p.cache.placements - {k}),
       commands := p.commands + [DeletePlacement(k.0, k.1)])
  }

  function Sweep(p: Progress, stale: seq<(u32, u32)>): Progress
    decreases |stale|
  {
    if stale == [] then p else Sweep(SweepOne(p, stale[0]), stale[1..])
  }

  function Start(c: Cache, frame: seq<Item>): Progress {
    Progress(c.(sources := Retained(c, frame)), {}, [])
  }

  /** The state before the stale sweep; `removed` is the order in which pruned layer images are visited. */
  function Placed(c: Cache, frame: seq<Item>, viewChanged: bool, removed: seq<u32>): Progress {
    PlaceAll(PruneImages(Start(c, frame), removed).(current := {}), frame, viewChanged)
  }

  function Stale(p: Progress): set<(u32, u32)> {
    p.cache.placements.Keys - p.current
  }

  /** One update; `removed` and `stale` are the orders in which the two hash collections are visited. */
  function Update(c: Cache, frame: seq<Item>, viewChanged: bool, removed: seq<u32>, stale: seq<(u32, u32)>): Progress {
    Sweep(Placed(c, frame, viewChanged, removed), stale)
  }

  /** `order` lists the elements of `s`, each once. */
  ghost predicate Enumerates<T(!new)>(order: seq<T>, s: set<T>) {
    (forall x :: x in order <==> x in s) && |order| == |s|
  }

  ghost predicate IsUpdateOrder(c: Cache, frame: seq<Item>, viewChanged: bool, removed: seq<u32>, stale: seq<(u32, u32)>) {
    && Enumerates(removed, RemovedLayerImages(c, frame))
    && Enumerates(stale, Stale(Placed(c, frame, viewChanged, removed)))
  }

  /** Clearing deletes every cached image and forgets everything. */
  function ClearCommands(order: seq<u32>): seq<Command> {
    if order == [] then [] else [DeleteImage(order[0])] + ClearCommands(order[1..])
  }

  // ----- the cache object -----

  datatype HostViewKey = HostViewKey(workspaceIndex: nat, tabIndex: nat)

  class HostGraphicsCache {
    var images: map<u32, ImageSig>
    var placements: map<(u32, u32), PlacementSig>
    var sources: map<SourceKey, u32>
    var view: Option<HostViewKey>

    ghost function Abs(): Cache
      reads this
    {
      Cache(images, placements, sources)
    }

    constructor ()
      ensures Abs() == EMPTY && view == None
    {
      images, placements, sources, view := map[], map[], map[], None;
    }

    method ClearBytes() returns (commands: seq<Command>, ghost order: seq<u32>)
      modifies this
      ensures Abs() == EMPTY && view == None
      ensures Enumerates(order, old(images).Keys) && commands == ClearCommands(order)
    {
      hide Enumerates, ClearCommands;
      commands, order := [], [];
      var all := images.Keys;
      var left := all;
      EnumeratesNone(all - left);
      assert commands == ClearCommands(order) by { ClearNone(); }
      while left != {}
        invariant left <= all
        invariant Enumerates(order, all - left)
        invariant commands == ClearCommands(order)
      {
        var id :| id in left;
        EnumeratesMore(order, all - left, id);
        ClearMore(order, id);
        assert all - (left - {id}) == all - left + {id};
        commands, order, left := commands + [DeleteImage(id)], order + [id], left - {id};
      }
      assert all - {} == all;
      images, placements, sources, view := map[], map[], map[], None;
    }

    /** Deletes the image on the host and drops its placements from the cache and the frame. */
    method DeleteImageAndPlacements(p: set<(u32, u32)>, commands: seq<Command>, id: u32)
      returns (current: set<(u32, u32)>, more: seq<Command>)
      modifies `placements
      ensures Progress(Abs(), current, more) == DropPlacements(Progress(old(Abs()), p, commands), id)
    {
      more := commands + [DeleteImage(id)];
      current := p - (set k | k in placements && k.0 == id);
      placements := map k | k in placements && k.0 != id :: placements[k];
    }

    method ReleaseSupersededSourceImage(p: set<(u32, u32)>, commands: seq<Command>, source: SourceKey, id: u32)
      returns (current: set<(u32, u32)>, more: seq<Command>)
      modifies `images, `placements, `sources
      ensures Progress(Abs(), current, more) == ReleaseSuperseded(Progress(old(Abs()), p, commands), source, id)
    {
      current, more := p, commands;
      var known := source in sources;
      var previous := if known then sources[source] else id;
      sources := sources[source := id];
      if !known || previous == id || Referenced(sources, previous) {
        return;
      }
      current, more := DeleteImageAndPlacements(p, commands, previous);
      images := images - {previous};
    }

    /** One placement of the frame. */
    method PlaceOne(p: set<(u32, u32)>, commands: seq<Command>, item: Item, viewChanged: bool)
      returns (current: set<(u32, u32)>, more: seq<Command>)
      modifies `images, `placements, `sources
      ensures Progress(Abs(), current, more) == PlaceItem(Progress(old(Abs()), p, commands), item, viewChanged)
    {
      current, more := p, commands;
      if !item.visible {
        return;
      }
      var key := item.Key();
      current := current + {key};
      if item.hostId !in images || images[item.hostId] != item.sig {
        if item.hostId in images {
          current, more := DeleteImageAndPlacements(current, more, item.hostId);
        }
        if item.data == [] {
          return;
        }
        more := more + [Upload(item.hostId, item.sig, item.data)];
        images := images[item.hostId := item.sig];
      }
      ghost var ready := Progress(Abs(), current, more);
      assert EnsureImage(Progress(old(Abs()), p, commands).(current := p + {key}), item) == (ready, true);
      current, more := ReleaseSupersededSourceImage(current, more, item.source, item.hostId);
      if !(key in placements && !viewChanged && placements[key] == item.look) {
        more := more + [Display(item.hostId, item.placementId, item.look.shown)];
        placements := placements[key := item.look];
      }
    }

    /** Deletes a pane layer's image unless some source still uses it. */
    method PruneOne(ghost p: set<(u32, u32)>, commands: seq<Command>, id: u32)
      returns (ghost current: set<(u32, u32)>, more: seq<Command>)
      modifies `images, `placements, `sources
      ensures Progress(Abs(), current, more) == PruneImage(Progress(old(Abs()), p, commands), id)
    {
      current, more := p, commands;
      if !Referenced(sources, id) {
        current := p - PlacementsOf(Abs(), id);
        var none;
        none, more := DeleteImageAndPlacements({}, commands, id);
        images := images - {id};
      }
    }

    method PruneSources(frame: seq<Item>) returns (commands: seq<Command>, ghost removed: seq<u32>)
      modifies `images, `placements, `sources
      ensures Enumerates(removed, RemovedLayerImages(old(Abs()), frame))
      ensures var q := PruneImages(Start(old(Abs()), frame), removed); Abs() == q.cache && commands == q.commands
    {
      hide Enumerates, PruneImage, PruneImages;
      var kept := CurrentSources(frame);
      var gone := set s | s in sources && s !in kept && s.PaneLayer? :: sources[s];
      sources := map s | s in sources && s in kept :: sources[s];
      assert Progress(Abs(), {}, []) == Start(old(Abs()), frame);
      commands, removed := PruneAll(gone);
    }

    /** Prunes the images in some order. */
    method PruneAll(gone: set<u32>) returns (commands: seq<Command>, ghost removed: seq<u32>)
      modifies `images, `placements, `sources
      ensures Enumerates(removed, gone)
      ensures var q := PruneImages(Progress(old(Abs()), {}, []), removed); Abs() == q.cache && commands == q.commands
    {
      hide Enumerates, PruneImage;
      commands, removed := [], [];
      ghost var current := {};
      var left := gone;
      EnumeratesNone(gone - left);
      while left != {}
        invariant left <= gone
        invariant Enumerates(removed, gone - left)
        invariant Progress(Abs(), current, commands) == PruneImages(Progress(old(Abs()), {}, []), removed)
      {
        var id :| id in left;
        EnumeratesMore(removed, gone - left, id);
        PruneMore(Progress(old(Abs()), {}, []), removed, id);
        assert gone - (left - {id}) == gone - left + {id};
        current, commands := PruneOne(current, commands, id);
        removed, left := removed + [id], left - {id};
      }
      assert gone - {} == gone;
    }

    method SweepStale(current: set<(u32, u32)>, commands: seq<Command>)
      returns (more: seq<Command>, ghost stale: seq<(u32, u32)>)
      modifies `placements
      ensures Enumerates(stale, Stale(Progress(old(Abs()), current, commands)))
      ensures Progress(Abs(), current, more) == Sweep(Progress(old(Abs()), current, commands), stale)
    {
      hide Enumerates;
      more, stale := commands, [];
      var all := placements.Keys - current;
      var left := all;
      EnumeratesNone(all - left);
      while left != {}
        invariant left <= all
        invariant Enumerates(stale, all - left)
        invariant Progress(Abs(), current, more) == Sweep(Progress(old(Abs()), current, commands), stale)
      {
        var key :| key in left;
        EnumeratesMore(stale, all - left, key);
        SweepMore(Progress(old(Abs()), current, commands), stale, key);
        assert all - (left - {key}) == all - left + {key};
        more := more + [DeletePlacement(key.0, key.1)];
        placements := placements - {key};
        stale, left := stale + [key], left - {key};
      }
      assert all - {} == all;
    }

    method EncodeGraphicsUpdate(frame: seq<Item>, viewChanged: bool)
      returns (commands: seq<Command>, ghost removed: seq<u32>, ghost stale: seq<(u32, u32)>)
      modifies `images, `placements, `sources
      ensures IsUpdateOrder(old(Abs()), frame, viewChanged, removed, stale)
      ensures var u := Update(old(Abs()), frame, viewChanged, removed, stale); Abs() == u.cache && commands == u.commands
    {
      commands, removed := PruneSources(frame);
      var current: set<(u32, u32)> := {};
      ghost var start := Progress(Abs(), {}, commands);
      for i := 0 to |frame|
        invariant PlaceAll(Progress(Abs(), current, commands), frame[i..], viewChanged) == PlaceAll(start, frame, viewChanged)
      {
        assert frame[i..][1..] == frame[i + 1..];
        current, commands := PlaceOne(current, commands, frame[i], viewChanged);
      }
      ghost var placed := Progress(Abs(), current, commands);
      commands, stale := SweepStale(current, commands);
    }

    /** Remembers the view; says whether it differs from the one before. */
    method UpdateView(key: Option<HostViewKey>) returns (changed: bool)
      modifies `view
      ensures view == key && (changed <==> key != old(view))
    {
      if view == key {
        return false;
      }
      view := key;
      return true;
    }

    /** One paint: everything is cleared unless graphics can be shown, and otherwise the collected frame is. */
    method EncodeLocalPaneGraphics(ids: HostIds, modeOk: bool, cellOk: bool, key: Option<HostViewKey>, placements: seq<HostPlacement>)
      returns (commands: seq<Command>, ghost order: seq<u32>, ghost stale: seq<(u32, u32)>)
      modifies this
      ensures !(modeOk && cellOk) ==>
                Abs() == EMPTY && view == None && Enumerates(order, old(images).Keys) && commands == ClearCommands(order)
      ensures modeOk && cellOk ==>
                var frame := ResolveAll(ids, WithholdAll(ids, old(images), placements));
                var u := Update(old(Abs()), frame, key != old(view), order, stale);
                && view == key && IsUpdateOrder(old(Abs()), frame, key != old(view), order, stale)
                && Abs() == u.cache && commands == u.commands
    {
      hide Update, IsUpdateOrder, Resolve, Withhold;
      stale := [];
      if !modeOk || !cellOk {
        commands, order := ClearBytes();
        return;
      }
      var frame := ResolveAll(ids, WithholdAll(ids, images, placements));
      var viewChanged := UpdateView(key);
      commands, order, stale := EncodeGraphicsUpdate(frame, viewChanged);
    }
  }

  lemma EnumeratesNone<T(!new)>(s: set<T>)
    requires s == {}
    ensures Enumerates([], s)
  {
  }

  lemma ClearNone()
    ensures ClearCommands([]) == []
  {
  }

  lemma EnumeratesMore<T(!new)>(order: seq<T>, s: set<T>, x: T)
    requires Enumerates(order, s) && x !in s
    ensures Enumerates(order + [x], s + {x})
  {
  }

  lemma {:induction false} ClearMore(order: seq<u32>, id: u32)
    ensures ClearCommands(order + [id]) == ClearCommands(order) + [DeleteImage(id)]
  {
    if order != [] {
      assert (order + [id])[1..] == order[1..] + [id];
      ClearMore(order[1..], id);
    }
  }

  lemma {:induction false} PruneMore(p: Progress, removed: seq<u32>, id: u32)
    ensures PruneImages(p, removed + [id]) == PruneImage(PruneImages(p, removed), id)
    decreases |removed|
  {
    hide PruneImage;
    if removed == [] {
      assert removed + [id] == [id] && [id][1..] == [];
    } else {
      assert (removed + [id])[1..] == removed[1..] + [id];
      PruneMore(PruneImage(p, removed[0]), removed[1..], id);
    }
  }

  lemma {:induction false} SweepMore(p: Progress, stale: seq<(u32, u32)>, key: (u32, u32))
    ensures Sweep(p, stale + [key]) == SweepOne(Sweep(p, stale), key)
    decreases |stale|
  {
    hide SweepOne;
    if stale == [] {
      assert stale + [key] == [key] && [key][1..] == [];
    } else {
      assert (stale + [key])[1..] == stale[1..] + [key];
      SweepMore(SweepOne(p, stale[0]), stale[1..], key);
    }
  }
}
