/**
 What one frame's update achieves: the host ends up showing exactly the frame's visible
 placements, and painting the same frame again sends nothing.
 */
module KittyFrame {
  import opened KittyGeometry
  import opened KittyCache
  import opened KittyRefinement
  import opened KittySupply

  /** The image is cached and this very source points at it. */
  ghost predicate Backed(c: Cache, i: Item) {
    && i.hostId in c.images && c.images[i.hostId] == i.sig
    && i.source in c.sources && c.sources[i.source] == i.hostId
  }

  /** The visible placements, and no others, are shown, backed by their images and sources. */
  ghost predicate Settled(c: Cache, frame: seq<Item>) {
    && c.sources.Keys <= CurrentSources(frame)
    && (forall i | i in frame && i.visible :: Backed(c, i))
    && ShowsExactly(c.placements, frame)
  }

  lemma PointingSettles(c: Cache, frame: seq<Item>, u: Cache)
    requires Pointing(u.sources, c, frame, |frame|)
    ensures u.sources.Keys <= CurrentSources(frame)
  {
    forall s | s in u.sources
      ensures s in CurrentSources(frame)
    {
      if Moved(c, frame, |frame|, s) {
        var m :| 0 <= m < |frame| && Arrived(c, frame, m) && frame[m].source == s;
        assert frame[m].visible;
      }
    }
  }

  lemma ArrivedBacked(c: Cache, frame: seq<Item>, u: Cache, m: nat)
    requires Pointing(u.sources, c, frame, |frame|) && Holding(u.images, c, frame, |frame|)
    requires m < |frame| && Arrived(c, frame, m)
    ensures frame[m].visible && Backed(u, frame[m])
  {
    assert frame[m].visible;
    hide Arrived;
    assert Brought(c, frame, |frame|, frame[m].hostId);
    assert Held(c, frame, |frame|, frame[m].hostId);
    assert frame[m] in frame;
  }

  lemma StaysConsistent(c: Cache, frame: seq<Item>, u: Cache)
    requires Consistent(c)
    requires Pointing(u.sources, c, frame, |frame|) && Holding(u.images, c, frame, |frame|) && ShowsArrived(u.placements, c, frame)
    ensures Consistent(u)
  {
    forall k | k in u.placements
      ensures k.0 in u.images
    {
      var m :| 0 <= m < |frame| && frame[m].visible && frame[m].Key() == k;
      ArrivedBacked(c, frame, u, m);
    }
    forall s | s in u.sources
      ensures u.sources[s] in u.images
    {
      if Moved(c, frame, |frame|, s) {
        var m :| 0 <= m < |frame| && Arrived(c, frame, m) && frame[m].source == s;
        ArrivedBacked(c, frame, u, m);
      } else {
        var id := Retained(c, frame)[s];
        assert PointsAt(c, frame, s, id);
        assert Survives(c, frame, |frame|, id) && Held(c, frame, |frame|, id);
      }
    }
  }

  /** After the update of a supplied frame the cache is settled on it. */
  lemma UpdateSettles(c: Cache, frame: seq<Item>, viewChanged: bool, removed: seq<u32>, stale: seq<(u32, u32)>)
    requires WellFormedFrame(c.images, frame) && Consistent(c) && Supplied(c, frame)
    requires IsUpdateOrder(c, frame, viewChanged, removed, stale)
    ensures Settled(Update(c, frame, viewChanged, removed, stale).cache, frame)
  {
    hide WellFormedFrame, Update, Arrived, SuppliedAt, IsUpdateOrder, Pointing, Holding, ShowsArrived, ShowsExactly, Backed;
    UpdateExact(c, frame, viewChanged, removed, stale);
    ShowsExactlyIffSupplied(c, frame, viewChanged, removed, stale);
    AllArrive(c, frame, |frame|);
    var u := Update(c, frame, viewChanged, removed, stale).cache;
    PointingSettles(c, frame, u);
    forall i | i in frame && i.visible
      ensures Backed(u, i)
    {
      var m :| 0 <= m < |frame| && frame[m] == i;
      ArrivedBacked(c, frame, u, m);
    }
  }

  /** The host shows exactly the frame's visible placements, as clipped now, with their images. */
  ghost predicate HostShowsExactly(fp: Fingerprint, g: Host, frame: seq<Item>) {
    && (forall k | k in g.placements :: ComesFrom(frame, k))
    && (forall i | i in frame && i.visible ::
          && i.Key() in g.placements && g.placements[i.Key()] == i.look.shown
          && i.hostId in g.images && SigOf(fp, g.images[i.hostId]) == i.sig)
  }

  /**
   An update with no id collisions, distinct placement keys and one image per source ends with the host
   showing exactly this frame's visible placements, as clipped now, if and only if the frame is supplied.
   */
  lemma FrameExact(fp: Fingerprint, h: Host, c: Cache, frame: seq<Item>, viewChanged: bool,
                   removed: seq<u32>, stale: seq<(u32, u32)>)
    requires Matches(fp, h, c) && Consistent(c) && FrameHonest(fp, frame)
    requires WellFormedFrame(c.images, frame)
    requires IsUpdateOrder(c, frame, viewChanged, removed, stale)
    ensures HostShowsExactly(fp, ExecAll(h, Update(c, frame, viewChanged, removed, stale).commands), frame)
            <==> Supplied(c, frame)
  {
    assert DatalessUnambiguous(c.images, frame);
    hide WellFormedFrame, Update, ExecAll, IsUpdateOrder, Supplied, Arrived;
    UpdateRefines(fp, h, c, frame, viewChanged, removed, stale);
    UpdateExact(c, frame, viewChanged, removed, stale);
    ShowsExactlyIffSupplied(c, frame, viewChanged, removed, stale);
    if Supplied(c, frame) {
      UpdateSettles(c, frame, viewChanged, removed, stale);
    }
    var u := Update(c, frame, viewChanged, removed, stale);
    var g := ExecAll(h, u.commands);
    if HostShowsExactly(fp, g, frame) {
      KeysShow(c, frame, u.cache.placements);
    }
  }

  /** A frame whose visible placements are all listed is shown as it is now. */
  lemma KeysShow(c: Cache, frame: seq<Item>, placements: map<(u32, u32), PlacementSig>)
    requires ShowsArrived(placements, c, frame)
    requires forall k | k in placements :: ComesFrom(frame, k)
    requires forall i | i in frame && i.visible :: i.Key() in placements
    ensures ShowsExactly(placements, frame)
  {
    hide Arrived;
    forall i | i in frame && i.visible
      ensures placements[i.Key()] == i.look
    {
      var m :| 0 <= m < |frame| && frame[m] == i;
    }
  }

  // ----- painting again -----

  /** The same placements, whatever data comes with them. */
  ghost predicate SameButData(frame: seq<Item>, again: seq<Item>) {
    |frame| == |again| && forall n | 0 <= n < |frame| :: again[n] == frame[n].(data := again[n].data)
  }

  /** Whatever is in the one frame has its like in the other. */
  lemma SameItem(frame: seq<Item>, again: seq<Item>, i: Item) returns (j: Item)
    requires SameButData(frame, again) && i in again
    ensures j in frame && i == j.(data := i.data)
  {
    var n :| 0 <= n < |again| && again[n] == i;
    j := frame[n];
  }

  lemma SameBack(frame: seq<Item>, again: seq<Item>)
    requires SameButData(frame, again)
    ensures SameButData(again, frame)
  {
  }

  lemma SameSources(frame: seq<Item>, again: seq<Item>)
    requires SameButData(frame, again)
    ensures CurrentSources(frame) <= CurrentSources(again)
  {
    forall s | s in CurrentSources(frame) ensures s in CurrentSources(again) {
      var n :| 0 <= n < |frame| && (frame[n].source.Terminal? || frame[n].visible) && s == frame[n].source;
      assert again[n].source == s;
    }
  }

  lemma SameSettled(c: Cache, frame: seq<Item>, again: seq<Item>)
    requires Settled(c, frame) && SameButData(frame, again)
    ensures Settled(c, again)
  {
    SameSources(frame, again);
    SameBack(frame, again);
    hide SameButData, CurrentSources;
    forall i | i in again && i.visible
      ensures Backed(c, i) && i.Key() in c.placements && c.placements[i.Key()] == i.look
    {
      var j := SameItem(frame, again, i);
      assert j.Key() == i.Key();
    }
    hide Backed;
    forall k | k in c.placements ensures ComesFrom(again, k) {
      assert ComesFrom(frame, k);
      var i :| i in frame && i.visible && i.Key() == k;
      var j := SameItem(again, frame, i);
      assert j.Key() == k;
    }
  }

  /** The display commands of a frame's visible placements, in order. */
  function Redisplay(frame: seq<Item>): seq<Command> {
    if frame == [] then []
    else
      (if frame[0].visible then [Display(frame[0].hostId, frame[0].placementId, frame[0].look.shown)] else [])
      + Redisplay(frame[1..])
  }

  /** A visible placement is on the host as it should be. */
  ghost predicate Kept(c: Cache, i: Item) {
    Backed(c, i) && i.Key() in c.placements && c.placements[i.Key()] == i.look
  }

  lemma SettledStep(p: Progress, x: Item, viewChanged: bool)
    requires x.visible ==> Kept(p.cache, x)
    ensures PlaceItem(p, x, viewChanged) ==
            p.(current := if x.visible then p.current + {x.Key()} else p.current,
               commands := p.commands + if viewChanged && x.visible then [Display(x.hostId, x.placementId, x.look.shown)] else [])
  {
    if x.visible {
      assert p.cache.sources[x.source := x.hostId] == p.cache.sources;
      assert p.cache.placements[x.Key() := x.look] == p.cache.placements;
    }
  }

  lemma {:induction false} SettledPlaceAll(p: Progress, frame: seq<Item>, viewChanged: bool)
    requires forall i | i in frame && i.visible :: Kept(p.cache, i)
    ensures var q := PlaceAll(p, frame, viewChanged);
            && q.cache == p.cache
            && q.commands == p.commands + (if viewChanged then Redisplay(frame) else [])
            && p.current <= q.current && (forall i | i in frame && i.visible :: i.Key() in q.current)
    decreases |frame|
  {
    hide PlaceItem, Kept;
    if frame != [] {
      var (x, rest) := (frame[0], frame[1..]);
      SettledStep(p, x, viewChanged);
      var q := PlaceItem(p, x, viewChanged);
      assert forall i | i in rest :: i in frame;
      SettledPlaceAll(q, rest, viewChanged);
      RedisplayMore(p.commands, frame);
      assert forall i | i in frame :: i == x || i in rest;
    }
  }

  lemma Joined<T>(a: seq<T>, b: seq<T>, c: seq<T>)
    ensures a + b + c == a + (b + c)
  {
  }

  lemma RedisplayMore(before: seq<Command>, frame: seq<Item>)
    requires frame != []
    ensures var x := frame[0];
            before + (if x.visible then [Display(x.hostId, x.placementId, x.look.shown)] else []) + Redisplay(frame[1..])
            == before + Redisplay(frame)
  {
    var x := frame[0];
    var now := if x.visible then [Display(x.hostId, x.placementId, x.look.shown)] else [];
    var later := Redisplay(frame[1..]);
    assert Redisplay(frame) == now + later;
    hide Redisplay;
    Joined(before, now, later);
  }

  /**
   Painting again with the same placements leaves the cache as it is; it sends nothing while the
   view is unchanged, and one display command per visible placement when it changed.
   */
  lemma Quiescence(c: Cache, frame: seq<Item>, again: seq<Item>, viewChanged: bool,
                   removed: seq<u32>, stale: seq<(u32, u32)>)
    requires Settled(c, frame) && SameButData(frame, again)
    requires IsUpdateOrder(c, again, viewChanged, removed, stale)
    ensures var u := Update(c, again, viewChanged, removed, stale);
            u.cache == c && u.commands == if viewChanged then Redisplay(again) else []
  {
    SameSettled(c, frame, again);
    hide PlaceAll, Sweep;
    assert Retained(c, again) == c.sources;
    assert RemovedLayerImages(c, again) == {};
    assert removed == [] by { assert |removed| == 0; }
    var start := Start(c, again);
    assert start == Progress(c, {}, []);
    SettledPlaceAll(start, again, viewChanged);
    var placed := PlaceAll(start, again, viewChanged);
    assert Stale(placed) == {};
    assert stale == [] by { assert |stale| == 0; }
    SweepFacts(placed, stale);
  }

  // ----- data withheld for cached images -----

  /** `fed` is the frame `full` with the data left out of placements whose image is cached. */
  ghost predicate Fed(images: map<u32, ImageSig>, full: seq<Item>, fed: seq<Item>) {
    && |fed| == |full|
    && forall n | 0 <= n < |full| ::
         || fed[n] == full[n]
         || (fed[n] == full[n].(data := []) && full[n].hostId in images && images[full[n].hostId] == full[n].sig)
  }

  /** Every visible placement has data to bring. */
  ghost predicate HasData(full: seq<Item>) {
    forall n | 0 <= n < |full| && full[n].visible :: full[n].data != []
  }

  /** A cached image that the frame uses is pointed at by a source of the frame that shows it. */
  lemma CachedHasSource(c: Cache, frame: seq<Item>, u: Cache, n: nat) returns (m: nat)
    requires Pointing(u.sources, c, frame, |frame|) && Holding(u.images, c, frame, |frame|)
    requires n < |frame| && frame[n].visible && frame[n].hostId in u.images
    ensures m < |frame| && frame[m].visible && frame[m].hostId == frame[n].hostId
    ensures frame[m].source in u.sources && u.sources[frame[m].source] == frame[m].hostId
  {
    var id := frame[n].hostId;
    assert Held(c, frame, |frame|, id);
    if Survives(c, frame, |frame|, id) {
      SurvivedEarlier(c, frame, n, |frame|, id);
      assert Held(c, frame, n, id) && Arrived(c, frame, n);
      m := n;
    } else {
      assert Brought(c, frame, |frame|, id);
      m :| 0 <= m < |frame| && Arrived(c, frame, m) && frame[m].hostId == id;
    }
    ArrivedBacked(c, frame, u, m);
  }

  lemma FedAt(images: map<u32, ImageSig>, full: seq<Item>, fed: seq<Item>, n: nat)
    requires Fed(images, full, fed) && n < |full|
    ensures |fed| == |full| && fed[n] == full[n].(data := fed[n].data)
    ensures full[n].data != [] && fed[n].data == [] ==> full[n].hostId in images
  {
  }

  /** A placement whose image some kept source points at, that source showing the image itself, is supplied. */
  lemma SourceSupplies(u: Cache, frame: seq<Item>, n: nat, m: nat)
    requires n < |frame| && m < |frame| && frame[n].visible && frame[m].visible && OneImagePerSource(frame)
    requires frame[m].hostId == frame[n].hostId && frame[n].hostId in u.images
    requires frame[m].source in u.sources && u.sources[frame[m].source] == frame[n].hostId
    ensures SuppliedAt(u, frame, n)
  {
    var (id, s) := (frame[n].hostId, frame[m].source);
    assert s in CurrentSources(frame);
    assert PointsAt(u, frame, s, id);
    hide PointsAt;
    if Uses(frame, n, s) {
      var a :| 0 <= a < n && frame[a].visible && frame[a].source == s;
      assert frame[a] in frame && frame[m] in frame;
    }
  }

  /** The data withheld because of what the last update left in the cache is never missed. */
  lemma RefedIsSupplied(c: Cache, full: seq<Item>, fed: seq<Item>, again: seq<Item>, u: Cache)
    requires HasData(full) && Fed(c.images, full, fed) && Fed(u.images, full, again)
    requires OneImagePerSource(again)
    requires Pointing(u.sources, c, fed, |fed|) && Holding(u.images, c, fed, |fed|)
    ensures Supplied(u, again)
  {
    assert |fed| == |full| == |again|;
    hide Pointing, Holding, Fed, SuppliedAt, OneImagePerSource;
    forall n | 0 <= n < |again| && again[n].visible
      ensures SuppliedAt(u, again, n)
    {
      if again[n].data == [] {
        FedAt(u.images, full, again, n);
        FedAt(c.images, full, fed, n);
        var m := CachedHasSource(c, fed, u, n);
        FedAt(u.images, full, again, m);
        FedAt(c.images, full, fed, m);
        SourceSupplies(u, again, n, m);
      } else {
        assert SuppliedAt(u, again, n) by { DataSupplies(u, again, n); }
      }
    }
  }

  lemma DataSupplies(u: Cache, frame: seq<Item>, n: nat)
    requires n < |frame| && frame[n].data != []
    ensures SuppliedAt(u, frame, n)
  {
  }

  lemma WellFormedParts(images: map<u32, ImageSig>, frame: seq<Item>)
    requires WellFormedFrame(images, frame)
    ensures Unambiguous(images, frame) && DistinctKeys(frame) && OneImagePerSource(frame)
  {
  }

  lemma FedWellFormed(images: map<u32, ImageSig>, full: seq<Item>, fed: seq<Item>)
    requires Fed(images, full, fed) && DistinctKeys(full) && OneImagePerSource(full)
    requires forall i, j | i in full && j in full && i.visible && j.visible && i.hostId == j.hostId :: i.sig == j.sig
    requires forall i | i in full && i.visible && i.hostId in images :: images[i.hostId] == i.sig
    ensures WellFormedFrame(images, fed)
  {
    assert forall n | 0 <= n < |fed| :: full[n] in full && fed[n] == full[n].(data := fed[n].data);
    assert forall a | 0 <= a < |fed| :: fed[a].Key() == full[a].Key();
    forall i | i in fed
      ensures exists j :: j in full && i == j.(data := i.data)
    {
      var n :| 0 <= n < |fed| && fed[n] == i;
      assert full[n] in full;
    }
  }

  /**
   Painting a frame, then painting it again with the data withheld anew: whatever the first update missed,
   the second settles, and while the view is unchanged a third sends nothing.
   */
  lemma RepaintSettles(c: Cache, full: seq<Item>, fed: seq<Item>, viewChanged: bool, removed: seq<u32>, stale: seq<(u32, u32)>,
                       again: seq<Item>, viewChanged': bool, removed': seq<u32>, stale': seq<(u32, u32)>)
    requires HasData(full) && WellFormedFrame(c.images, full) && Consistent(c)
    requires Fed(c.images, full, fed) && IsUpdateOrder(c, fed, viewChanged, removed, stale)
    requires var u := Update(c, fed, viewChanged, removed, stale).cache;
             && Fed(u.images, full, again) && IsUpdateOrder(u, again, viewChanged', removed', stale')
    ensures var u := Update(c, fed, viewChanged, removed, stale).cache;
            var v := Update(u, again, viewChanged', removed', stale').cache;
            && Settled(v, full)
            && forall third, removed'', stale'' | SameButData(full, third) && IsUpdateOrder(v, third, false, removed'', stale'') ::
                 Update(v, third, false, removed'', stale'').commands == []
  {
    hide Update, IsUpdateOrder, Supplied, Settled, Pointing, Holding, ShowsArrived, Fed, Consistent, WellFormedFrame, HasData, SameButData;
    WellFormedParts(c.images, full);
    FedWellFormed(c.images, full, fed);
    UpdateExact(c, fed, viewChanged, removed, stale);
    var u := Update(c, fed, viewChanged, removed, stale).cache;
    StaysConsistent(c, fed, u);
    FedSigs(c, full, fed, u);
    FedWellFormed(u.images, full, again);
    assert OneImagePerSource(again) by { WellFormedParts(u.images, again); }
    RefedIsSupplied(c, full, fed, again, u);
    UpdateSettles(u, again, viewChanged', removed', stale');
    FedSame(u.images, full, again);
    var v := Update(u, again, viewChanged', removed', stale').cache;
    SameSettled(v, again, full);
    forall third, removed'', stale'' | SameButData(full, third) && IsUpdateOrder(v, third, false, removed'', stale'')
      ensures Update(v, third, false, removed'', stale'').commands == []
    {
      Quiescence(v, full, third, false, removed'', stale'');
    }
  }

  lemma FedSigs(c: Cache, full: seq<Item>, fed: seq<Item>, u: Cache)
    requires Fed(c.images, full, fed) && Holding(u.images, c, fed, |fed|)
    ensures forall i | i in full && i.visible && i.hostId in u.images :: u.images[i.hostId] == i.sig
  {
    hide Held;
    forall i | i in full && i.visible && i.hostId in u.images
      ensures u.images[i.hostId] == i.sig
    {
      var n :| 0 <= n < |full| && full[n] == i;
      assert fed[n] in fed;
    }
  }

  lemma FedSame(images: map<u32, ImageSig>, full: seq<Item>, fed: seq<Item>)
    requires Fed(images, full, fed)
    ensures SameButData(fed, full)
  {
  }

  /** Painting a supplied frame twice: the second update sends nothing. */
  lemma PaintTwice(c: Cache, frame: seq<Item>, viewChanged: bool, removed: seq<u32>, stale: seq<(u32, u32)>,
                   again: seq<Item>, removed': seq<u32>, stale': seq<(u32, u32)>)
    requires WellFormedFrame(c.images, frame) && Consistent(c) && Supplied(c, frame)
    requires IsUpdateOrder(c, frame, viewChanged, removed, stale)
    requires SameButData(frame, again)
    requires IsUpdateOrder(Update(c, frame, viewChanged, removed, stale).cache, again, false, removed', stale')
    ensures var u := Update(c, frame, viewChanged, removed, stale);
            var v := Update(u.cache, again, false, removed', stale');
            v.commands == [] && v.cache == u.cache
  {
    hide Update, IsUpdateOrder, Settled, WellFormedFrame, Supplied;
    UpdateSettles(c, frame, viewChanged, removed, stale);
    Quiescence(Update(c, frame, viewChanged, removed, stale).cache, frame, again, false, removed', stale');
  }

  /**
   A frame that is not supplied: an image is cached for one source, which in this frame moves on to
   new content, while another source is about to share the cached image and so brings no data. The
   image is deleted as superseded before it is needed, and the second placement is not shown until
   the frame is painted again.
   */
  lemma SharedImageMissesAFrame(x: Item, y: Item, stale: seq<(u32, u32)>)
    requires x.visible && y.visible && x.data != [] && y.data == []
    requires x.hostId != y.hostId && x.source.Terminal? && y.source.Terminal? && x.source != y.source
    ensures var c := Cache(map[y.hostId := y.sig], map[], map[x.source := y.hostId]);
            && WellFormedFrame(c.images, [x, y]) && Consistent(c)
            && y.hostId in c.images && c.images[y.hostId] == y.sig
            && y.Key() !in Update(c, [x, y], false, [], stale).cache.placements
  {
    var c := Cache(map[y.hostId := y.sig], map[], map[x.source := y.hostId]);
    var p := Progress(c, {}, []);
    TwoSources(x, y);
    hide PlaceItem, Sweep, WellFormedFrame, Start;
    SharedStart(c, x, y);
    PlaceFresh(p, x);
    MissingStaysMissing(PlaceItem(p, x, false), y);
    PlaceTwo(p, x, y);
    SweepFacts(Placed(c, [x, y], false, []), stale);
  }

  lemma TwoSources(x: Item, y: Item)
    requires x.hostId != y.hostId && x.source != y.source
    ensures WellFormedFrame(map[y.hostId := y.sig], [x, y])
  {
  }

  lemma SharedStart(c: Cache, x: Item, y: Item)
    requires c.sources.Keys == {x.source} && x.visible
    ensures Start(c, [x, y]) == Progress(c, {}, [])
  {
    assert [x, y][0].source in CurrentSources([x, y]);
    assert Retained(c, [x, y]) == c.sources;
  }

  lemma PlaceTwo(p: Progress, x: Item, y: Item)
    ensures PlaceAll(p, [x, y], false) == PlaceItem(PlaceItem(p, x, false), y, false)
  {
    hide PlaceItem;
    var (q, r) := (PlaceItem(p, x, false), PlaceItem(PlaceItem(p, x, false), y, false));
    assert [x, y][1..] == [y] && [y][1..] == [];
    assert PlaceAll(r, [], false) == r;
    assert PlaceAll(q, [y], false) == r;
  }

  lemma MissingStaysMissing(p: Progress, y: Item)
    requires y.hostId !in p.cache.images && y.data == [] && y.Key() !in p.cache.placements
    ensures y.Key() !in PlaceItem(p, y, false).cache.placements
  {
  }

  lemma PlaceFresh(p: Progress, x: Item)
    requires x.visible && x.data != [] && x.hostId !in p.cache.images && p.cache.placements == map[]
    requires x.source in p.cache.sources && p.cache.sources == map[x.source := p.cache.sources[x.source]]
    requires p.cache.sources[x.source] != x.hostId
    ensures var q := PlaceItem(p, x, false);
            p.cache.sources[x.source] !in q.cache.images && forall k | k in q.cache.placements :: k == x.Key()
  {
    var previous := p.cache.sources[x.source];
    assert p.cache.sources[x.source := x.hostId] == map[x.source := x.hostId];
    assert !Referenced(map[x.source := x.hostId], previous);
  }

  // ----- from pane placements to the host's screen -----

  /**
   Collecting placements withholds data as the rule for fed frames asks: image ids of pane layers lie above
   those images are cached under, so the data of a pane layer is always there.
   */
  lemma CollectedIsFed(ids: HostIds, images: map<u32, ImageSig>, placements: seq<HostPlacement>)
    requires forall id | id in images :: id < PANE_GRAPHICS_IMAGE_ID_BIT
    requires forall pane, sig :: ids.layer(pane, sig) >= PANE_GRAPHICS_IMAGE_ID_BIT
    ensures Fed(images, ResolveAll(ids, placements), ResolveAll(ids, WithholdAll(ids, images, placements)))
    ensures forall n | 0 <= n < |placements| && placements[n].source.PaneLayer? :: WithholdAll(ids, images, placements)[n] == placements[n]
  {
    hide ClipAxis;
    hide Resolve, Withhold;
    forall n | 0 <= n < |placements|
      ensures var (p, q) := (placements[n], WithholdAll(ids, images, placements)[n]);
              && (p.source.PaneLayer? ==> q == p)
              && (Resolve(ids, q) == Resolve(ids, p)
                  || (Resolve(ids, q) == Resolve(ids, p).(data := []) && Resolve(ids, p).hostId in images
                      && images[Resolve(ids, p).hostId] == Resolve(ids, p).sig))
    {
      WithheldResolves(ids, images, placements[n]);
    }
  }

  lemma WithheldResolves(ids: HostIds, images: map<u32, ImageSig>, p: HostPlacement)
    requires forall id | id in images :: id < PANE_GRAPHICS_IMAGE_ID_BIT
    requires forall pane, sig :: ids.layer(pane, sig) >= PANE_GRAPHICS_IMAGE_ID_BIT
    ensures var (i, j) := (Resolve(ids, p), Resolve(ids, Withhold(ids, images, p)));
            && (p.source.PaneLayer? ==> Withhold(ids, images, p) == p)
            && (j == i || (j == i.(data := []) && i.hostId in images && images[i.hostId] == i.sig))
  {
    hide ClipAxis;
    var q := Withhold(ids, images, p);
    assert q == p.(data := q.data);
    assert p.source.PaneLayer? ==> ids.layer(p.pane, SigOfPlacement(p)) !in images;
  }

  /** Wholly inside the placement's pane, showing part of the requested rectangle of the image. */
  ghost predicate InsidePane(p: HostPlacement, shown: Shown) {
    && p.areaX <= shown.x && 1 <= shown.horizontal.cells && shown.x + shown.horizontal.cells <= p.areaX + p.horizontal.paneCells
    && p.areaY <= shown.y && 1 <= shown.vertical.cells && shown.y + shown.vertical.cells <= p.areaY + p.vertical.paneCells
    && ShowsPart(p.horizontal, shown.horizontal) && ShowsPart(p.vertical, shown.vertical)
  }

  ghost predicate ShowsPart(a: Axis, c: Extent) {
    && 1 <= c.sourceLen && a.sourceStart <= c.sourceStart
    && c.sourceStart + c.sourceLen <= a.sourceStart + a.RequestedLen()
    && c.sourceStart + c.sourceLen <= a.imageLen
  }

  lemma ResolvedInside(ids: HostIds, p: HostPlacement)
    requires FitsU32(p.horizontal) && FitsU32(p.vertical) && Resolve(ids, p).visible
    ensures InsidePane(p, Resolve(ids, p).look.shown)
  {
    hide ClipAxis, FitsU32;
    CropStaysInside(p.horizontal);
    CropStaysInside(p.vertical);
  }

  /** Everything the host shows after an update is a visible placement of the frame, as it looks now. */
  lemma ShownAreVisible(fp: Fingerprint, h: Host, c: Cache, frame: seq<Item>, viewChanged: bool,
                        removed: seq<u32>, stale: seq<(u32, u32)>, k: (u32, u32)) returns (n: nat)
    requires Matches(fp, h, c) && Consistent(c) && FrameHonest(fp, frame)
    requires WellFormedFrame(c.images, frame) && IsUpdateOrder(c, frame, viewChanged, removed, stale)
    requires k in ExecAll(h, Update(c, frame, viewChanged, removed, stale).commands).placements
    ensures n < |frame| && frame[n].visible
    ensures ExecAll(h, Update(c, frame, viewChanged, removed, stale).commands).placements[k] == frame[n].look.shown
  {
    assert DatalessUnambiguous(c.images, frame);
    hide WellFormedFrame, Update, ExecAll, IsUpdateOrder, Arrived;
    UpdateRefines(fp, h, c, frame, viewChanged, removed, stale);
    UpdateExact(c, frame, viewChanged, removed, stale);
    n :| 0 <= n < |frame| && frame[n].visible && frame[n].Key() == k;
  }

  /** After an update, everything the host shows lies inside some placement's pane and inside its image. */
  lemma ShownInsidePanes(fp: Fingerprint, ids: HostIds, h: Host, c: Cache, placements: seq<HostPlacement>, viewChanged: bool,
                         removed: seq<u32>, stale: seq<(u32, u32)>)
    requires forall p | p in placements :: FitsU32(p.horizontal) && FitsU32(p.vertical)
    requires var frame := ResolveAll(ids, placements);
             && Matches(fp, h, c) && Consistent(c) && FrameHonest(fp, frame)
             && WellFormedFrame(c.images, frame) && IsUpdateOrder(c, frame, viewChanged, removed, stale)
    ensures var g := ExecAll(h, Update(c, ResolveAll(ids, placements), viewChanged, removed, stale).commands);
            forall k | k in g.placements :: exists p :: p in placements && InsidePane(p, g.placements[k])
  {
    hide Resolve, FitsU32, InsidePane, WellFormedFrame, Matches, Consistent, FrameHonest, IsUpdateOrder, Update, ExecAll;
    var frame := ResolveAll(ids, placements);
    var g := ExecAll(h, Update(c, frame, viewChanged, removed, stale).commands);
    forall k | k in g.placements
      ensures exists p :: p in placements && InsidePane(p, g.placements[k])
    {
      var n := ShownAreVisible(fp, h, c, frame, viewChanged, removed, stale, k);
      ResolvedInside(ids, placements[n]);
      assert placements[n] in placements;
    }
  }
}
