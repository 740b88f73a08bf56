/**
 Which placements of a frame find their image. A placement that brings no data relies on an image
 that is already cached, and pruning or superseding a source may delete that image before its turn.
 */
module KittySupply {
  import opened KittyGeometry
  import opened KittyCache
  import opened KittyRefinement

  // ----- what a frame must satisfy -----

  /** No two images, cached or incoming, share a host id. */
  ghost predicate Unambiguous(images: map<u32, ImageSig>, frame: seq<Item>) {
    && (forall i | i in frame && i.visible && i.hostId in images :: images[i.hostId] == i.sig)
    && (forall i, j | i in frame && j in frame && i.visible && j.visible && i.hostId == j.hostId :: i.sig == j.sig)
  }

  ghost predicate DistinctKeys(frame: seq<Item>) {
    forall a, b | 0 <= a < b < |frame| && frame[a].visible && frame[b].visible :: frame[a].Key() != frame[b].Key()
  }

  ghost predicate OneImagePerSource(frame: seq<Item>) {
    forall i, j | i in frame && j in frame && i.visible && j.visible && i.source == j.source :: i.hostId == j.hostId
  }

  ghost predicate WellFormedFrame(images: map<u32, ImageSig>, frame: seq<Item>) {
    Unambiguous(images, frame) && DistinctKeys(frame) && OneImagePerSource(frame)
  }

  // ----- the condition -----

  /** A source that the update keeps points at the image when it starts. */
  ghost predicate PointsAt(c: Cache, frame: seq<Item>, s: SourceKey, id: u32) {
    s in Retained(c, frame) && Retained(c, frame)[s] == id
  }

  /** The placement is visible and its image is there, or brought along, when its turn comes. */
  ghost predicate Arrived(c: Cache, frame: seq<Item>, n: nat)
    requires n < |frame|
    decreases n, 3
  {
    frame[n].visible && (frame[n].data != [] || Held(c, frame, n, frame[n].hostId))
  }

  /** One of the first `n` placements put the image there or found it. */
  ghost predicate Brought(c: Cache, frame: seq<Item>, n: nat, id: u32)
    requires n <= |frame|
    decreases n, 1
  {
    exists m | 0 <= m < n :: Arrived(c, frame, m) && frame[m].hostId == id
  }

  /** One of the first `n` placements has taken the source to an image of its own. */
  ghost predicate Moved(c: Cache, frame: seq<Item>, n: nat, s: SourceKey)
    requires n <= |frame|
    decreases n, 0
  {
    exists m | 0 <= m < n :: Arrived(c, frame, m) && frame[m].source == s
  }

  /**
   The image was cached and is still there after `n` placements: some source that pointed at it has not
   moved on or, where none did, it is not that of a pane layer that is gone.
   */
  ghost predicate Survives(c: Cache, frame: seq<Item>, n: nat, id: u32)
    requires n <= |frame|
    decreases n, 1
  {
    && id in c.images
    && if exists s :: PointsAt(c, frame, s, id) then exists s :: PointsAt(c, frame, s, id) && !Moved(c, frame, n, s)
       else id !in RemovedLayerImages(c, frame)
  }

  ghost predicate Held(c: Cache, frame: seq<Item>, n: nat, id: u32)
    requires n <= |frame|
    decreases n, 2
  {
    Brought(c, frame, n, id) || Survives(c, frame, n, id)
  }

  lemma NotArrivedHeld(c: Cache, frame: seq<Item>, n: nat)
    requires n < |frame| && !Arrived(c, frame, n)
    ensures forall id :: Held(c, frame, n + 1, id) <==> Held(c, frame, n, id)
    ensures forall s :: Moved(c, frame, n + 1, s) <==> Moved(c, frame, n, s)
  {
    hide Arrived;
    assert forall id :: Brought(c, frame, n + 1, id) <==> Brought(c, frame, n, id);
    assert forall s :: Moved(c, frame, n + 1, s) <==> Moved(c, frame, n, s);
    hide Brought, Moved;
    assert forall id :: Survives(c, frame, n + 1, id) <==> Survives(c, frame, n, id);
  }

  lemma ArrivedBrings(c: Cache, frame: seq<Item>, n: nat)
    requires n < |frame| && Arrived(c, frame, n)
    ensures forall id :: Brought(c, frame, n + 1, id) <==> Brought(c, frame, n, id) || id == frame[n].hostId
    ensures forall s :: Moved(c, frame, n + 1, s) <==> Moved(c, frame, n, s) || s == frame[n].source
  {
    hide Arrived;
  }

  lemma SurvivedEarlier(c: Cache, frame: seq<Item>, n: nat, later: nat, id: u32)
    requires n <= later <= |frame| && Survives(c, frame, later, id)
    ensures Survives(c, frame, n, id)
  {
    assert forall s :: Moved(c, frame, n, s) ==> Moved(c, frame, later, s);
    hide Moved, PointsAt;
  }

  // ----- one placement -----

  /** With no collision and its data at hand, a visible placement's image is there afterwards. */
  lemma EnsureFacts(p: Progress, item: Item)
    requires item.hostId in p.cache.images ==> p.cache.images[item.hostId] == item.sig
    requires item.hostId in p.cache.images || item.data != []
    ensures var (q, uploaded) := EnsureImage(p, item);
            && uploaded && q.current == p.current
            && q.cache == p.cache.(images := p.cache.images[item.hostId := item.sig])
  {
    if item.hostId in p.cache.images {
      assert p.cache.images[item.hostId := item.sig] == p.cache.images;
    }
  }

  /** The image the source leaves, no other source needing it. */
  ghost predicate Superseded(before: map<SourceKey, u32>, after: map<SourceKey, u32>, source: SourceKey, id: u32) {
    source in before && before[source] == id && !Referenced(after, id)
  }

  /** Exactly what releasing a superseded image deletes. */
  lemma ReleaseFacts(p: Progress, source: SourceKey, id: u32)
    ensures var q := ReleaseSuperseded(p, source, id);
            && q.cache.sources == p.cache.sources[source := id]
            && (forall j :: j in q.cache.images <==> j in p.cache.images && !Superseded(p.cache.sources, q.cache.sources, source, j))
            && (forall j | j in q.cache.images :: q.cache.images[j] == p.cache.images[j])
            && (forall k :: k in q.cache.placements <==>
                            k in p.cache.placements && !Superseded(p.cache.sources, q.cache.sources, source, k.0))
            && (forall k | k in q.cache.placements :: q.cache.placements[k] == p.cache.placements[k])
            && q.current <= p.current
            && (forall k | k in p.current && k in q.cache.placements :: k in q.current)
            && (forall k | k in p.current && k !in p.cache.placements :: k in q.current)
  {
    var r := p.(cache := p.cache.(sources := p.cache.sources[source := id]));
    var q := ReleaseSuperseded(p, source, id);
    assert r.cache.sources[source] == id && Referenced(r.cache.sources, id);
    if q != r {
      assert q == ForgetImage(r, p.cache.sources[source]);
    }
  }

  /** `q` is `p` with the visible placement `x` put in place. */
  ghost predicate PlacedAs(p: Progress, q: Progress, x: Item) {
    && q.cache.sources == p.cache.sources[x.source := x.hostId]
    && (forall j :: j in q.cache.images <==>
                    j == x.hostId || (j in p.cache.images && !Superseded(p.cache.sources, q.cache.sources, x.source, j)))
    && (forall j | j in q.cache.images :: q.cache.images[j] == if j == x.hostId then x.sig else p.cache.images[j])
    && (forall k | k != x.Key() :: k in q.cache.placements <==>
                                   k in p.cache.placements && !Superseded(p.cache.sources, q.cache.sources, x.source, k.0))
    && (forall k | k in q.cache.placements && k != x.Key() :: q.cache.placements[k] == p.cache.placements[k])
    && x.Key() in q.cache.placements && q.cache.placements[x.Key()] == x.look
    && q.current <= p.current + {x.Key()} && x.Key() in q.current
    && (forall k | k in p.current && k in q.cache.placements :: k in q.current)
  }

  lemma PlaceVisible(p: Progress, x: Item, viewChanged: bool)
    requires x.visible
    requires x.hostId in p.cache.images ==> p.cache.images[x.hostId] == x.sig
    requires x.hostId in p.cache.images || x.data != []
    ensures PlacedAs(p, PlaceItem(p, x, viewChanged), x)
  {
    hide EnsureImage, ReleaseSuperseded, Superseded;
    var p1 := p.(current := p.current + {x.Key()});
    EnsureFacts(p1, x);
    var p2 := EnsureImage(p1, x).0;
    ReleaseFacts(p2, x.source, x.hostId);
    var p3 := ReleaseSuperseded(p2, x.source, x.hostId);
    assert PlaceItem(p, x, viewChanged) == Show(p3, x, viewChanged);
    StaysPointed(p3.cache.sources, p.cache.sources, x.source, x.hostId);
  }

  lemma StaysPointed(after: map<SourceKey, u32>, before: map<SourceKey, u32>, source: SourceKey, id: u32)
    requires source in after && after[source] == id
    ensures !Superseded(before, after, source, id)
  {
  }

  lemma PlaceMissing(p: Progress, x: Item, viewChanged: bool)
    requires x.visible && x.hostId !in p.cache.images && x.data == []
    ensures PlaceItem(p, x, viewChanged) == p.(current := p.current + {x.Key()})
  {
  }

  // ----- the loop over the frame -----

  /** The sources after `n` placements. */
  ghost predicate Pointing(sources: map<SourceKey, u32>, c: Cache, frame: seq<Item>, n: nat)
    requires n <= |frame|
  {
    && (forall m | 0 <= m < n && Arrived(c, frame, m) ::
          frame[m].source in sources && sources[frame[m].source] == frame[m].hostId)
    && (forall s | !Moved(c, frame, n, s) ::
          (s in sources <==> s in Retained(c, frame)) && (s in sources ==> sources[s] == Retained(c, frame)[s]))
  }

  /** The images after `n` placements. */
  ghost predicate Holding(images: map<u32, ImageSig>, c: Cache, frame: seq<Item>, n: nat)
    requires n <= |frame|
  {
    && (forall id :: id in images <==> Held(c, frame, n, id))
    && (forall i | i in frame && i.visible && i.hostId in images :: images[i.hostId] == i.sig)
  }

  /** The first `n` placements are on the host exactly where they arrived. */
  ghost predicate Showing(p: Progress, c: Cache, frame: seq<Item>, n: nat)
    requires n <= |frame|
  {
    && (forall k | k in p.cache.placements :: k.0 in p.cache.images)
    && (forall m | 0 <= m < n && frame[m].visible ::
          if Arrived(c, frame, m) then
            frame[m].Key() in p.current && frame[m].Key() in p.cache.placements && p.cache.placements[frame[m].Key()] == frame[m].look
          else frame[m].Key() !in p.cache.placements)
    && (forall k | k in p.current :: exists m | 0 <= m < n :: frame[m].visible && frame[m].Key() == k)
  }

  ghost predicate After(p: Progress, c: Cache, frame: seq<Item>, n: nat) {
    n <= |frame| && Pointing(p.cache.sources, c, frame, n) && Holding(p.cache.images, c, frame, n) && Showing(p, c, frame, n)
  }

  /** The sources pointing at an image the frame has not brought: those that did at first and have not moved. */
  lemma PointedBy(sources: map<SourceKey, u32>, c: Cache, frame: seq<Item>, n: nat, id: u32, s: SourceKey)
    requires n <= |frame| && Pointing(sources, c, frame, n) && !Brought(c, frame, n, id)
    ensures s in sources && sources[s] == id <==> PointsAt(c, frame, s, id) && !Moved(c, frame, n, s)
  {
    hide Arrived;
  }

  /** Superseding deletes exactly the images that lose their last source. */
  lemma HeldAfter(c: Cache, frame: seq<Item>, n: nat, before: map<SourceKey, u32>, after: map<SourceKey, u32>, id: u32)
    requires n < |frame| && Arrived(c, frame, n) && OneImagePerSource(frame)
    requires Pointing(before, c, frame, n) && Pointing(after, c, frame, n + 1)
    ensures Held(c, frame, n + 1, id) <==>
            id == frame[n].hostId || (Held(c, frame, n, id) && !Superseded(before, after, frame[n].source, id))
  {
    ArrivedBrings(c, frame, n);
    var x := frame[n];
    if id != x.hostId {
      if Brought(c, frame, n, id) {
        var m :| 0 <= m < n && Arrived(c, frame, m) && frame[m].hostId == id;
        assert after[frame[m].source] == id;
      } else {
        hide Arrived, Brought, Pointing, Moved;
        forall s
          ensures s in before && before[s] == id <==> PointsAt(c, frame, s, id) && !Moved(c, frame, n, s)
          ensures s in after && after[s] == id <==> PointsAt(c, frame, s, id) && !Moved(c, frame, n + 1, s)
        {
          PointedBy(before, c, frame, n, id, s);
          PointedBy(after, c, frame, n + 1, id, s);
        }
        hide PointsAt;
        SurvivesAfter(c, frame, n, before, after, id);
      }
    }
  }

  lemma SurvivesAfter(c: Cache, frame: seq<Item>, n: nat, before: map<SourceKey, u32>, after: map<SourceKey, u32>, id: u32)
    requires n < |frame|
    requires forall s :: Moved(c, frame, n + 1, s) <==> Moved(c, frame, n, s) || s == frame[n].source
    requires forall s :: s in before && before[s] == id <==> PointsAt(c, frame, s, id) && !Moved(c, frame, n, s)
    requires forall s :: s in after && after[s] == id <==> PointsAt(c, frame, s, id) && !Moved(c, frame, n + 1, s)
    ensures Survives(c, frame, n + 1, id) <==> Survives(c, frame, n, id) && !Superseded(before, after, frame[n].source, id)
  {
    hide PointsAt, Moved;
    if exists s :: PointsAt(c, frame, s, id) {
      assert Referenced(after, id) <==> exists s :: PointsAt(c, frame, s, id) && !Moved(c, frame, n + 1, s);
    }
  }

  /** A placement that finds no image leaves the cache alone. */
  lemma MissingPlaced(p: Progress, c: Cache, frame: seq<Item>, n: nat, viewChanged: bool)
    requires n < |frame| && Holding(p.cache.images, c, frame, n) && !Arrived(c, frame, n)
    requires forall k | k in p.cache.placements :: k.0 in p.cache.images
    ensures var (x, q) := (frame[n], PlaceItem(p, frame[n], viewChanged));
            && q.cache == p.cache
            && q.current == (if x.visible then p.current + {x.Key()} else p.current)
            && (x.visible ==> x.Key() !in p.cache.placements)
  {
    var x := frame[n];
    if x.visible {
      assert x.data == [] && !Held(c, frame, n, x.hostId);
      PlaceMissing(p, x, viewChanged);
    }
  }

  lemma MissingShown(p: Progress, q: Progress, c: Cache, frame: seq<Item>, n: nat)
    requires n < |frame| && Showing(p, c, frame, n) && !Arrived(c, frame, n)
    requires q.cache == p.cache
    requires q.current == if frame[n].visible then p.current + {frame[n].Key()} else p.current
    requires frame[n].visible ==> frame[n].Key() !in p.cache.placements
    ensures Showing(q, c, frame, n + 1)
  {
    hide Arrived;
    forall k | k in q.current
      ensures exists m | 0 <= m < n + 1 :: frame[m].visible && frame[m].Key() == k
    {
      if k in p.current {
        var m :| 0 <= m < n && frame[m].visible && frame[m].Key() == k;
      } else {
        assert frame[n].visible && frame[n].Key() == k;
      }
    }
  }

  lemma MissingPoints(sources: map<SourceKey, u32>, c: Cache, frame: seq<Item>, n: nat)
    requires n < |frame| && Pointing(sources, c, frame, n) && !Arrived(c, frame, n)
    ensures Pointing(sources, c, frame, n + 1)
  {
    NotArrivedHeld(c, frame, n);
    hide Arrived, Moved, Held, Retained;
  }

  lemma MissingHolds(images: map<u32, ImageSig>, c: Cache, frame: seq<Item>, n: nat)
    requires n < |frame| && Holding(images, c, frame, n) && !Arrived(c, frame, n)
    ensures Holding(images, c, frame, n + 1)
  {
    NotArrivedHeld(c, frame, n);
    hide Arrived, Moved, Held;
  }

  lemma AfterParts(p: Progress, c: Cache, frame: seq<Item>, n: nat)
    ensures After(p, c, frame, n) <==>
            n <= |frame| && Pointing(p.cache.sources, c, frame, n) && Holding(p.cache.images, c, frame, n) && Showing(p, c, frame, n)
  {
  }

  lemma ShownHaveImages(p: Progress, c: Cache, frame: seq<Item>, n: nat)
    requires n <= |frame| && Showing(p, c, frame, n)
    ensures forall k | k in p.cache.placements :: k.0 in p.cache.images
  {
    hide Arrived;
  }

  lemma MissingStep(p: Progress, c: Cache, frame: seq<Item>, n: nat, viewChanged: bool)
    requires n < |frame| && After(p, c, frame, n) && !Arrived(c, frame, n)
    ensures After(PlaceItem(p, frame[n], viewChanged), c, frame, n + 1)
  {
    hide Arrived, Held, Moved, Pointing, Holding, Showing, PlaceItem, After;
    var q := PlaceItem(p, frame[n], viewChanged);
    AfterParts(p, c, frame, n);
    ShownHaveImages(p, c, frame, n);
    MissingPlaced(p, c, frame, n, viewChanged);
    MissingPoints(p.cache.sources, c, frame, n);
    MissingHolds(p.cache.images, c, frame, n);
    MissingShown(p, q, c, frame, n);
    AfterParts(q, c, frame, n + 1);
  }

  /** A source whose placement arrived points at its image after one more placement, too. */
  lemma PointStays(p: Progress, q: Progress, c: Cache, frame: seq<Item>, n: nat, m: nat)
    requires m <= n < |frame| && Pointing(p.cache.sources, c, frame, n) && OneImagePerSource(frame)
    requires frame[n].visible && frame[m].visible && Arrived(c, frame, m)
    requires q.cache.sources == p.cache.sources[frame[n].source := frame[n].hostId]
    ensures frame[m].source in q.cache.sources && q.cache.sources[frame[m].source] == frame[m].hostId
  {
    hide Arrived, Moved;
    assert frame[m] in frame && frame[n] in frame;
  }

  lemma PointingStep(p: Progress, q: Progress, c: Cache, frame: seq<Item>, n: nat)
    requires n < |frame| && Pointing(p.cache.sources, c, frame, n) && OneImagePerSource(frame) && Arrived(c, frame, n)
    requires q.cache.sources == p.cache.sources[frame[n].source := frame[n].hostId]
    ensures Pointing(q.cache.sources, c, frame, n + 1)
  {
    hide Arrived, Moved, OneImagePerSource, Retained;
    ArrivedBrings(c, frame, n);
    forall m | 0 <= m < n + 1 && Arrived(c, frame, m)
      ensures frame[m].source in q.cache.sources && q.cache.sources[frame[m].source] == frame[m].hostId
    {
      ArrivedVisible(c, frame, n);
      ArrivedVisible(c, frame, m);
      PointStays(p, q, c, frame, n, m);
    }
    forall s | !Moved(c, frame, n + 1, s)
      ensures s in q.cache.sources <==> s in Retained(c, frame)
      ensures s in q.cache.sources ==> q.cache.sources[s] == Retained(c, frame)[s]
    {
      assert !Moved(c, frame, n, s) && s != frame[n].source;
    }
  }

  lemma ArrivedVisible(c: Cache, frame: seq<Item>, n: nat)
    requires n < |frame| && Arrived(c, frame, n)
    ensures frame[n].visible
  {
    hide Held;
  }

  lemma HoldingStep(p: Progress, q: Progress, c: Cache, frame: seq<Item>, n: nat)
    requires n < |frame| && Pointing(p.cache.sources, c, frame, n) && Holding(p.cache.images, c, frame, n) && Arrived(c, frame, n)
    requires WellFormedFrame(c.images, frame)
    requires PlacedAs(p, q, frame[n]) && Pointing(q.cache.sources, c, frame, n + 1)
    ensures Holding(q.cache.images, c, frame, n + 1)
  {
    assert frame[n] in frame && frame[n].visible;
    hide Held, Arrived, Pointing, Superseded;
    forall id
      ensures id in q.cache.images <==> Held(c, frame, n + 1, id)
    {
      HeldAfter(c, frame, n, p.cache.sources, q.cache.sources, id);
    }
  }

  /** An image that some arrived placement brought is not superseded. */
  lemma BroughtStays(p: Progress, q: Progress, c: Cache, frame: seq<Item>, n: nat, m: nat)
    requires m < n < |frame| && Arrived(c, frame, m) && frame[n].visible && OneImagePerSource(frame)
    requires Pointing(p.cache.sources, c, frame, n) && PlacedAs(p, q, frame[n])
    ensures !Superseded(p.cache.sources, q.cache.sources, frame[n].source, frame[m].hostId)
  {
    assert frame[m] in frame && frame[n] in frame;
    StaysPointed(q.cache.sources, p.cache.sources, frame[n].source, frame[n].hostId);
    assert q.cache.sources[frame[m].source] == frame[m].hostId;
  }

  /** An earlier placement that was shown still is. */
  lemma ShownStays(p: Progress, q: Progress, c: Cache, frame: seq<Item>, n: nat, m: nat)
    requires m < n < |frame| && Pointing(p.cache.sources, c, frame, n) && Showing(p, c, frame, n) && frame[n].visible
    requires WellFormedFrame(c.images, frame) && PlacedAs(p, q, frame[n])
    requires Arrived(c, frame, m)
    ensures var k := frame[m].Key(); k in q.current && k in q.cache.placements && q.cache.placements[k] == frame[m].look
  {
    BroughtStays(p, q, c, frame, n, m);
    assert frame[m].visible;
    hide Arrived, Pointing, Superseded;
    assert frame[m].Key() != frame[n].Key();
    assert frame[m].Key().0 == frame[m].hostId;
  }

  /** One that was not shown still is not. */
  lemma MissingStays(p: Progress, q: Progress, c: Cache, frame: seq<Item>, n: nat, m: nat)
    requires m < n < |frame| && Showing(p, c, frame, n) && frame[n].visible
    requires DistinctKeys(frame) && PlacedAs(p, q, frame[n])
    requires frame[m].visible && !Arrived(c, frame, m)
    ensures frame[m].Key() !in q.cache.placements
  {
    hide Arrived, Superseded;
    assert frame[m].Key() != frame[n].Key();
  }

  lemma CurrentStays(p: Progress, q: Progress, c: Cache, frame: seq<Item>, n: nat, k: (u32, u32))
    requires n < |frame| && Showing(p, c, frame, n) && frame[n].visible
    requires PlacedAs(p, q, frame[n]) && k in q.current
    ensures exists m | 0 <= m < n + 1 :: frame[m].visible && frame[m].Key() == k
  {
    hide Arrived, Superseded;
    if k in p.current {
      var m :| 0 <= m < n && frame[m].visible && frame[m].Key() == k;
    } else {
      assert frame[n].visible && frame[n].Key() == k;
    }
  }

  lemma ImagesStay(p: Progress, q: Progress, c: Cache, frame: seq<Item>, n: nat)
    requires n < |frame| && Showing(p, c, frame, n) && PlacedAs(p, q, frame[n])
    ensures forall k | k in q.cache.placements :: k.0 in q.cache.images
  {
    hide Arrived, Superseded;
  }

  lemma PlacedItself(p: Progress, q: Progress, x: Item)
    requires PlacedAs(p, q, x)
    ensures x.Key() in q.current && x.Key() in q.cache.placements && q.cache.placements[x.Key()] == x.look
    ensures q.cache.sources == p.cache.sources[x.source := x.hostId]
  {
    hide Superseded;
  }

  lemma EarlierStays(p: Progress, q: Progress, c: Cache, frame: seq<Item>, n: nat, m: nat)
    requires m < n < |frame| && Pointing(p.cache.sources, c, frame, n) && Showing(p, c, frame, n) && frame[n].visible
    requires WellFormedFrame(c.images, frame) && PlacedAs(p, q, frame[n]) && frame[m].visible
    ensures var k := frame[m].Key();
            if Arrived(c, frame, m) then k in q.current && k in q.cache.placements && q.cache.placements[k] == frame[m].look
            else k !in q.cache.placements
  {
    hide Arrived, Pointing, Showing, PlacedAs, WellFormedFrame;
    OneImage(c, frame);
    if Arrived(c, frame, m) {
      ShownStays(p, q, c, frame, n, m);
    } else {
      MissingStays(p, q, c, frame, n, m);
    }
  }

  lemma ShowingStep(p: Progress, q: Progress, c: Cache, frame: seq<Item>, n: nat)
    requires n < |frame| && Pointing(p.cache.sources, c, frame, n) && Showing(p, c, frame, n) && Arrived(c, frame, n)
    requires WellFormedFrame(c.images, frame) && PlacedAs(p, q, frame[n])
    ensures Showing(q, c, frame, n + 1)
  {
    ArrivedVisible(c, frame, n);
    ImagesStay(p, q, c, frame, n);
    PlacedItself(p, q, frame[n]);
    forall m | 0 <= m < n && frame[m].visible
      ensures if Arrived(c, frame, m) then
                frame[m].Key() in q.current && frame[m].Key() in q.cache.placements && q.cache.placements[frame[m].Key()] == frame[m].look
              else frame[m].Key() !in q.cache.placements
    {
      hide Arrived, Pointing, Showing, PlacedAs, WellFormedFrame;
      EarlierStays(p, q, c, frame, n, m);
    }
    forall k | k in q.current
      ensures exists m | 0 <= m < n + 1 :: frame[m].visible && frame[m].Key() == k
    {
      hide Arrived, Pointing, Showing, PlacedAs, WellFormedFrame;
      CurrentStays(p, q, c, frame, n, k);
    }
    hide Arrived, Pointing, PlacedAs, WellFormedFrame;
  }

  lemma ArrivedStep(p: Progress, c: Cache, frame: seq<Item>, n: nat, viewChanged: bool)
    requires n < |frame| && After(p, c, frame, n) && WellFormedFrame(c.images, frame) && Arrived(c, frame, n)
    ensures After(PlaceItem(p, frame[n], viewChanged), c, frame, n + 1)
  {
    var (x, q) := (frame[n], PlaceItem(p, frame[n], viewChanged));
    assert x in frame;
    PlaceVisible(p, x, viewChanged);
    hide Arrived, Pointing, Holding, Showing, PlacedAs, WellFormedFrame, PlaceItem;
    assert OneImagePerSource(frame) by { OneImage(c, frame); }
    PointingStep(p, q, c, frame, n);
    HoldingStep(p, q, c, frame, n);
    ShowingStep(p, q, c, frame, n);
  }

  lemma OneImage(c: Cache, frame: seq<Item>)
    requires WellFormedFrame(c.images, frame)
    ensures OneImagePerSource(frame) && DistinctKeys(frame)
  {
  }

  lemma {:induction false} AfterAll(p: Progress, c: Cache, frame: seq<Item>, n: nat, viewChanged: bool)
    requires n <= |frame| && After(p, c, frame, n) && WellFormedFrame(c.images, frame)
    ensures After(PlaceAll(p, frame[n..], viewChanged), c, frame, |frame|)
    decreases |frame| - n
  {
    hide After, WellFormedFrame, PlaceItem, Arrived;
    if n < |frame| {
      OneImage(c, frame);
      if Arrived(c, frame, n) {
        ArrivedStep(p, c, frame, n, viewChanged);
      } else {
        MissingStep(p, c, frame, n, viewChanged);
      }
      assert frame[n..][1..] == frame[n + 1..];
      AfterAll(PlaceItem(p, frame[n], viewChanged), c, frame, n + 1, viewChanged);
    }
  }

  // ----- before and after the loop -----

  /** Exactly what pruning deletes. */
  lemma {:induction false} PruneFacts(p: Progress, removed: seq<u32>)
    ensures var q := PruneImages(p, removed);
            && q.cache.sources == p.cache.sources
            && (forall j :: j in q.cache.images <==> j in p.cache.images && (j !in removed || Referenced(p.cache.sources, j)))
            && (forall j | j in q.cache.images :: q.cache.images[j] == p.cache.images[j])
            && (forall k | k in q.cache.placements :: k in p.cache.placements && (k.0 !in removed || Referenced(p.cache.sources, k.0)))
    decreases |removed|
  {
    hide Referenced;
    if removed != [] {
      PruneFacts(PruneImage(p, removed[0]), removed[1..]);
    }
  }

  lemma {:induction false} SweepFacts(p: Progress, stale: seq<(u32, u32)>)
    ensures var q := Sweep(p, stale);
            && q.cache.images == p.cache.images && q.cache.sources == p.cache.sources && q.current == p.current
            && (forall k :: k in q.cache.placements <==> k in p.cache.placements && k !in stale)
            && (forall k | k in q.cache.placements :: q.cache.placements[k] == p.cache.placements[k])
            && (stale == [] ==> q == p)
    decreases |stale|
  {
    if stale != [] {
      SweepFacts(SweepOne(p, stale[0]), stale[1..]);
    }
  }

  lemma RetainedPoints(c: Cache, frame: seq<Item>, id: u32)
    ensures Referenced(Retained(c, frame), id) <==> exists s :: PointsAt(c, frame, s, id)
  {
    hide Retained;
    if Referenced(Retained(c, frame), id) {
      var s :| s in Retained(c, frame) && Retained(c, frame)[s] == id;
      assert PointsAt(c, frame, s, id);
    }
  }

  lemma HeldFirst(c: Cache, frame: seq<Item>, id: u32)
    ensures Held(c, frame, 0, id) <==> id in c.images && (Referenced(Retained(c, frame), id) || id !in RemovedLayerImages(c, frame))
  {
    RetainedPoints(c, frame, id);
    hide PointsAt, Referenced, Retained, RemovedLayerImages;
    assert forall s :: !Moved(c, frame, 0, s);
    assert !Brought(c, frame, 0, id);
  }

  lemma FirstHolding(images: map<u32, ImageSig>, c: Cache, frame: seq<Item>)
    requires WellFormedFrame(c.images, frame)
    requires forall id :: id in images <==> id in c.images && (Referenced(Retained(c, frame), id) || id !in RemovedLayerImages(c, frame))
    requires forall id | id in images :: images[id] == c.images[id]
    ensures Holding(images, c, frame, 0)
  {
    hide Held, Referenced, Retained, RemovedLayerImages;
    forall id
      ensures id in images <==> Held(c, frame, 0, id)
    {
      HeldFirst(c, frame, id);
    }
  }

  lemma StartAfter(c: Cache, frame: seq<Item>, removed: seq<u32>)
    requires WellFormedFrame(c.images, frame) && Consistent(c)
    requires forall id :: id in removed <==> id in RemovedLayerImages(c, frame)
    ensures After(PruneImages(Start(c, frame), removed).(current := {}), c, frame, 0)
  {
    hide PruneImages, RemovedLayerImages, Retained, Referenced, WellFormedFrame, Holding;
    PruneFacts(Start(c, frame), removed);
    FirstHolding(PruneImages(Start(c, frame), removed).cache.images, c, frame);
  }

  /** What the cache holds after the update, for every placement of the frame. */
  lemma UpdateExact(c: Cache, frame: seq<Item>, viewChanged: bool, removed: seq<u32>, stale: seq<(u32, u32)>)
    requires WellFormedFrame(c.images, frame) && Consistent(c)
    requires IsUpdateOrder(c, frame, viewChanged, removed, stale)
    ensures var u := Update(c, frame, viewChanged, removed, stale).cache;
            && Pointing(u.sources, c, frame, |frame|) && Holding(u.images, c, frame, |frame|)
            && ShowsArrived(u.placements, c, frame)
  {
    hide WellFormedFrame, PruneImages, PlaceAll, Sweep, Start, After;
    StartAfter(c, frame, removed);
    var p := PruneImages(Start(c, frame), removed).(current := {});
    assert frame[0..] == frame;
    AfterAll(p, c, frame, 0, viewChanged);
    var placed := PlaceAll(p, frame, viewChanged);
    SweepFacts(placed, stale);
    SweptShows(placed, Sweep(placed, stale), c, frame, stale);
  }

  /** Every placement listed is one of the frame's, and exactly those that arrived are listed, with their looks. */
  ghost predicate ShowsArrived(placements: map<(u32, u32), PlacementSig>, c: Cache, frame: seq<Item>) {
    && (forall k | k in placements :: exists m | 0 <= m < |frame| :: frame[m].visible && frame[m].Key() == k)
    && (forall m | 0 <= m < |frame| && frame[m].visible ::
          && (frame[m].Key() in placements <==> Arrived(c, frame, m))
          && (Arrived(c, frame, m) ==> placements[frame[m].Key()] == frame[m].look))
  }

  lemma SweptShows(placed: Progress, swept: Progress, c: Cache, frame: seq<Item>, stale: seq<(u32, u32)>)
    requires After(placed, c, frame, |frame|)
    requires forall k :: k in stale <==> k in Stale(placed)
    requires swept.cache.images == placed.cache.images && swept.cache.sources == placed.cache.sources
    requires forall k :: k in swept.cache.placements <==> k in placed.cache.placements && k !in stale
    requires forall k | k in swept.cache.placements :: swept.cache.placements[k] == placed.cache.placements[k]
    ensures Pointing(swept.cache.sources, c, frame, |frame|) && Holding(swept.cache.images, c, frame, |frame|)
    ensures ShowsArrived(swept.cache.placements, c, frame)
  {
    hide Arrived, Pointing, Holding;
    assert forall k | k in placed.cache.placements :: k !in stale <==> k in placed.current;
  }

  // ----- a frame that is shown as a whole -----

  /** Said of the cache and the frame alone, for one placement: its image comes with it or with an earlier one, or stays cached until then. */
  ghost predicate SuppliedAt(c: Cache, frame: seq<Item>, n: nat)
    requires n < |frame|
  {
    var id := frame[n].hostId;
    || frame[n].data != []
    || (exists m | 0 <= m < n :: frame[m].visible && frame[m].hostId == id)
    || (id in c.images &&
        if exists s :: PointsAt(c, frame, s, id) then exists s :: PointsAt(c, frame, s, id) && !Uses(frame, n, s)
        else id !in RemovedLayerImages(c, frame))
  }

  /** The source has a visible placement among the first `n`. */
  ghost predicate Uses(frame: seq<Item>, n: nat, s: SourceKey)
    requires n <= |frame|
  {
    exists m | 0 <= m < n :: frame[m].visible && frame[m].source == s
  }

  ghost predicate Supplied(c: Cache, frame: seq<Item>) {
    forall n | 0 <= n < |frame| && frame[n].visible :: SuppliedAt(c, frame, n)
  }

  lemma SurvivesIfUnused(c: Cache, frame: seq<Item>, n: nat, id: u32)
    requires n <= |frame|
    requires forall s :: Moved(c, frame, n, s) <==> Uses(frame, n, s)
    ensures Survives(c, frame, n, id) <==>
            id in c.images &&
            if exists s :: PointsAt(c, frame, s, id) then exists s :: PointsAt(c, frame, s, id) && !Uses(frame, n, s)
            else id !in RemovedLayerImages(c, frame)
  {
    hide Moved, Uses, PointsAt;
  }

  lemma SuppliedStep(c: Cache, frame: seq<Item>, n: nat)
    requires n < |frame| && frame[n].visible
    requires forall m | 0 <= m < n && frame[m].visible :: Arrived(c, frame, m)
    ensures Arrived(c, frame, n) <==> SuppliedAt(c, frame, n)
  {
    var id := frame[n].hostId;
    assert forall m | 0 <= m < n :: Arrived(c, frame, m) <==> frame[m].visible;
    assert forall s :: Moved(c, frame, n, s) <==> Uses(frame, n, s);
    assert Brought(c, frame, n, id) <==> exists m | 0 <= m < n :: frame[m].visible && frame[m].hostId == id;
    SurvivesIfUnused(c, frame, n, id);
    assert Arrived(c, frame, n) <==> frame[n].data != [] || Brought(c, frame, n, id) || Survives(c, frame, n, id) by {
      hide Brought, Survives;
    }
  }

  lemma {:induction false} AllArrive(c: Cache, frame: seq<Item>, n: nat)
    requires n <= |frame|
    ensures (forall m | 0 <= m < n && frame[m].visible :: Arrived(c, frame, m)) <==>
            forall m | 0 <= m < n && frame[m].visible :: SuppliedAt(c, frame, m)
  {
    hide Arrived, SuppliedAt;
    if n > 0 {
      AllArrive(c, frame, n - 1);
      if frame[n - 1].visible && forall m | 0 <= m < n - 1 && frame[m].visible :: Arrived(c, frame, m) {
        SuppliedStep(c, frame, n - 1);
      }
    }
  }

  ghost predicate ComesFrom(frame: seq<Item>, k: (u32, u32)) {
    exists i :: i in frame && i.visible && i.Key() == k
  }

  /** The placements are exactly the frame's visible ones, each with its current look. */
  ghost predicate ShowsExactly(placements: map<(u32, u32), PlacementSig>, frame: seq<Item>) {
    && (forall k | k in placements :: ComesFrom(frame, k))
    && (forall i | i in frame && i.visible :: i.Key() in placements && placements[i.Key()] == i.look)
  }

  lemma ShowsExactlyIffArrived(c: Cache, frame: seq<Item>, placements: map<(u32, u32), PlacementSig>)
    requires ShowsArrived(placements, c, frame)
    ensures ShowsExactly(placements, frame) <==> forall m | 0 <= m < |frame| && frame[m].visible :: Arrived(c, frame, m)
  {
    hide Arrived;
    forall k | k in placements
      ensures ComesFrom(frame, k)
    {
      var m :| 0 <= m < |frame| && frame[m].visible && frame[m].Key() == k;
      assert frame[m] in frame;
    }
    assert forall m | 0 <= m < |frame| && frame[m].visible :: frame[m] in frame;
    if forall m | 0 <= m < |frame| && frame[m].visible :: Arrived(c, frame, m) {
      forall i | i in frame && i.visible
        ensures i.Key() in placements && placements[i.Key()] == i.look
      {
        var m :| 0 <= m < |frame| && frame[m] == i;
      }
    }
  }

  /** An update ends with exactly the frame's visible placements if and only if the frame is supplied. */
  lemma ShowsExactlyIffSupplied(c: Cache, frame: seq<Item>, viewChanged: bool, removed: seq<u32>, stale: seq<(u32, u32)>)
    requires WellFormedFrame(c.images, frame) && Consistent(c)
    requires IsUpdateOrder(c, frame, viewChanged, removed, stale)
    ensures ShowsExactly(Update(c, frame, viewChanged, removed, stale).cache.placements, frame) <==> Supplied(c, frame)
  {
    hide WellFormedFrame, Update, Arrived, SuppliedAt, IsUpdateOrder, ShowsExactly, ShowsArrived, Pointing, Holding;
    UpdateExact(c, frame, viewChanged, removed, stale);
    AllArrive(c, frame, |frame|);
    ShowsExactlyIffArrived(c, frame, Update(c, frame, viewChanged, removed, stale).cache.placements);
  }
}
