/** Directional navigation: the pane chosen is a true neighbour of the focused one. */
module LayoutNavigation {
  import opened Options
  import opened Arithmetic
  import opened Layout
  import opened LayoutTiling

  function Saturate(n: nat): nat {
    if n > U16_MAX then U16_MAX else n
  }

  /** Signed distance from the focused pane's edge to the facing edge of `r`. */
  function Gap(nav: Nav, fr: Rect, r: Rect): int {
    match nav
    case Left => fr.x - (r.x + r.width)
    case Right => r.x - (fr.x + fr.width)
    case Up => fr.y - (r.y + r.height)
    case Down => r.y - (fr.y + fr.height)
  }

  function CrossStart(nav: Nav, r: Rect): nat {
    if nav.Left? || nav.Right? then r.y else r.x
  }

  function CrossLen(nav: Nav, r: Rect): nat {
    if nav.Left? || nav.Right? then r.height else r.width
  }

  function RangeOverlapAmount(aStart: nat, aLen: nat, bStart: nat, bLen: nat): nat {
    var end := Min(Saturate(aStart + aLen), Saturate(bStart + bLen));
    Max(end - Max(aStart, bStart), 0)
  }

  function RangeCenterDistance(aStart: nat, aLen: nat, bStart: nat, bLen: nat): nat {
    Distance(Saturate(Saturate(2 * aStart) + aLen), Saturate(Saturate(2 * bStart) + bLen))
  }

  predicate IsCandidate(p: PaneInfo, focused: PaneInfo, nav: Nav) {
    && p.id != focused.id
    && Gap(nav, focused.rect, p.rect) >= 0
    && RangesOverlap(CrossStart(nav, p.rect), CrossLen(nav, p.rect), CrossStart(nav, focused.rect), CrossLen(nav, focused.rect))
  }

  datatype Rank = Rank(edge: nat, overlap: nat, center: nat, index: nat)

  function RankOf(p: PaneInfo, index: nat, focused: PaneInfo, nav: Nav): Rank {
    var (r, fr) := (p.rect, focused.rect);
    Rank(Max(Gap(nav, fr, r), 0),
         RangeOverlapAmount(CrossStart(nav, r), CrossLen(nav, r), CrossStart(nav, fr), CrossLen(nav, fr)),
         RangeCenterDistance(CrossStart(nav, r), CrossLen(nav, r), CrossStart(nav, fr), CrossLen(nav, fr)),
         index)
  }

  /** Nearest edge first, then the larger overlap, then the closer centre, then layout order. */
  predicate Before(a: Rank, b: Rank) {
    if a.edge != b.edge then a.edge < b.edge
    else if a.overlap != b.overlap then a.overlap > b.overlap
    else if a.center != b.center then a.center < b.center
    else a.index < b.index
  }

  /** Index of the best candidate at or after `i`. */
  function BestFrom(panes: seq<PaneInfo>, focused: PaneInfo, nav: Nav, i: nat): (best: Option<nat>)
    ensures best.Some? ==> i <= best.value < |panes| && IsCandidate(panes[best.value], focused, nav)
    ensures best.Some? ==>
              forall j | i <= j < |panes| && j != best.value && IsCandidate(panes[j], focused, nav) ::
                Before(RankOf(panes[best.value], best.value, focused, nav), RankOf(panes[j], j, focused, nav))
    ensures best.None? ==> forall j | i <= j < |panes| :: !IsCandidate(panes[j], focused, nav)
    decreases |panes| - i
  {
    hide IsCandidate, Gap, RangeOverlapAmount, RangeCenterDistance, CrossStart, CrossLen;
    if i >= |panes| then None
    else
      var rest := BestFrom(panes, focused, nav, i + 1);
      if !IsCandidate(panes[i], focused, nav) then rest
      else if rest.Some? && Before(RankOf(panes[rest.value], rest.value, focused, nav), RankOf(panes[i], i, focused, nav))
      then rest
      else Some(i)
  }

  function FindInDirection(focused: PaneInfo, nav: Nav, panes: seq<PaneInfo>): Option<PaneId> {
    match BestFrom(panes, focused, nav, 0)
    case None => None
    case Some(i) => Some(panes[i].id)
  }

  // ----- neighbours -----

  ghost predicate TouchesBorder(area: Rect, r: Rect, nav: Nav) {
    match nav
    case Left => r.x == area.x
    case Right => r.x + r.width == area.x + area.width
    case Up => r.y == area.y
    case Down => r.y + r.height == area.y + area.height
  }

  /** `r` lies against the focused pane's edge and faces part of it. */
  ghost predicate IsNeighbour(nav: Nav, fr: Rect, r: Rect) {
    && Gap(nav, fr, r) == 0
    && RangesOverlap(CrossStart(nav, r), CrossLen(nav, r), CrossStart(nav, fr), CrossLen(nav, fr))
  }

  ghost predicate HasSize(r: Rect) {
    r.width > 0 && r.height > 0
  }

  ghost predicate DistinctIds(panes: seq<PaneInfo>) {
    forall i, j | 0 <= i < j < |panes| :: panes[i].id != panes[j].id
  }

  /** A cell just beyond the focused pane's edge. */
  function BeyondX(nav: Nav, fr: Rect): int {
    match nav
    case Left => fr.x - 1
    case Right => fr.x + fr.width
    case _ => fr.x
  }

  function BeyondY(nav: Nav, fr: Rect): int {
    match nav
    case Up => fr.y - 1
    case Down => fr.y + fr.height
    case _ => fr.y
  }

  /** The cell inside the focused pane that faces it. */
  function EdgeX(nav: Nav, fr: Rect): int {
    if nav.Right? then fr.x + fr.width - 1 else fr.x
  }

  function EdgeY(nav: Nav, fr: Rect): int {
    if nav.Down? then fr.y + fr.height - 1 else fr.y
  }

  /** A pane over the facing cell that does not overlap the focused pane is a neighbour. */
  lemma FacingIsNeighbour(nav: Nav, fr: Rect, r: Rect)
    requires HasSize(fr) && r.Contains(BeyondX(nav, fr), BeyondY(nav, fr))
    requires !r.Contains(EdgeX(nav, fr), EdgeY(nav, fr))
    ensures IsNeighbour(nav, fr, r)
  {
  }

  lemma BeyondInArea(nav: Nav, area: Rect, fr: Rect)
    requires HasSize(fr) && !TouchesBorder(area, fr, nav)
    requires area.x <= fr.x && fr.x + fr.width <= area.x + area.width
    requires area.y <= fr.y && fr.y + fr.height <= area.y + area.height
    ensures area.Contains(BeyondX(nav, fr), BeyondY(nav, fr))
    ensures fr.Contains(EdgeX(nav, fr), EdgeY(nav, fr)) && !fr.Contains(BeyondX(nav, fr), BeyondY(nav, fr))
  {
  }

  lemma BorderHasNoCandidate(nav: Nav, area: Rect, fr: Rect, r: Rect)
    requires TouchesBorder(area, fr, nav) && HasSize(r)
    requires area.x <= r.x && r.x + r.width <= area.x + area.width
    requires area.y <= r.y && r.y + r.height <= area.y + area.height
    ensures Gap(nav, fr, r) < 0
  {
  }

  /** Away from the border there is a neighbour among the panes. */
  lemma NeighbourExists(node: Node, area: Rect, f: nat, nav: Nav) returns (k: nat)
    requires RatiosInRange(node) && FitsScreen(area)
    requires var panes := Panes(node, area);
             f < |panes| && HasSize(panes[f].rect) && DistinctIds(panes) && !TouchesBorder(area, panes[f].rect, nav)
    ensures var panes := Panes(node, area);
            k < |panes| && k != f && IsNeighbour(nav, panes[f].rect, panes[k].rect) && IsCandidate(panes[k], panes[f], nav)
  {
    var panes := Panes(node, area);
    var fr := panes[f].rect;
    PanesInside(node, area);
    assert panes[f] in panes;
    BeyondInArea(nav, area, fr);
    var (cx, cy) := (BeyondX(nav, fr), BeyondY(nav, fr));
    ExactTiling(node, area, cx, cy);
    k := SomePane(panes, cx, cy);
    PanesDisjoint(node, area, f, k, EdgeX(nav, fr), EdgeY(nav, fr));
    FacingIsNeighbour(nav, fr, panes[k].rect);
  }

  /**
   When every pane has positive size, navigation finds nothing exactly when the focused pane touches
   the area's border on that side, and otherwise returns a pane that lies against the focused one,
   with the largest overlap among the panes that do.
   */
  lemma NavigationFindsNeighbours(node: Node, area: Rect, f: nat, nav: Nav)
    requires RatiosInRange(node) && FitsScreen(area)
    requires var panes := Panes(node, area);
             f < |panes| && DistinctIds(panes) && forall p | p in panes :: HasSize(p.rect)
    ensures var panes := Panes(node, area);
            var found := FindInDirection(panes[f], nav, panes);
            && (found.None? <==> TouchesBorder(area, panes[f].rect, nav))
            && (found.Some? ==>
                  exists k :: 0 <= k < |panes| && panes[k].id == found.value && IsNeighbour(nav, panes[f].rect, panes[k].rect)
                    && forall j | 0 <= j < |panes| && IsNeighbour(nav, panes[f].rect, panes[j].rect) && j != f ::
                         RankOf(panes[j], j, panes[f], nav).overlap <= RankOf(panes[k], k, panes[f], nav).overlap)
  {
    var panes := Panes(node, area);
    var (focused, fr) := (panes[f], panes[f].rect);
    assert focused in panes;
    PanesInside(node, area);
    hide Panes, RatiosInRange;
    var best := BestFrom(panes, focused, nav, 0);
    if TouchesBorder(area, fr, nav) {
      if best.Some? {
        assert panes[best.value] in panes;
        BorderHasNoCandidate(nav, area, fr, panes[best.value].rect);
        assert false;
      }
    } else {
      var n := NeighbourExists(node, area, f, nav);
      assert best.Some?;
      BestIsNeighbour(panes, f, nav, n);
    }
  }

  /** Once some candidate lies against the edge, the best one does. */
  lemma BestIsNeighbour(panes: seq<PaneInfo>, f: nat, nav: Nav, n: nat)
    requires f < |panes| && n < |panes| && DistinctIds(panes)
    requires IsCandidate(panes[n], panes[f], nav) && IsNeighbour(nav, panes[f].rect, panes[n].rect)
    ensures var best := BestFrom(panes, panes[f], nav, 0);
            && best.Some? && IsNeighbour(nav, panes[f].rect, panes[best.value].rect)
            && forall j | 0 <= j < |panes| && IsNeighbour(nav, panes[f].rect, panes[j].rect) && j != f ::
                 RankOf(panes[j], j, panes[f], nav).overlap <= RankOf(panes[best.value], best.value, panes[f], nav).overlap
  {
    hide RangeOverlapAmount, RangeCenterDistance;
    var k := BestFrom(panes, panes[f], nav, 0).value;
    if k != n {
      assert Before(RankOf(panes[k], k, panes[f], nav), RankOf(panes[n], n, panes[f], nav));
    }
    forall j | 0 <= j < |panes| && IsNeighbour(nav, panes[f].rect, panes[j].rect) && j != f
      ensures RankOf(panes[j], j, panes[f], nav).overlap <= RankOf(panes[k], k, panes[f], nav).overlap
    {
      assert IsCandidate(panes[j], panes[f], nav);
    }
  }

  /**
   Positive sizes are needed: a pane squeezed to zero width on the border counts as lying to the
   left, although the focused pane touches the border itself.
   */
  lemma ZeroWidthPaneMisleads()
    ensures var panes := Panes(Split(Horizontal, 0.0, Pane(1), Pane(2)), Rect(0, 0, 10, 10));
            |panes| == 2 && TouchesBorder(Rect(0, 0, 10, 10), panes[1].rect, Left)
            && FindInDirection(panes[1], Left, panes) == Some(1)
  {
    ZeroWidthPanes();
    hide Panes, RankOf;
    var panes := Panes(Split(Horizontal, 0.0, Pane(1), Pane(2)), Rect(0, 0, 10, 10));
    assert IsCandidate(panes[0], panes[1], Left) && !IsCandidate(panes[1], panes[1], Left);
    var best := BestFrom(panes, panes[1], Left, 0);
    assert best == Some(0);
  }

  lemma ZeroWidthPanes()
    ensures Panes(Split(Horizontal, 0.0, Pane(1), Pane(2)), Rect(0, 0, 10, 10))
            == [PaneInfo(1, Rect(0, 0, 0, 10)), PaneInfo(2, Rect(0, 0, 10, 10))]
  {
    var area := Rect(0, 0, 10, 10);
    assert FirstLen(10, 0.0) == 0;
    assert SplitRect(area, Horizontal, 0.0) == (Rect(0, 0, 0, 10), Rect(0, 0, 10, 10));
    assert Panes(Pane(1), Rect(0, 0, 0, 10)) == [PaneInfo(1, Rect(0, 0, 0, 10))];
    assert Panes(Pane(2), Rect(0, 0, 10, 10)) == [PaneInfo(2, Rect(0, 0, 10, 10))];
  }
}
