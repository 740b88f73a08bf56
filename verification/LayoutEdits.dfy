/** What layout edits change, what they leave alone, and what every sequence of them keeps. */
module LayoutEdits {
  import opened Options
  import opened Layout
  import opened LayoutTiling
  import opened LayoutNavigation

  ghost predicate Distinct(ids: seq<PaneId>) {
    forall i, j | 0 <= i < j < |ids| :: ids[i] != ids[j]
  }

  lemma DistinctParts(a: seq<PaneId>, b: seq<PaneId>)
    ensures Distinct(a + b) <==> Distinct(a) && Distinct(b) && (forall x | x in a :: x !in b)
  {
    var c := a + b;
    assert forall i | 0 <= i < |a| :: c[i] == a[i] && a[i] in a;
    assert forall i | |a| <= i < |c| :: c[i] == b[i - |a|] && b[i - |a|] in b;
    if Distinct(c) {
      forall i, j | 0 <= i < j < |b| ensures b[i] != b[j] {
        assert c[|a| + i] == b[i] && c[|a| + j] == b[j];
      }
      forall x | x in a ensures x !in b {
        var i :| 0 <= i < |a| && a[i] == x;
        forall j | 0 <= j < |b| ensures b[j] != x {
          assert c[i] != c[|a| + j];
        }
      }
    }
  }

  // ----- split -----

  lemma {:induction false} SplitAbsent(node: Node, target: PaneId, d: Direction, newId: PaneId, ratio: real)
    requires target !in Ids(node)
    ensures SplitAt(node, target, d, newId, ratio) == node
  {
    match node {
      case Pane(_) =>
      case Split(_, _, first, second) =>
        SplitAbsent(first, target, d, newId, ratio);
        SplitAbsent(second, target, d, newId, ratio);
    }
  }

  /** The panes with the one at `i` replaced by the two halves of its rectangle. */
  function SplitPane(panes: seq<PaneInfo>, i: nat, d: Direction, newId: PaneId, ratio: real): seq<PaneInfo>
    requires i < |panes|
  {
    var (a, b) := SplitRect(panes[i].rect, d, ratio);
    panes[..i] + [PaneInfo(panes[i].id, a), PaneInfo(newId, b)] + panes[i + 1..]
  }

  lemma SplitPaneLeft(a: seq<PaneInfo>, b: seq<PaneInfo>, i: nat, d: Direction, newId: PaneId, ratio: real)
    requires i < |a|
    ensures SplitPane(a + b, i, d, newId, ratio) == SplitPane(a, i, d, newId, ratio) + b
  {
    hide SplitRect;
    var (x, y) := SplitRect(a[i].rect, d, ratio);
    assert (a + b)[..i] == a[..i] && (a + b)[i + 1..] == a[i + 1..] + b;
  }

  lemma SplitPaneRight(a: seq<PaneInfo>, b: seq<PaneInfo>, i: nat, d: Direction, newId: PaneId, ratio: real)
    requires i < |b|
    ensures SplitPane(a + b, |a| + i, d, newId, ratio) == a + SplitPane(b, i, d, newId, ratio)
  {
    hide SplitRect;
    var c := a + b;
    assert c[|a| + i] == b[i];
    assert c[..|a| + i] == a + b[..i] && c[|a| + i + 1..] == b[i + 1..];
  }

  /**
   Splitting a pane divides its own rectangle between it and the new pane and moves no other pane.
   */
  lemma {:induction false} SplitIsLocal(node: Node, area: Rect, target: PaneId, d: Direction, newId: PaneId, ratio: real)
    returns (i: nat)
    requires Distinct(Ids(node)) && target in Ids(node)
    ensures i < |Panes(node, area)| && Panes(node, area)[i].id == target
    ensures Panes(SplitAt(node, target, d, newId, ratio), area) == SplitPane(Panes(node, area), i, d, newId, ratio)
  {
    hide SplitRect;
    match node {
      case Pane(_) =>
        i := 0;
        var panes := Panes(node, area);
        assert panes[..0] == [] && panes[1..] == [];
        SplitLeafPanes(area, target, d, newId, ratio);
      case Split(direction, r, first, second) =>
        var (a, b) := SplitRect(area, direction, r);
        DistinctParts(Ids(first), Ids(second));
        if target in Ids(first) {
          i := SplitIsLocal(first, a, target, d, newId, ratio);
          SplitAbsent(second, target, d, newId, ratio);
          SplitPaneLeft(Panes(first, a), Panes(second, b), i, d, newId, ratio);
        } else {
          var j := SplitIsLocal(second, b, target, d, newId, ratio);
          SplitAbsent(first, target, d, newId, ratio);
          i := |Panes(first, a)| + j;
          SplitPaneRight(Panes(first, a), Panes(second, b), j, d, newId, ratio);
        }
    }
  }

  lemma SplitLeafPanes(area: Rect, target: PaneId, d: Direction, newId: PaneId, ratio: real)
    ensures Panes(Split(d, ratio, Pane(target), Pane(newId)), area)
            == [PaneInfo(target, SplitRect(area, d, ratio).0), PaneInfo(newId, SplitRect(area, d, ratio).1)]
  {
    hide SplitRect;
  }

  lemma {:induction false} SplitIds(node: Node, target: PaneId, d: Direction, newId: PaneId, ratio: real)
    requires Distinct(Ids(node)) && target in Ids(node) && newId !in Ids(node)
    ensures var ids := Ids(SplitAt(node, target, d, newId, ratio));
            Distinct(ids) && forall x :: x in ids <==> x in Ids(node) || x == newId
  {
    match node {
      case Pane(_) =>
      case Split(_, _, first, second) =>
        DistinctParts(Ids(first), Ids(second));
        var (f, s) := (SplitAt(first, target, d, newId, ratio), SplitAt(second, target, d, newId, ratio));
        if target in Ids(first) {
          SplitIds(first, target, d, newId, ratio);
          SplitAbsent(second, target, d, newId, ratio);
        } else {
          SplitIds(second, target, d, newId, ratio);
          SplitAbsent(first, target, d, newId, ratio);
        }
        DistinctParts(Ids(f), Ids(s));
    }
  }

  /** Closing the pane a split created rebuilds the identical tree. */
  lemma {:induction false} SplitThenClose(node: Node, target: PaneId, d: Direction, newId: PaneId, ratio: real)
    requires newId !in Ids(node)
    ensures RemovePane(SplitAt(node, target, d, newId, ratio), newId) == Some(node)
  {
    match node {
      case Pane(_) =>
      case Split(_, _, first, second) =>
        SplitThenClose(first, target, d, newId, ratio);
        SplitThenClose(second, target, d, newId, ratio);
    }
  }

  // ----- close -----

  lemma {:induction false} RemoveAbsent(node: Node, target: PaneId)
    requires target !in Ids(node)
    ensures RemovePane(node, target) == Some(node)
  {
    match node {
      case Pane(_) =>
      case Split(_, _, first, second) =>
        RemoveAbsent(first, target);
        RemoveAbsent(second, target);
    }
  }

  lemma {:induction false} RemoveIds(node: Node, target: PaneId)
    requires Distinct(Ids(node)) && target in Ids(node)
    ensures RemovePane(node, target).None? <==> node == Pane(target)
    ensures RemovePane(node, target).Some? ==>
              var ids := Ids(RemovePane(node, target).value);
              Distinct(ids) && forall x :: x in ids <==> x in Ids(node) && x != target
  {
    match node {
      case Pane(_) =>
      case Split(d, r, first, second) =>
        DistinctParts(Ids(first), Ids(second));
        if target in Ids(first) {
          RemoveIds(first, target);
          RemoveAbsent(second, target);
          if RemovePane(first, target).Some? {
            DistinctParts(Ids(RemovePane(first, target).value), Ids(second));
          }
        } else {
          RemoveIds(second, target);
          RemoveAbsent(first, target);
          if RemovePane(second, target).Some? {
            DistinctParts(Ids(first), Ids(RemovePane(second, target).value));
          }
        }
    }
  }

  /** The subtree on the other side of the split right above pane `target`. */
  function Sibling(node: Node, target: PaneId): Node
    requires node.Split?
  {
    if node.first == Pane(target) then node.second
    else if node.second == Pane(target) then node.first
    else if target in Ids(node.first) && node.first.Split? then Sibling(node.first, target)
    else if node.second.Split? then Sibling(node.second, target)
    else node
  }

  /** The area of that split. */
  function SharedArea(node: Node, target: PaneId, area: Rect): Rect
    requires node.Split?
  {
    var (a, b) := SplitRect(area, node.direction, node.ratio);
    if node.first == Pane(target) || node.second == Pane(target) then area
    else if target in Ids(node.first) && node.first.Split? then SharedArea(node.first, target, a)
    else if node.second.Split? then SharedArea(node.second, target, b)
    else area
  }

  /**
   Closing a pane hands the area it shared with its sibling to the sibling's panes alone: the
   panes before and after that area, in layout order, keep their rectangles.
   */
  lemma {:induction false} CloseIsLocal(node: Node, area: Rect, target: PaneId)
    returns (before: seq<PaneInfo>, shared: seq<PaneInfo>, after: seq<PaneInfo>)
    requires node.Split? && Distinct(Ids(node)) && target in Ids(node)
    ensures RemovePane(node, target).Some?
    ensures Panes(node, area) == before + shared + after
    ensures exists p :: p in shared && p.id == target
    ensures |shared| == |Ids(Sibling(node, target))| + 1
    ensures Panes(RemovePane(node, target).value, area)
            == before + Panes(Sibling(node, target), SharedArea(node, target, area)) + after
  {
    hide SplitRect;
    var (first, second) := (node.first, node.second);
    var (a, b) := SplitRect(area, node.direction, node.ratio);
    DistinctParts(Ids(first), Ids(second));
    if first == Pane(target) || second == Pane(target) {
      before, shared, after := [], Panes(node, area), [];
      CloseAtSplit(node, area, target);
    } else if target in Ids(first) {
      RemoveAbsent(second, target);
      var x, y, z := CloseIsLocal(first, a, target);
      before, shared, after := x, y, z + Panes(second, b);
      AppendRight(x, y, z, Panes(second, b));
      AppendRight(x, Panes(Sibling(first, target), SharedArea(first, target, a)), z, Panes(second, b));
    } else {
      RemoveAbsent(first, target);
      var x, y, z := CloseIsLocal(second, b, target);
      before, shared, after := Panes(first, a) + x, y, z;
      AppendLeft(Panes(first, a), x, y, z);
      AppendLeft(Panes(first, a), x, Panes(Sibling(second, target), SharedArea(second, target, b)), z);
    }
  }

  lemma AppendRight(x: seq<PaneInfo>, y: seq<PaneInfo>, z: seq<PaneInfo>, w: seq<PaneInfo>)
    ensures x + y + z + w == x + y + (z + w)
  {
  }

  lemma AppendLeft(w: seq<PaneInfo>, x: seq<PaneInfo>, y: seq<PaneInfo>, z: seq<PaneInfo>)
    ensures w + (x + y + z) == w + x + y + z
  {
  }

  lemma CloseAtSplit(node: Node, area: Rect, target: PaneId)
    requires node.Split? && Distinct(Ids(node))
    requires node.first == Pane(target) || node.second == Pane(target)
    ensures RemovePane(node, target) == Some(Sibling(node, target))
    ensures SharedArea(node, target, area) == area
    ensures |Panes(node, area)| == |Ids(Sibling(node, target))| + 1
    ensures exists p :: p in Panes(node, area) && p.id == target
    ensures Panes(node, area) == [] + Panes(node, area) + []
    ensures Panes(Sibling(node, target), area) == [] + Panes(Sibling(node, target), area) + []
  {
    hide SplitRect;
    DistinctParts(Ids(node.first), Ids(node.second));
    var (a, b) := SplitRect(area, node.direction, node.ratio);
    PanesInIdOrder(node, area);
    if node.first == Pane(target) {
      RemoveAbsent(node.second, target);
      assert Panes(node, area)[0].id == target;
    } else {
      RemoveAbsent(node.first, target);
      assert Panes(node, area)[|Ids(node.first)|].id == target;
    }
  }

  // ----- swap -----

  lemma {:induction false} SwapTwice(node: Node, a: PaneId, b: PaneId)
    ensures SwapPaneIds(SwapPaneIds(node, a, b), a, b) == node
  {
    match node {
      case Pane(_) =>
      case Split(_, _, first, second) =>
        SwapTwice(first, a, b);
        SwapTwice(second, a, b);
    }
  }

  function Swapped(id: PaneId, a: PaneId, b: PaneId): PaneId {
    if id == a then b else if id == b then a else id
  }

  /** Swapping exchanges the two ids and moves no rectangle. */
  lemma {:induction false} SwapKeepsRects(node: Node, area: Rect, a: PaneId, b: PaneId)
    ensures var (before, after) := (Panes(node, area), Panes(SwapPaneIds(node, a, b), area));
            |after| == |before| &&
            forall i | 0 <= i < |before| :: after[i] == PaneInfo(Swapped(before[i].id, a, b), before[i].rect)
  {
    hide SplitRect;
    match node {
      case Pane(_) =>
      case Split(direction, ratio, first, second) =>
        var (x, y) := SplitRect(area, direction, ratio);
        SwapKeepsRects(first, x, a, b);
        SwapKeepsRects(second, y, a, b);
    }
  }

  lemma {:induction false} SwapIds(node: Node, a: PaneId, b: PaneId)
    ensures |Ids(SwapPaneIds(node, a, b))| == |Ids(node)|
    ensures forall i | 0 <= i < |Ids(node)| :: Ids(SwapPaneIds(node, a, b))[i] == Swapped(Ids(node)[i], a, b)
  {
    match node {
      case Pane(_) =>
      case Split(_, _, first, second) =>
        SwapIds(first, a, b);
        SwapIds(second, a, b);
    }
  }

  // ----- ratios -----

  /** The subtree at a path, None when the path leaves the tree. */
  function SubtreeAt(node: Node, path: Path): Option<Node>
    decreases node
  {
    if path == [] then Some(node)
    else
      match node
      case Pane(_) => None
      case Split(_, _, first, second) => SubtreeAt(if path[0] then second else first, path[1..])
  }

  function AreaAt(node: Node, path: Path, area: Rect): Rect
    decreases node
  {
    if path == [] then area
    else
      match node
      case Pane(_) => area
      case Split(direction, ratio, first, second) =>
        var (a, b) := SplitRect(area, direction, ratio);
        if path[0] then AreaAt(second, path[1..], b) else AreaAt(first, path[1..], a)
  }

  /** Setting a ratio redistributes the area of that split alone. */
  lemma {:induction false} RatioIsLocal(node: Node, path: Path, ratio: real, area: Rect)
    returns (before: seq<PaneInfo>, after: seq<PaneInfo>)
    requires SubtreeAt(node, path).Some? && SubtreeAt(node, path).value.Split?
    ensures var (sub, at) := (SubtreeAt(node, path).value, AreaAt(node, path, area));
            && Panes(node, area) == before + Panes(sub, at) + after
            && Panes(SetRatioAt(node, path, ratio), area) == before + Panes(sub.(ratio := ratio), at) + after
    decreases node
  {
    hide SplitRect;
    if path == [] {
      before, after := [], [];
      var (p, q) := (Panes(node, area), Panes(node.(ratio := ratio), area));
      assert p == [] + p + [] && q == [] + q + [];
    } else {
      var (a, b) := SplitRect(area, node.direction, node.ratio);
      var (p, q) := (Panes(node.first, a), Panes(node.second, b));
      if path[0] {
        var x, z := RatioIsLocal(node.second, path[1..], ratio, b);
        before, after := p + x, z;
        var (sub, at) := (SubtreeAt(node, path).value, AreaAt(node, path, area));
        AppendLeft(p, x, Panes(sub, at), z);
        AppendLeft(p, x, Panes(sub.(ratio := ratio), at), z);
      } else {
        var x, z := RatioIsLocal(node.first, path[1..], ratio, a);
        before, after := x, z + q;
        var (sub, at) := (SubtreeAt(node, path).value, AreaAt(node, path, area));
        AppendRight(x, Panes(sub, at), z, q);
        AppendRight(x, Panes(sub.(ratio := ratio), at), z, q);
      }
    }
  }

  lemma {:induction false} SetRatioKeeps(node: Node, path: Path, ratio: real)
    requires RatiosInRange(node) && 0.0 <= ratio <= 1.0
    ensures Ids(SetRatioAt(node, path, ratio)) == Ids(node)
    ensures RatiosInRange(SetRatioAt(node, path, ratio))
    decreases node
  {
    match node {
      case Pane(_) =>
      case Split(_, _, first, second) =>
        if path != [] {
          SetRatioKeeps(first, path[1..], ratio);
          SetRatioKeeps(second, path[1..], ratio);
        }
    }
  }

  lemma {:induction false} BalanceKeeps(node: Node)
    ensures Ids(Balance(node)) == Ids(node) && RatiosInRange(Balance(node))
  {
    match node {
      case Pane(_) =>
      case Split(_, _, first, second) =>
        BalanceKeeps(first);
        BalanceKeeps(second);
    }
  }

  /** Balancing twice is balancing once. */
  lemma {:induction false} BalanceIdempotent(node: Node)
    ensures CountPanes(Balance(node)) == CountPanes(node)
    ensures Balance(Balance(node)) == Balance(node)
  {
    match node {
      case Pane(_) =>
      case Split(_, _, first, second) =>
        BalanceIdempotent(first);
        BalanceIdempotent(second);
    }
  }

  // ----- resize -----

  /** Every listed border is that of the split its path leads to. */
  lemma {:induction false} SplitsAreReal(node: Node, area: Rect, prefix: Path, root: Node, top: Rect, s: SplitBorder)
    requires SubtreeAt(root, prefix) == Some(node) && AreaAt(root, prefix, top) == area
    requires s in Splits(node, area, prefix)
    ensures SubtreeAt(root, s.path).Some? && SubtreeAt(root, s.path).value.Split?
    ensures SubtreeAt(root, s.path).value.direction == s.direction && SubtreeAt(root, s.path).value.ratio == s.ratio
    ensures AreaAt(root, s.path, top) == s.area
  {
    hide SplitRect;
    match node {
      case Pane(_) =>
      case Split(direction, ratio, first, second) =>
        var (a, b) := SplitRect(area, direction, ratio);
        Descend(root, prefix, top, node, area);
        if s in Splits(first, a, prefix + [false]) {
          SplitsAreReal(first, a, prefix + [false], root, top, s);
        } else if s in Splits(second, b, prefix + [true]) {
          SplitsAreReal(second, b, prefix + [true], root, top, s);
        }
    }
  }

  lemma {:induction false} Descend(root: Node, prefix: Path, top: Rect, node: Node, area: Rect)
    requires SubtreeAt(root, prefix) == Some(node) && AreaAt(root, prefix, top) == area && node.Split?
    ensures var (a, b) := SplitRect(area, node.direction, node.ratio);
            && SubtreeAt(root, prefix + [false]) == Some(node.first) && AreaAt(root, prefix + [false], top) == a
            && SubtreeAt(root, prefix + [true]) == Some(node.second) && AreaAt(root, prefix + [true], top) == b
    decreases |prefix|
  {
    hide SplitRect;
    if prefix == [] {
      assert prefix + [false] == [false] && prefix + [true] == [true];
      assert [false][1..] == [] && [true][1..] == [];
    } else {
      var (x, y) := SplitRect(top, root.direction, root.ratio);
      assert (prefix + [false])[1..] == prefix[1..] + [false] && (prefix + [true])[1..] == prefix[1..] + [true];
      if prefix[0] {
        Descend(root.second, prefix[1..], y, node, area);
      } else {
        Descend(root.first, prefix[1..], x, node, area);
      }
    }
  }

  lemma {:induction false} RatioOfSubtree(node: Node, path: Path)
    requires SubtreeAt(node, path).Some? && SubtreeAt(node, path).value.Split?
    ensures GetRatioAt(node, path) == Some(SubtreeAt(node, path).value.ratio)
    decreases node
  {
    if path != [] {
      RatioOfSubtree(if path[0] then node.second else node.first, path[1..]);
    }
  }

  lemma {:induction false} NearestIsNearest(splits: seq<SplitBorder>, target: Direction, focused: Rect, nav: Nav, s: SplitBorder)
    requires s in splits && Resizes(s, target, focused, nav)
    ensures var best := NearestResizeSplit(splits, target, focused, nav);
            best.Some? && Resizes(best.value, target, focused, nav)
            && SplitEdgeDistance(best.value, focused, nav) <= SplitEdgeDistance(s, focused, nav)
  {
    hide Resizes, SplitEdgeDistance;
    NearestResizes(splits, target, focused, nav);
    if s in splits[1..] {
      NearestIsNearest(splits[1..], target, focused, nav, s);
    }
  }

  lemma {:induction false} NearestResizes(splits: seq<SplitBorder>, target: Direction, focused: Rect, nav: Nav)
    ensures var best := NearestResizeSplit(splits, target, focused, nav);
            best.Some? ==> Resizes(best.value, target, focused, nav)
  {
    hide Resizes, SplitEdgeDistance;
    if splits != [] {
      NearestResizes(splits[1..], target, focused, nav);
    }
  }

  lemma EdgeOfColumns(node: Node, area: Rect, prefix: Path, r: Rect, nav: Nav, second: bool)
    requires node.Split? && RatiosInRange(node) && FitsScreen(area) && HasSize(r) && node.direction.Horizontal?
    requires var (a, b) := SplitRect(area, node.direction, node.ratio);
             var side := if second then b else a;
             && side.x <= r.x && r.x + r.width <= side.x + side.width
             && side.y <= r.y && r.y + r.height <= side.y + side.height
             && TouchesBorder(side, r, nav) && !TouchesBorder(area, r, nav)
    ensures var s := Splits(node, area, prefix)[0];
            Resizes(s, Axis(nav), r, nav) && SplitEdgeDistance(s, r, nav) == 0
  {
    ShareFits(area.width, node.ratio);
    hide FirstLen;
  }

  lemma EdgeOfRows(node: Node, area: Rect, prefix: Path, r: Rect, nav: Nav, second: bool)
    requires node.Split? && RatiosInRange(node) && FitsScreen(area) && HasSize(r) && node.direction.Vertical?
    requires var (a, b) := SplitRect(area, node.direction, node.ratio);
             var side := if second then b else a;
             && side.x <= r.x && r.x + r.width <= side.x + side.width
             && side.y <= r.y && r.y + r.height <= side.y + side.height
             && TouchesBorder(side, r, nav) && !TouchesBorder(area, r, nav)
    ensures var s := Splits(node, area, prefix)[0];
            Resizes(s, Axis(nav), r, nav) && SplitEdgeDistance(s, r, nav) == 0
  {
    ShareFits(area.height, node.ratio);
    hide FirstLen;
  }

  /** Where a pane touches the border of its side of a split but not that of the whole, it touches the split's border. */
  lemma EdgeOfSplit(node: Node, area: Rect, prefix: Path, r: Rect, nav: Nav, second: bool)
    requires node.Split? && RatiosInRange(node) && FitsScreen(area) && HasSize(r)
    requires var (a, b) := SplitRect(area, node.direction, node.ratio);
             var side := if second then b else a;
             && side.x <= r.x && r.x + r.width <= side.x + side.width
             && side.y <= r.y && r.y + r.height <= side.y + side.height
             && TouchesBorder(side, r, nav) && !TouchesBorder(area, r, nav)
    ensures var s := Splits(node, area, prefix)[0];
            Resizes(s, Axis(nav), r, nav) && SplitEdgeDistance(s, r, nav) == 0
  {
    hide SplitRect, Resizes, SplitEdgeDistance, TouchesBorder, HasSize, FitsScreen, Splits;
    if node.direction.Horizontal? {
      EdgeOfColumns(node, area, prefix, r, nav, second);
    } else {
      EdgeOfRows(node, area, prefix, r, nav, second);
    }
  }

  /** A pane edge inside the area is the border of some split across the pane. */
  lemma {:induction false} EdgeIsABorder(node: Node, area: Rect, prefix: Path, p: PaneInfo, nav: Nav) returns (s: SplitBorder)
    requires RatiosInRange(node) && FitsScreen(area)
    requires p in Panes(node, area) && HasSize(p.rect) && !TouchesBorder(area, p.rect, nav)
    ensures s in Splits(node, area, prefix)
    ensures Resizes(s, Axis(nav), p.rect, nav) && SplitEdgeDistance(s, p.rect, nav) == 0
  {
    PanesInside(node, area);
    NotAlone(node, area, p, nav);
    SidesFit(node, area);
    hide SplitRect, Resizes, SplitEdgeDistance, TouchesBorder, HasSize, FitsScreen;
    var (a, b) := SplitRect(area, node.direction, node.ratio);
    var (left, right) := (Splits(node.first, a, prefix + [false]), Splits(node.second, b, prefix + [true]));
    s := Splits(node, area, prefix)[0];
    if p in Panes(node.first, a) {
      PanesInside(node.first, a);
      if TouchesBorder(a, p.rect, nav) {
        EdgeOfSplit(node, area, prefix, p.rect, nav, false);
      } else {
        s := EdgeIsABorder(node.first, a, prefix + [false], p, nav);
        assert s in left;
      }
    } else {
      PanesInside(node.second, b);
      if TouchesBorder(b, p.rect, nav) {
        EdgeOfSplit(node, area, prefix, p.rect, nav, true);
      } else {
        s := EdgeIsABorder(node.second, b, prefix + [true], p, nav);
        assert s in right;
      }
    }
  }

  /** A single pane touches every border. */
  lemma NotAlone(node: Node, area: Rect, p: PaneInfo, nav: Nav)
    requires p in Panes(node, area) && !TouchesBorder(area, p.rect, nav)
    ensures node.Split?
  {
  }

  lemma SidesFit(node: Node, area: Rect)
    requires RatiosInRange(node) && FitsScreen(area)
    ensures node.Split? ==>
              var (a, b) := SplitRect(area, node.direction, node.ratio);
              FitsScreen(a) && FitsScreen(b) && RatiosInRange(node.first) && RatiosInRange(node.second)
  {
    if node.Split? {
      ShareFits(if node.direction.Horizontal? then area.width else area.height, node.ratio);
      hide FirstLen;
    }
  }

  /**
   Resizing a pane towards a side where it does not touch the area's border moves a divider that
   lies exactly on that edge, by resetting the ratio of the split that owns it, clamped.
   */
  lemma ResizeMovesTheEdge(root: Node, area: Rect, p: PaneInfo, nav: Nav, delta: real)
    requires RatiosInRange(root) && FitsScreen(area) && Distinct(Ids(root))
    requires p in Panes(root, area) && HasSize(p.rect) && !TouchesBorder(area, p.rect, nav)
    ensures var target := ResizeTarget(root, p.id, nav, area);
            && target.Some?
            && SplitEdgeDistance(target.value, p.rect, nav) == 0
            && target.value.direction == Axis(nav)
            && SubtreeAt(root, target.value.path).Some? && SubtreeAt(root, target.value.path).value.Split?
            && AreaAt(root, target.value.path, area) == target.value.area
            && Resize(root, p.id, nav, delta, area)
               == SetRatioAt(root, target.value.path,
                             Clamp(target.value.ratio + (if nav.Right? || nav.Down? then delta else -delta), 0.1, 0.9))
  {
    hide Panes, Splits, SplitRect, NearestResizeSplit, SetRatioAt, SubtreeAt, AreaAt, Resizes, Ids, SplitEdgeDistance;
    FindUnique(root, area, p);
    var s := EdgeIsABorder(root, area, [], p, nav);
    var splits := Splits(root, area, []);
    NearestIsNearest(splits, Axis(nav), p.rect, nav, s);
    var best := NearestResizeSplit(splits, Axis(nav), p.rect, nav).value;
    ResizesDirection(best, Axis(nav), p.rect, nav);
    RootSubtree(root, area);
    SplitsAreReal(root, area, [], root, area, best);
    RatioOfSubtree(root, best.path);
  }

  // ----- which way a resize moves the border -----

  /** Where the border of a split lies. */
  function BorderPos(area: Rect, direction: Direction, ratio: real): nat {
    if direction.Horizontal? then area.x + FirstLen(area.width, ratio) else area.y + FirstLen(area.height, ratio)
  }

  lemma RoundMonotone(a: real, b: real)
    requires 0.0 <= a <= b
    ensures 0 <= Round(a) <= Round(b)
  {
  }

  lemma ProductMonotone(len: nat, a: real, b: real)
    requires 0.0 <= a <= b
    ensures 0.0 <= len as real * a <= len as real * b
  {
    assert len as real * b - len as real * a == len as real * (b - a);
  }

  /** A larger ratio never makes the first child smaller. */
  lemma FirstLenMonotone(len: nat, a: real, b: real)
    requires 0.0 <= a <= b
    ensures FirstLen(len, a) <= FirstLen(len, b)
  {
    hide Round;
    ProductMonotone(len, a, b);
    RoundMonotone(len as real * a, len as real * b);
  }

  lemma {:induction false} SplitsPos(node: Node, area: Rect, prefix: Path, s: SplitBorder)
    requires s in Splits(node, area, prefix)
    ensures s.pos == BorderPos(s.area, s.direction, s.ratio)
  {
    hide FirstLen;
    var (a, b) := SplitRect(area, node.direction, node.ratio);
    if s in Splits(node.first, a, prefix + [false]) {
      SplitsPos(node.first, a, prefix + [false], s);
    } else if s in Splits(node.second, b, prefix + [true]) {
      SplitsPos(node.second, b, prefix + [true], s);
    }
  }

  /** Setting the ratio of a split leaves its area and its children as they are. */
  lemma {:induction false} SetRatioInPlace(node: Node, path: Path, ratio: real, area: Rect)
    requires SubtreeAt(node, path).Some? && SubtreeAt(node, path).value.Split?
    ensures var after := SetRatioAt(node, path, ratio);
            && SubtreeAt(after, path) == Some(SubtreeAt(node, path).value.(ratio := ratio))
            && AreaAt(after, path, area) == AreaAt(node, path, area)
    decreases node
  {
    hide SplitRect;
    if path != [] {
      var (a, b) := SplitRect(area, node.direction, node.ratio);
      if path[0] {
        SetRatioInPlace(node.second, path[1..], ratio, b);
      } else {
        SetRatioInPlace(node.first, path[1..], ratio, a);
      }
    }
  }

  predicate Grows(nav: Nav) {
    nav.Right? || nav.Down?
  }

  /** The ratio a resize sets. */
  function Resized(ratio: real, nav: Nav, delta: real): real {
    Clamp(ratio + (if Grows(nav) then delta else -delta), 0.1, 0.9)
  }

  /** A resize by a positive delta never turns the ratio against its direction, save one beyond the clamp. */
  lemma RatioFollows(ratio: real, nav: Nav, delta: real)
    requires delta >= 0.0
    ensures if Grows(nav) then Resized(ratio, nav, delta) >= ratio <==> ratio <= 0.9
            else Resized(ratio, nav, delta) <= ratio <==> ratio >= 0.1
  {
  }

  /**
   The border a resize moves stays a split of the same area; for a positive delta it does not move against the
   direction, unless the old ratio lay beyond the clamp on that side.
   */
  lemma ResizeMovesForward(root: Node, area: Rect, p: PaneInfo, nav: Nav, delta: real)
    requires RatiosInRange(root) && FitsScreen(area) && Distinct(Ids(root)) && delta >= 0.0
    requires p in Panes(root, area) && HasSize(p.rect) && !TouchesBorder(area, p.rect, nav)
    ensures var target := ResizeTarget(root, p.id, nav, area);
            && target.Some?
            && (var (t, after) := (target.value, Resize(root, p.id, nav, delta, area));
                var ratio := Resized(t.ratio, nav, delta);
                && t.pos == BorderPos(t.area, t.direction, t.ratio)
                && SubtreeAt(after, t.path).Some? && SubtreeAt(after, t.path).value.Split?
                && SubtreeAt(after, t.path).value.ratio == ratio && SubtreeAt(after, t.path).value.direction == t.direction
                && AreaAt(after, t.path, area) == t.area
                && (Grows(nav) && t.ratio <= 0.9 ==> BorderPos(t.area, t.direction, ratio) >= t.pos)
                && (!Grows(nav) && t.ratio >= 0.1 ==> BorderPos(t.area, t.direction, ratio) <= t.pos))
  {
    hide Panes, Splits, SplitRect, NearestResizeSplit, SetRatioAt, SubtreeAt, AreaAt, Resizes, Ids, FirstLen, Resize, ResizeTarget, RatiosInRange;
    ResizeMovesTheEdge(root, area, p, nav, delta);
    var t := ResizeTarget(root, p.id, nav, area).value;
    TargetIsBorder(root, p.id, nav, area);
    var ratio := Resized(t.ratio, nav, delta);
    SetRatioInPlace(root, t.path, ratio, area);
    RatioFollows(t.ratio, nav, delta);
    BorderFollows(t, ratio);
  }

  /** The border follows the ratio. */
  lemma BorderFollows(t: SplitBorder, ratio: real)
    requires t.pos == BorderPos(t.area, t.direction, t.ratio) && 0.0 <= t.ratio && 0.0 <= ratio
    ensures ratio >= t.ratio ==> BorderPos(t.area, t.direction, ratio) >= t.pos
    ensures ratio <= t.ratio ==> BorderPos(t.area, t.direction, ratio) <= t.pos
  {
    hide FirstLen;
    var len := if t.direction.Horizontal? then t.area.width else t.area.height;
    if ratio >= t.ratio { FirstLenMonotone(len, t.ratio, ratio); }
    if ratio <= t.ratio { FirstLenMonotone(len, ratio, t.ratio); }
  }

  lemma TargetIsBorder(root: Node, id: PaneId, nav: Nav, area: Rect)
    requires RatiosInRange(root) && ResizeTarget(root, id, nav, area).Some?
    ensures var t := ResizeTarget(root, id, nav, area).value;
            t.pos == BorderPos(t.area, t.direction, t.ratio) && 0.0 <= t.ratio <= 1.0
            && SubtreeAt(root, t.path).Some? && SubtreeAt(root, t.path).value.Split?
            && SubtreeAt(root, t.path).value.direction == t.direction && SubtreeAt(root, t.path).value.ratio == t.ratio
            && AreaAt(root, t.path, area) == t.area
  {
    hide Panes, Splits, SplitRect, SubtreeAt, AreaAt, Resizes, FirstLen, SplitEdgeDistance, FindPane;
    var t := ResizeTarget(root, id, nav, area).value;
    assert t in Splits(root, area, []);
    hide NearestResizeSplit, ResizeTarget, BorderPos, RatiosInRange;
    SplitsPos(root, area, [], t);
    RootSubtree(root, area);
    SplitsAreReal(root, area, [], root, area, t);
    SubtreeRatios(root, t.path);
  }

  lemma {:induction false} SubtreeRatios(node: Node, path: Path)
    requires RatiosInRange(node) && SubtreeAt(node, path).Some? && SubtreeAt(node, path).value.Split?
    ensures 0.0 <= SubtreeAt(node, path).value.ratio <= 1.0
    decreases node
  {
    if path != [] {
      SubtreeRatios(if path[0] then node.second else node.first, path[1..]);
    }
  }

  /** Beyond the clamp the border does move back: growing to the right a pane with 95 of 100 columns leaves it 90. */
  lemma ClampMovesBack()
    ensures var (root, area) := (Split(Horizontal, 0.95, Pane(1), Pane(2)), Rect(0, 0, 100, 10));
            && Panes(root, area)[0] == PaneInfo(1, Rect(0, 0, 95, 10))
            && Resize(root, 1, Right, 0.05, area) == root.(ratio := 0.9)
            && Panes(root.(ratio := 0.9), area)[0] == PaneInfo(1, Rect(0, 0, 90, 10))
  {
    var (root, area) := (Split(Horizontal, 0.95, Pane(1), Pane(2)), Rect(0, 0, 100, 10));
    assert Round(95.0) == 95 && Round(90.0) == 90;
    assert FirstLen(100, 0.95) == 95 && FirstLen(100, 0.9) == 90;
    hide FirstLen, Round;
    var panes := Panes(root, area);
    assert panes == [PaneInfo(1, Rect(0, 0, 95, 10)), PaneInfo(2, Rect(95, 0, 5, 10))];
    assert panes[0] in panes;
    assert Ids(root) == [1, 2];
    hide Resize, ResizeTarget;
    ResizeMovesTheEdge(root, area, panes[0], Right, 0.05);
    TargetIsBorder(root, 1, Right, area);
  }

  lemma RootSubtree(root: Node, area: Rect)
    ensures SubtreeAt(root, []) == Some(root) && AreaAt(root, [], area) == area
  {
  }

  lemma ResizesDirection(s: SplitBorder, target: Direction, focused: Rect, nav: Nav)
    requires Resizes(s, target, focused, nav)
    ensures s.direction == target
  {
  }

  lemma FindUnique(root: Node, area: Rect, p: PaneInfo)
    requires Distinct(Ids(root)) && p in Panes(root, area)
    ensures FindPane(Panes(root, area), p.id) == Some(p)
  {
    PanesInIdOrder(root, area);
    hide Panes, Ids;
    var panes := Panes(root, area);
    var found := FindPane(panes, p.id);
    var i :| 0 <= i < |panes| && panes[i] == p;
    assert found.Some?;
    var j :| 0 <= j < |panes| && panes[j] == found.value;
    assert Ids(root)[i] == p.id && Ids(root)[j] == p.id;
  }

  lemma ResizeKeeps(root: Node, id: PaneId, nav: Nav, delta: real, area: Rect)
    requires RatiosInRange(root)
    ensures var after := Resize(root, id, nav, delta, area);
            Ids(after) == Ids(root) && RatiosInRange(after)
  {
    hide SetRatioAt, Ids, RatiosInRange, ResizeTarget;
    match ResizeTarget(root, id, nav, area) {
      case None =>
      case Some(split) =>
        var current := match GetRatioAt(root, split.path) case Some(r) => r case None => 0.5;
        var change := if nav.Right? || nav.Down? then delta else -delta;
        SetRatioKeeps(root, split.path, Clamp(current + change, 0.1, 0.9));
    }
  }

  // ----- runs -----

  ghost predicate WellFormed(s: LayoutState) {
    Distinct(Ids(s.root)) && s.focus in Ids(s.root) && RatiosInRange(s.root)
  }

  /** A split's new pane gets an id no pane has. */
  ghost predicate FreshIds(s: LayoutState, op: Op) {
    op.SplitFocused? ==> op.newId !in Ids(s.root)
  }

  lemma {:induction false} SplitRatios(node: Node, target: PaneId, d: Direction, newId: PaneId, ratio: real)
    requires RatiosInRange(node) && 0.0 <= ratio <= 1.0
    ensures RatiosInRange(SplitAt(node, target, d, newId, ratio))
  {
    match node {
      case Pane(_) =>
      case Split(_, _, first, second) =>
        SplitRatios(first, target, d, newId, ratio);
        SplitRatios(second, target, d, newId, ratio);
    }
  }

  lemma {:induction false} RemoveRatios(node: Node, target: PaneId)
    requires RatiosInRange(node)
    ensures RemovePane(node, target).Some? ==> RatiosInRange(RemovePane(node, target).value)
  {
    match node {
      case Pane(_) =>
      case Split(_, _, first, second) =>
        RemoveRatios(first, target);
        RemoveRatios(second, target);
    }
  }

  lemma {:induction false} SwapRatios(node: Node, a: PaneId, b: PaneId)
    requires RatiosInRange(node)
    ensures RatiosInRange(SwapPaneIds(node, a, b))
  {
    match node {
      case Pane(_) =>
      case Split(_, _, first, second) =>
        SwapRatios(first, a, b);
        SwapRatios(second, a, b);
    }
  }

  lemma SplitKeeps(s: LayoutState, target: PaneId, d: Direction, newId: PaneId, ratio: real)
    requires WellFormed(s) && target in Ids(s.root) && newId !in Ids(s.root)
    ensures WellFormed(LayoutState(SplitAt(s.root, target, d, newId, ValidSplitRatio(ratio)), newId))
  {
    hide Ids, SplitAt, RatiosInRange, Distinct;
    SplitIds(s.root, target, d, newId, ValidSplitRatio(ratio));
    SplitRatios(s.root, target, d, newId, ValidSplitRatio(ratio));
  }

  lemma CloseKeeps(s: LayoutState)
    requires WellFormed(s)
    ensures WellFormed(Apply(s, Close))
  {
    if |Ids(s.root)| >= 2 {
      RemoveIds(s.root, s.focus);
      RemoveRatios(s.root, s.focus);
      var ids := Ids(s.root);
      var pos := PositionOf(ids, s.focus);
      var next := NextFocus(ids, s.focus);
      assert next in ids && next != s.focus;
    }
  }

  lemma SwapKeeps(s: LayoutState, a: PaneId, b: PaneId)
    requires WellFormed(s) && a in Ids(s.root) && b in Ids(s.root)
    ensures WellFormed(s.(root := SwapPaneIds(s.root, a, b)))
  {
    var (ids, after) := (Ids(s.root), Ids(SwapPaneIds(s.root, a, b)));
    SwapIds(s.root, a, b);
    SwapRatios(s.root, a, b);
    hide Ids, SwapPaneIds, RatiosInRange;
    var i :| 0 <= i < |ids| && ids[i] == Swapped(s.focus, a, b);
    assert after[i] == s.focus;
  }

  /** Every edit keeps leaf ids distinct, the focus on a leaf and the ratios in range. */
  lemma ApplyKeeps(s: LayoutState, op: Op)
    requires WellFormed(s) && FreshIds(s, op)
    ensures WellFormed(Apply(s, op))
  {
    match op {
      case SplitFocused(d, ratio, newId) => SplitKeeps(s, s.focus, d, newId, ratio);
      case InsertNear(target, moved, d, ratio) =>
        if target in Ids(s.root) && moved !in Ids(s.root) { SplitKeeps(s, target, d, moved, ratio); }
      case Close => CloseKeeps(s);
      case Focus(_) =>
      case Swap(a, b) =>
        if a in Ids(s.root) && b in Ids(s.root) { SwapKeeps(s, a, b); }
      case RatioAt(path, ratio) => SetRatioKeeps(s.root, path, Clamp(ratio, 0.1, 0.9));
      case Rebalance => BalanceKeeps(s.root);
      case ResizeBy(pane, nav, delta, area) => ResizeKeeps(s.root, pane, nav, delta, area);
    }
  }

  function Run(s: LayoutState, ops: seq<Op>): LayoutState
    decreases |ops|
  {
    if ops == [] then s else Run(Apply(s, ops[0]), ops[1..])
  }

  ghost predicate RunFresh(s: LayoutState, ops: seq<Op>)
    decreases |ops|
  {
    ops == [] || (FreshIds(s, ops[0]) && RunFresh(Apply(s, ops[0]), ops[1..]))
  }

  lemma {:induction false} RunKeeps(s: LayoutState, ops: seq<Op>)
    requires WellFormed(s) && RunFresh(s, ops)
    ensures WellFormed(Run(s, ops))
    decreases |ops|
  {
    hide WellFormed, Apply, FreshIds;
    if ops != [] {
      ApplyKeeps(s, ops[0]);
      RunKeeps(Apply(s, ops[0]), ops[1..]);
    }
  }

  /** After any run of edits the panes still tile whatever area they are given, one pane per id, focus included. */
  lemma RunTiles(s: LayoutState, ops: seq<Op>, area: Rect, cx: int, cy: int)
    requires WellFormed(s) && RunFresh(s, ops) && FitsScreen(area)
    ensures var t := Run(s, ops);
            && Cover(Panes(t.root, area), cx, cy) == (if area.Contains(cx, cy) then 1 else 0)
            && DistinctIds(Panes(t.root, area))
            && FindPane(Panes(t.root, area), t.focus).Some?
  {
    RunKeeps(s, ops);
    hide Run, Panes, Ids, RatiosInRange;
    var t := Run(s, ops);
    ExactTiling(t.root, area, cx, cy);
    PanesInIdOrder(t.root, area);
    var i :| 0 <= i < |Ids(t.root)| && Ids(t.root)[i] == t.focus;
    assert Panes(t.root, area)[i] in Panes(t.root, area);
  }
}
