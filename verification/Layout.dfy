/** BSP tiling layout: a tree of splits, the rectangles it assigns, and the edits on it. */
module Layout {
  import opened Options

  type PaneId = nat

  const U16_MAX: nat := 0xffff

  /** The id a tree is left with when every one of its leaves was removed. */
  const PLACEHOLDER: PaneId := 0

  datatype Direction = Horizontal | Vertical

  datatype Nav = Left | Right | Up | Down

  datatype Rect = Rect(x: nat, y: nat, width: nat, height: nat)
  {
    predicate Contains(cx: int, cy: int) {
      x <= cx < x + width && y <= cy < y + height
    }
  }

  datatype Node =
    | Pane(id: PaneId)
    | Split(direction: Direction, ratio: real, first: Node, second: Node)

  datatype PaneInfo = PaneInfo(id: PaneId, rect: Rect)

  // ----- rectangles -----

  /** Rounds half away from zero. */
  function Round(r: real): int {
    if r < 0.0 then -((0.5 - r).Floor) else (r + 0.5).Floor
  }

  /** The first child's share of a length, as a 16-bit cast leaves it. */
  function FirstLen(len: nat, ratio: real): nat {
    var rounded := Round(len as real * ratio);
    if rounded < 0 then 0 else if rounded > U16_MAX then U16_MAX else rounded
  }

  function SplitRect(area: Rect, direction: Direction, ratio: real): (Rect, Rect) {
    match direction
    case Horizontal =>
      var w := FirstLen(area.width, ratio);
      (Rect(area.x, area.y, w, area.height),
       Rect(area.x + w, area.y, if area.width < w then 0 else area.width - w, area.height))
    case Vertical =>
      var h := FirstLen(area.height, ratio);
      (Rect(area.x, area.y, area.width, h),
       Rect(area.x, area.y + h, area.width, if area.height < h then 0 else area.height - h))
  }

  function Panes(node: Node, area: Rect): seq<PaneInfo> {
    match node
    case Pane(id) => [PaneInfo(id, area)]
    case Split(direction, ratio, first, second) =>
      var (a, b) := SplitRect(area, direction, ratio);
      Panes(first, a) + Panes(second, b)
  }

  function Ids(node: Node): (ids: seq<PaneId>)
    ensures |ids| >= 1
  {
    match node
    case Pane(id) => [id]
    case Split(_, _, first, second) => Ids(first) + Ids(second)
  }

  // ----- edits -----

  function Clamp(r: real, low: real, high: real): real {
    if r < low then low else if high < r then high else r
  }

  function ValidSplitRatio(ratio: real): real {
    Clamp(ratio, 0.1, 0.9)
  }

  function SplitAt(node: Node, target: PaneId, direction: Direction, newId: PaneId, ratio: real): Node {
    match node
    case Pane(id) => if id == target then Split(direction, ratio, Pane(id), Pane(newId)) else node
    case Split(d, r, first, second) =>
      Split(d, r, SplitAt(first, target, direction, newId, ratio), SplitAt(second, target, direction, newId, ratio))
  }

  function RemovePane(node: Node, target: PaneId): Option<Node> {
    match node
    case Pane(id) => if id == target then None else Some(node)
    case Split(d, r, first, second) =>
      match (RemovePane(first, target), RemovePane(second, target))
      case (None, Some(s)) => Some(s)
      case (Some(f), None) => Some(f)
      case (Some(f), Some(s)) => Some(Split(d, r, f, s))
      case (None, None) => None
  }

  function SwapPaneIds(node: Node, a: PaneId, b: PaneId): Node {
    match node
    case Pane(id) => Pane(if id == a then b else if id == b then a else id)
    case Split(d, r, first, second) => Split(d, r, SwapPaneIds(first, a, b), SwapPaneIds(second, a, b))
  }

  type Path = seq<bool>

  /** Sets the ratio of the split at `path`; the tree is unchanged when there is none. */
  function SetRatioAt(node: Node, path: Path, ratio: real): Node
    decreases node
  {
    match node
    case Pane(_) => node
    case Split(_, _, first, second) =>
      if path == [] then node.(ratio := ratio)
      else if path[0] then node.(second := SetRatioAt(second, path[1..], ratio))
      else node.(first := SetRatioAt(first, path[1..], ratio))
  }

  function GetRatioAt(node: Node, path: Path): Option<real>
    decreases node
  {
    match node
    case Pane(_) => None
    case Split(_, ratio, first, second) =>
      if path == [] then Some(ratio)
      else if path[0] then GetRatioAt(second, path[1..])
      else GetRatioAt(first, path[1..])
  }

  function CountPanes(node: Node): nat {
    match node
    case Pane(_) => 1
    case Split(_, _, first, second) => CountPanes(first) + CountPanes(second)
  }

  /** Every split weighted by the leaves on its two sides. */
  function Balance(node: Node): Node {
    match node
    case Pane(_) => node
    case Split(d, _, first, second) =>
      Split(d, ValidSplitRatio(CountPanes(first) as real / NonZero(CountPanes(first) + CountPanes(second)) as real),
            Balance(first), Balance(second))
  }

  function NonZero(n: nat): (r: nat)
    ensures 1 <= r
  {
    if n == 0 then 1 else n
  }

  // ----- resizing -----

  datatype SplitBorder = SplitBorder(pos: nat, direction: Direction, ratio: real, area: Rect, path: Path)

  function Splits(node: Node, area: Rect, path: Path): seq<SplitBorder> {
    match node
    case Pane(_) => []
    case Split(direction, ratio, first, second) =>
      var (a, b) := SplitRect(area, direction, ratio);
      [SplitBorder(if direction.Horizontal? then a.x + a.width else a.y + a.height, direction, ratio, area, path)]
      + Splits(first, a, path + [false]) + Splits(second, b, path + [true])
  }

  predicate RangesOverlap(aStart: nat, aLen: nat, bStart: nat, bLen: nat) {
    aStart < bStart + bLen && aStart + aLen > bStart
  }

  function Distance(a: nat, b: nat): nat {
    if a < b then b - a else a - b
  }

  function SplitEdgeDistance(split: SplitBorder, focused: Rect, nav: Nav): nat {
    match nav
    case Left => Distance(split.pos, focused.x)
    case Right => Distance(split.pos, focused.x + focused.width)
    case Up => Distance(split.pos, focused.y)
    case Down => Distance(split.pos, focused.y + focused.height)
  }

  function Axis(nav: Nav): Direction {
    if nav.Left? || nav.Right? then Horizontal else Vertical
  }

  predicate Resizes(split: SplitBorder, target: Direction, focused: Rect, nav: Nav) {
    && split.direction == target
    && (if Axis(nav).Horizontal? then RangesOverlap(split.area.y, split.area.height, focused.y, focused.height)
        else RangesOverlap(split.area.x, split.area.width, focused.x, focused.width))
    && SplitEdgeDistance(split, focused, nav) <= 1
  }

  /** The first of the nearest resizable splits. */
  function NearestResizeSplit(splits: seq<SplitBorder>, target: Direction, focused: Rect, nav: Nav): (r: Option<SplitBorder>)
    ensures r.Some? ==> r.value in splits
  {
    if splits == [] then None
    else
      var rest := NearestResizeSplit(splits[1..], target, focused, nav);
      if !Resizes(splits[0], target, focused, nav) then rest
      else if rest.Some? && SplitEdgeDistance(rest.value, focused, nav) < SplitEdgeDistance(splits[0], focused, nav) then rest
      else Some(splits[0])
  }

  function Opposite(nav: Nav): Nav {
    match nav
    case Left => Right
    case Right => Left
    case Up => Down
    case Down => Up
  }

  function FindPane(panes: seq<PaneInfo>, id: PaneId): (r: Option<PaneInfo>)
    ensures r.Some? ==> r.value in panes && r.value.id == id
    ensures r.None? ==> forall p | p in panes :: p.id != id
  {
    if panes == [] then None else if panes[0].id == id then Some(panes[0]) else FindPane(panes[1..], id)
  }

  /** The split a resize of pane `id` moves: on the requested edge, or else on the opposite one. */
  function ResizeTarget(root: Node, id: PaneId, nav: Nav, area: Rect): Option<SplitBorder> {
    match FindPane(Panes(root, area), id)
    case None => None
    case Some(pane) =>
      var splits := Splits(root, area, []);
      match NearestResizeSplit(splits, Axis(nav), pane.rect, nav)
      case Some(split) => Some(split)
      case None => NearestResizeSplit(splits, Axis(nav), pane.rect, Opposite(nav))
  }

  function Resize(root: Node, id: PaneId, nav: Nav, delta: real, area: Rect): Node {
    match ResizeTarget(root, id, nav, area)
    case None => root
    case Some(split) =>
      var current := match GetRatioAt(root, split.path) case Some(r) => r case None => 0.5;
      var change := if nav.Right? || nav.Down? then delta else -delta;
      SetRatioAt(root, split.path, Clamp(current + change, 0.1, 0.9))
  }

  // ----- the layout object -----

  datatype LayoutState = LayoutState(root: Node, focus: PaneId)

  function PositionOf(ids: seq<PaneId>, id: PaneId): (k: nat)
    requires id in ids
    ensures k < |ids| && ids[k] == id && id !in ids[..k]
  {
    if ids[0] == id then 0 else PositionOf(ids[1..], id) + 1
  }

  /** Where the focus goes when pane `target` closes: the next pane, or the previous one at the end. */
  function NextFocus(ids: seq<PaneId>, target: PaneId): PaneId
    requires target in ids && |ids| >= 2
  {
    var pos := PositionOf(ids, target);
    if pos + 1 < |ids| then ids[pos + 1] else ids[pos - 1]
  }

  class TileLayout {
    var root: Node
    var focus: PaneId

    ghost function Abs(): LayoutState
      reads this
    {
      LayoutState(root, focus)
    }

    constructor (rootId: PaneId)
      ensures Abs() == LayoutState(Pane(rootId), rootId)
    {
      root, focus := Pane(rootId), rootId;
    }

    constructor FromSaved(root: Node, focus: PaneId)
      ensures Abs() == LayoutState(root, focus)
    {
      this.root, this.focus := root, focus;
    }

    /** `newId` is the freshly allocated id of the new pane. */
    method SplitFocusedWithRatio(direction: Direction, ratio: real, newId: PaneId)
      modifies this
      ensures Abs() == Apply(old(Abs()), SplitFocused(direction, ratio, newId))
    {
      root := SplitAt(root, focus, direction, newId, ValidSplitRatio(ratio));
      focus := newId;
    }

    method InsertPaneNear(target: PaneId, moved: PaneId, direction: Direction, ratio: real) returns (inserted: bool)
      modifies this
      ensures Abs() == Apply(old(Abs()), InsertNear(target, moved, direction, ratio))
      ensures inserted <==> target in Ids(old(root)) && moved !in Ids(old(root))
    {
      if target == moved {
        return false;
      }
      var ids := Ids(root);
      if target !in ids || moved in ids {
        return false;
      }
      root := SplitAt(root, target, direction, moved, ValidSplitRatio(ratio));
      focus := moved;
      return true;
    }

    method CloseFocused() returns (closed: bool)
      requires |Ids(root)| >= 2 ==> focus in Ids(root)
      modifies this
      ensures Abs() == Apply(old(Abs()), Close)
      ensures closed <==> |Ids(old(root))| >= 2 && RemovePane(old(root), old(focus)).Some?
    {
      CountIsIds(root);
      if CountPanes(root) <= 1 {
        return false;
      }
      var next := NextFocus(Ids(root), focus);
      match RemovePane(root, focus) {
        case Some(newRoot) =>
          root, focus := newRoot, next;
          return true;
        case None =>
          root := Pane(PLACEHOLDER);
          return false;
      }
    }

    method FocusPane(id: PaneId)
      modifies this
      ensures Abs() == Apply(old(Abs()), Focus(id))
    {
      if id in Ids(root) {
        focus := id;
      }
    }

    method SwapPanes(a: PaneId, b: PaneId) returns (swapped: bool)
      modifies this
      ensures Abs() == Apply(old(Abs()), Swap(a, b))
      ensures swapped <==> a != b && a in Ids(old(root)) && b in Ids(old(root))
    {
      var ids := Ids(root);
      if a == b || a !in ids || b !in ids {
        return false;
      }
      root := SwapPaneIds(root, a, b);
      return true;
    }

    method SetRatio(path: Path, ratio: real) returns (found: bool)
      modifies this
      ensures Abs() == Apply(old(Abs()), RatioAt(path, ratio))
      ensures found <==> GetRatioAt(old(root), path).Some?
    {
      found := GetRatioAt(root, path).Some?;
      root := SetRatioAt(root, path, Clamp(ratio, 0.1, 0.9));
    }

    method BalanceAll() returns (changed: bool)
      modifies this
      ensures Abs() == Apply(old(Abs()), Rebalance)
      ensures changed <==> root != old(root)
    {
      var before := root;
      root := Balance(root);
      changed := root != before;
    }

    method ResizePane(id: PaneId, nav: Nav, delta: real, area: Rect) returns (changed: bool)
      modifies this
      ensures Abs() == Apply(old(Abs()), ResizeBy(id, nav, delta, area))
      ensures changed <==> root != old(root)
    {
      if id !in Ids(root) {
        return false;
      }
      var before := root;
      var previousFocus := focus;
      focus := id;
      root := Resize(root, focus, nav, delta, area);
      focus := previousFocus;
      changed := root != before;
    }
  }

  datatype Op =
    | SplitFocused(direction: Direction, ratio: real, newId: PaneId)
    | InsertNear(target: PaneId, moved: PaneId, direction: Direction, ratio: real)
    | Close
    | Focus(id: PaneId)
    | Swap(a: PaneId, b: PaneId)
    | RatioAt(path: Path, newRatio: real)
    | Rebalance
    | ResizeBy(pane: PaneId, nav: Nav, delta: real, area: Rect)

  function Apply(s: LayoutState, op: Op): LayoutState {
    match op
    case SplitFocused(direction, ratio, newId) =>
      LayoutState(SplitAt(s.root, s.focus, direction, newId, ValidSplitRatio(ratio)), newId)
    case InsertNear(target, moved, direction, ratio) =>
      if target in Ids(s.root) && moved !in Ids(s.root) then
        LayoutState(SplitAt(s.root, target, direction, moved, ValidSplitRatio(ratio)), moved)
      else s
    case Close =>
      if s.focus !in Ids(s.root) || |Ids(s.root)| < 2 then s
      else
        (match RemovePane(s.root, s.focus)
         case Some(root) => LayoutState(root, NextFocus(Ids(s.root), s.focus))
         case None => s.(root := Pane(PLACEHOLDER)))
    case Focus(id) => if id in Ids(s.root) then s.(focus := id) else s
    case Swap(a, b) =>
      if a != b && a in Ids(s.root) && b in Ids(s.root) then s.(root := SwapPaneIds(s.root, a, b)) else s
    case RatioAt(path, ratio) => s.(root := SetRatioAt(s.root, path, Clamp(ratio, 0.1, 0.9)))
    case Rebalance => s.(root := Balance(s.root))
    case ResizeBy(pane, nav, delta, area) =>
      if pane in Ids(s.root) then s.(root := Resize(s.root, pane, nav, delta, area)) else s
  }

  lemma {:induction false} CountIsIds(node: Node)
    ensures CountPanes(node) == |Ids(node)|
  {
    match node {
      case Pane(_) =>
      case Split(_, _, first, second) =>
        CountIsIds(first);
        CountIsIds(second);
    }
  }
}
