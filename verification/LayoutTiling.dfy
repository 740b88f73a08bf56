/** The panes of a layout tile its area exactly, whatever the rounding of each split. */
module LayoutTiling {
  import opened Layout

  predicate RatiosInRange(node: Node) {
    match node
    case Pane(_) => true
    case Split(_, ratio, first, second) => 0.0 <= ratio <= 1.0 && RatiosInRange(first) && RatiosInRange(second)
  }

  predicate FitsScreen(area: Rect) {
    area.x + area.width <= U16_MAX && area.y + area.height <= U16_MAX
  }

  /** How many panes contain the cell. */
  function Cover(panes: seq<PaneInfo>, cx: int, cy: int): nat {
    if panes == [] then 0
    else (if panes[0].rect.Contains(cx, cy) then 1 else 0) + Cover(panes[1..], cx, cy)
  }

  lemma {:induction false} CoverConcat(a: seq<PaneInfo>, b: seq<PaneInfo>, cx: int, cy: int)
    ensures Cover(a + b, cx, cy) == Cover(a, cx, cy) + Cover(b, cx, cy)
  {
    if a == [] {
      assert a + b == b;
    } else {
      assert (a + b)[1..] == a[1..] + b;
      CoverConcat(a[1..], b, cx, cy);
    }
  }

  lemma ShareFits(len: nat, ratio: real)
    requires 0.0 <= ratio <= 1.0 && len <= U16_MAX
    ensures FirstLen(len, ratio) <= len
  {
    var product := len as real * ratio;
    assert product >= 0.0;
    assert product + len as real * (1.0 - ratio) == len as real;
    assert len as real * (1.0 - ratio) >= 0.0;
    assert product + 0.5 < len as real + 1.0;
  }

  /** The two children partition the area, cell by cell. */
  lemma SplitPartitions(area: Rect, direction: Direction, ratio: real, cx: int, cy: int)
    requires 0.0 <= ratio <= 1.0 && FitsScreen(area)
    ensures var (a, b) := SplitRect(area, direction, ratio);
            && FitsScreen(a) && FitsScreen(b)
            && (area.Contains(cx, cy) <==> a.Contains(cx, cy) || b.Contains(cx, cy))
            && !(a.Contains(cx, cy) && b.Contains(cx, cy))
  {
    ShareFits(if direction.Horizontal? then area.width else area.height, ratio);
    hide FirstLen;
  }

  /** Every cell of the area lies in exactly one pane, every other cell in none. */
  lemma {:induction false} ExactTiling(node: Node, area: Rect, cx: int, cy: int)
    requires RatiosInRange(node) && FitsScreen(area)
    ensures Cover(Panes(node, area), cx, cy) == if area.Contains(cx, cy) then 1 else 0
  {
    match node {
      case Pane(id) =>
        assert Panes(node, area)[1..] == [];
      case Split(direction, ratio, first, second) =>
        SplitPartitions(area, direction, ratio, cx, cy);
        var (a, b) := SplitRect(area, direction, ratio);
        ExactTiling(first, a, cx, cy);
        ExactTiling(second, b, cx, cy);
        CoverConcat(Panes(first, a), Panes(second, b), cx, cy);
    }
  }

  lemma {:induction false} CoverAt(panes: seq<PaneInfo>, i: nat, cx: int, cy: int)
    requires i < |panes| && panes[i].rect.Contains(cx, cy)
    ensures Cover(panes, cx, cy) >= 1
    ensures Cover(panes[..i] + panes[i + 1..], cx, cy) == Cover(panes, cx, cy) - 1
  {
    var (before, after) := (panes[..i], panes[i + 1..]);
    assert panes == before + ([panes[i]] + after);
    CoverConcat(before, [panes[i]] + after, cx, cy);
    assert ([panes[i]] + after)[1..] == after;
    CoverConcat(before, after, cx, cy);
  }

  /** A covered cell has a pane. */
  lemma {:induction false} SomePane(panes: seq<PaneInfo>, cx: int, cy: int) returns (i: nat)
    requires Cover(panes, cx, cy) >= 1
    ensures i < |panes| && panes[i].rect.Contains(cx, cy)
  {
    if panes[0].rect.Contains(cx, cy) {
      i := 0;
    } else {
      var j := SomePane(panes[1..], cx, cy);
      i := j + 1;
    }
  }

  /** Distinct panes share no cell. */
  lemma PanesDisjoint(node: Node, area: Rect, i: nat, j: nat, cx: int, cy: int)
    requires RatiosInRange(node) && FitsScreen(area)
    requires i < |Panes(node, area)| && j < |Panes(node, area)| && i != j
    ensures !(Panes(node, area)[i].rect.Contains(cx, cy) && Panes(node, area)[j].rect.Contains(cx, cy))
  {
    var panes := Panes(node, area);
    ExactTiling(node, area, cx, cy);
    if panes[i].rect.Contains(cx, cy) && panes[j].rect.Contains(cx, cy) {
      CoverAt(panes, i, cx, cy);
      var rest := panes[..i] + panes[i + 1..];
      var k := if j < i then j else j - 1;
      assert rest[k] == panes[j];
      CoverAt(rest, k, cx, cy);
      assert false;
    }
  }

  /** Every pane lies inside the area, zero-size panes included. */
  lemma {:induction false} PanesInside(node: Node, area: Rect)
    requires RatiosInRange(node) && FitsScreen(area)
    ensures forall p | p in Panes(node, area) ::
              && area.x <= p.rect.x && p.rect.x + p.rect.width <= area.x + area.width
              && area.y <= p.rect.y && p.rect.y + p.rect.height <= area.y + area.height
  {
    match node {
      case Pane(_) =>
      case Split(direction, ratio, first, second) =>
        SplitPartitions(area, direction, ratio, 0, 0);
        ShareFits(if direction.Horizontal? then area.width else area.height, ratio);
        var (a, b) := SplitRect(area, direction, ratio);
        hide FirstLen;
        PanesInside(first, a);
        PanesInside(second, b);
    }
  }

  /** Panes come in the order of the ids. */
  lemma {:induction false} PanesInIdOrder(node: Node, area: Rect)
    ensures |Panes(node, area)| == |Ids(node)|
    ensures forall i | 0 <= i < |Ids(node)| :: Panes(node, area)[i].id == Ids(node)[i]
  {
    match node {
      case Pane(_) =>
      case Split(direction, ratio, first, second) =>
        var (a, b) := SplitRect(area, direction, ratio);
        PanesInIdOrder(first, a);
        PanesInIdOrder(second, b);
    }
  }
}
