/**
 The layout engine: a window's split tree becomes one rectangle per pane.

 Split ratios are real numbers here, so `round()` is exact; coordinates are unbounded, and
 OriginsStayInReach says how far past the viewport a coordinate can ever get.
 */
module Layout {
  import opened Common

  datatype SplitDir = Horizontal | Vertical

  datatype PaneNode =
    | Leaf(id: PaneId)
    | Split(dir: SplitDir, ratio: real, first: PaneNode, second: PaneNode)

  datatype Rect = Rect(x: nat, y: nat, cols: nat, rows: nat) {
    function Area(): nat { cols * rows }

    predicate Contains(px: nat, py: nat)
    {
      x <= px < x + cols && y <= py < y + rows
    }
  }

  const DIVIDER: nat := 1

  // ---------------------------------------------------------------- the tree

  /** In-order pane ids. */
  function PaneIds(node: PaneNode): seq<PaneId>
  {
    match node
    case Leaf(id) => [id]
    case Split(_, _, first, second) => PaneIds(first) + PaneIds(second)
  }

  function Leaves(node: PaneNode): set<PaneId>
  {
    match node
    case Leaf(id) => {id}
    case Split(_, _, first, second) => Leaves(first) + Leaves(second)
  }

  /** Every pane id occurs once, which the model keeps for every window. */
  predicate Distinct(node: PaneNode)
  {
    match node
    case Leaf(_) => true
    case Split(_, _, first, second) => Distinct(first) && Distinct(second) && Leaves(first) !! Leaves(second)
  }

  function Depth(node: PaneNode): nat
  {
    match node
    case Leaf(_) => 0
    case Split(_, _, first, second) => 1 + Max(Depth(first), Depth(second))
  }

  // ---------------------------------------------------------------- rectangles

  /** Cells of `usable` given to the first child. */
  function FirstExtent(usable: nat, ratio: real): (e: nat)
    ensures e <= usable
  {
    var r := Clamp(ratio, 0.0, 1.0);
    MulNonNegative(usable as real, r);
    Min(Round(usable as real * r), usable)
  }

  function SplitRect(area: Rect, dir: SplitDir, ratio: real): (Rect, Rect)
  {
    match dir
    case Horizontal =>
      var usable := SatSub(area.cols, DIVIDER);
      var firstCols := FirstExtent(usable, ratio);
      (Rect(area.x, area.y, firstCols, area.rows),
       Rect(area.x + firstCols + DIVIDER, area.y, usable - firstCols, area.rows))
    case Vertical =>
      var usable := SatSub(area.rows, DIVIDER);
      var firstRows := FirstExtent(usable, ratio);
      (Rect(area.x, area.y, area.cols, firstRows),
       Rect(area.x, area.y + firstRows + DIVIDER, area.cols, usable - firstRows))
  }

  /** No whole number is nearer; of two as near, the larger. */
  predicate Nearest(e: int, v: real) { e as real - 0.5 <= v < e as real + 0.5 }

  /**
   What a ratio gives the first child: the number of cells nearest to its share of the usable ones,
   a half rounded up; all of them from one upwards, and none below zero.
   */
  lemma ExtentIsNearest(usable: nat, ratio: real)
    ensures var e := FirstExtent(usable, ratio);
      && (ratio <= 0.0 ==> e == 0)
      && (ratio >= 1.0 ==> e == usable)
      && (0.0 <= ratio <= 1.0 ==> Nearest(e, usable as real * ratio))
  {
    var u := usable as real;
    if 0.0 <= ratio <= 1.0 {
      ShareFits(u, ratio);
      assert Round(u * ratio) as real <= u * ratio + 0.5 < Round(u * ratio) as real + 1.0;
    }
    assert u * 0.0 == 0.0 && u * 1.0 == u;
  }

  lemma ShareFits(u: real, ratio: real)
    requires u >= 0.0 && 0.0 <= ratio <= 1.0
    ensures 0.0 <= u * ratio <= u
  {
  }

  /** The part of a side, less the one divider cell, that a ratio asks for. */
  function Share(side: nat, ratio: real): real { (side - 1) as real * ratio }

  /**
   Where a split puts its children, in coordinates: side by side or stacked, the whole of the other
   axis each, one cell apart, filling the area, and the first as near to its share as cells allow.
   Half a split of an even number of columns or rows is exactly half of them.
   */
  lemma SplitFollowsItsRatio(area: Rect, ratio: real)
    requires 0.0 <= ratio <= 1.0 && area.cols > 0 && area.rows > 0
    ensures var (a, b) := SplitRect(area, Horizontal, ratio);
      && a.x == area.x && b.x == a.x + a.cols + 1 && b.x + b.cols == area.x + area.cols
      && a.y == b.y == area.y && a.rows == b.rows == area.rows
      && Nearest(a.cols, Share(area.cols, ratio)) && (ratio == 0.5 ==> a.cols == area.cols / 2)
    ensures var (a, b) := SplitRect(area, Vertical, ratio);
      && a.y == area.y && b.y == a.y + a.rows + 1 && b.y + b.rows == area.y + area.rows
      && a.x == b.x == area.x && a.cols == b.cols == area.cols
      && Nearest(a.rows, Share(area.rows, ratio)) && (ratio == 0.5 ==> a.rows == area.rows / 2)
  {
    hide FirstExtent, Nearest, Share;
    GetsItsShare(area.cols, ratio);
    GetsItsShare(area.rows, ratio);
  }

  lemma GetsItsShare(side: nat, ratio: real)
    requires 0.0 <= ratio <= 1.0 && side > 0
    ensures Nearest(FirstExtent(side - 1, ratio), Share(side, ratio))
    ensures ratio == 0.5 ==> FirstExtent(side - 1, ratio) == side / 2
  {
    hide FirstExtent;
    ExtentIsNearest(side - 1, ratio);
    var e := FirstExtent(side - 1, ratio);
    if ratio == 0.5 {
      assert 2.0 * Share(side, 0.5) == (side - 1) as real;
      assert 2 * e - 1 <= side - 1 < 2 * e + 1;
    }
  }

  function Place(node: PaneNode, area: Rect, out: map<PaneId, Rect>): map<PaneId, Rect>
  {
    match node
    case Leaf(id) => out[id := area]
    case Split(dir, ratio, first, second) =>
      var (a, b) := SplitRect(area, dir, ratio);
      Place(second, b, Place(first, a, out))
  }

  function Compute(node: PaneNode, viewport: Rect): map<PaneId, Rect>
  {
    Place(node, viewport, map[])
  }

  /** Placing into a map already holding rectangles is placing into an empty one and merging. */
  lemma {:induction false} PlaceMerges(node: PaneNode, area: Rect, out: map<PaneId, Rect>)
    ensures Place(node, area, out) == out + Compute(node, area)
    ensures Compute(node, area).Keys == Leaves(node)
  {
    match node
    case Leaf(id) =>
    case Split(dir, ratio, first, second) =>
      var (a, b) := SplitRect(area, dir, ratio);
      PlaceMerges(first, a, out);
      PlaceMerges(first, a, map[]);
      PlaceMerges(second, b, Place(first, a, out));
      PlaceMerges(second, b, Place(first, a, map[]));
  }

  /** The layout of a split is the union of its children's layouts in the two sub-rectangles. */
  lemma ComputeSplit(node: PaneNode, area: Rect)
    requires node.Split?
    ensures var (a, b) := SplitRect(area, node.dir, node.ratio);
            Compute(node, area) == Compute(node.first, a) + Compute(node.second, b)
    ensures var (a, b) := SplitRect(area, node.dir, node.ratio);
            Compute(node.first, a).Keys == Leaves(node.first) && Compute(node.second, b).Keys == Leaves(node.second)
  {
    var (a, b) := SplitRect(area, node.dir, node.ratio);
    PlaceMerges(node.first, a, map[]);
    PlaceMerges(node.second, b, Compute(node.first, a));
  }

  /**
   How far a coordinate can leave the viewport: by one cell for each nested split, and only on
   panes of zero size. With 16-bit cells the arithmetic is exact while the right-hand sides fit.
   */
  lemma {:induction false} OriginsStayInReach(node: PaneNode, area: Rect, id: PaneId)
    requires Distinct(node) && id in Leaves(node)
    ensures id in Compute(node, area)
    ensures var r := Compute(node, area)[id];
            && area.x <= r.x && area.y <= r.y
            && r.x + r.cols <= area.x + area.cols + Depth(node)
            && r.y + r.rows <= area.y + area.rows + Depth(node)
            && (r.cols > 0 ==> r.x + r.cols <= area.x + area.cols)
            && (r.rows > 0 ==> r.y + r.rows <= area.y + area.rows)
  {
    if node.Split? {
      var (a, b) := SplitRect(area, node.dir, node.ratio);
      ComputeSplit(node, area);
      if id in Leaves(node.first) {
        OriginsStayInReach(node.first, a, id);
      } else {
        OriginsStayInReach(node.second, b, id);
      }
    }
  }

  // ---------------------------------------------------------------- tiling

  /** What a cell of the content area shows. */
  datatype Owner = Pane(id: PaneId) | Divider(path: seq<bool>)

  /** The cell lies in `area` on the line between the two children of `node`. */
  predicate OnLine(node: PaneNode, area: Rect, x: nat, y: nat)
    requires node.Split?
  {
    var (a, _) := SplitRect(area, node.dir, node.ratio);
    area.Contains(x, y) && if node.dir.Horizontal? then x == a.x + a.cols else y == a.y + a.rows
  }

  predicate OnDivider(node: PaneNode, area: Rect, path: seq<bool>, x: nat, y: nat)
  {
    node.Split? &&
    if path == [] then OnLine(node, area, x, y) else
    var (a, b) := SplitRect(area, node.dir, node.ratio);
    if path[0] then OnDivider(node.second, b, path[1..], x, y) else OnDivider(node.first, a, path[1..], x, y)
  }

  ghost predicate Owns(node: PaneNode, area: Rect, o: Owner, x: nat, y: nat)
  {
    match o
    case Pane(id) => id in Compute(node, area) && Compute(node, area)[id].Contains(x, y)
    case Divider(path) => OnDivider(node, area, path, x, y)
  }

  /** A split cuts its area into first child, line and second child, without gap or overlap. */
  lemma SplitPartitions(node: PaneNode, area: Rect, x: nat, y: nat)
    requires node.Split?
    ensures var (a, b) := SplitRect(area, node.dir, node.ratio);
            && (area.Contains(x, y) <==> a.Contains(x, y) || b.Contains(x, y) || OnLine(node, area, x, y))
            && !(a.Contains(x, y) && b.Contains(x, y))
            && !(OnLine(node, area, x, y) && (a.Contains(x, y) || b.Contains(x, y)))
  {
  }

  /** The owner found by walking down the tree. */
  function OwnerOf(node: PaneNode, area: Rect, x: nat, y: nat): Owner
  {
    match node
    case Leaf(id) => Pane(id)
    case Split(dir, ratio, first, second) =>
      var (a, b) := SplitRect(area, dir, ratio);
      if a.Contains(x, y) then Below(false, OwnerOf(first, a, x, y))
      else if b.Contains(x, y) then Below(true, OwnerOf(second, b, x, y))
      else Divider([])
  }

  function Below(branch: bool, o: Owner): Owner
  {
    match o
    case Pane(id) => o
    case Divider(path) => Divider([branch] + path)
  }

  lemma OwnsSplit(node: PaneNode, area: Rect, o: Owner, x: nat, y: nat)
    requires node.Split? && Distinct(node)
    ensures var (a, b) := SplitRect(area, node.dir, node.ratio);
            Owns(node, area, o, x, y) <==>
              match o
              case Pane(_) => Owns(node.first, a, o, x, y) || Owns(node.second, b, o, x, y)
              case Divider(path) =>
                if path == [] then OnLine(node, area, x, y)
                else if path[0] then Owns(node.second, b, Divider(path[1..]), x, y)
                else Owns(node.first, a, Divider(path[1..]), x, y)
  {
    ComputeSplit(node, area);
  }

  /**
   Tiling: in every viewport, zero-sized ones included, and for every ratio, a viewport cell has
   exactly one owner, a pane or a divider, and a cell outside the viewport has none.
   */
  lemma {:induction false} Tiling(node: PaneNode, area: Rect, o: Owner, x: nat, y: nat)
    requires Distinct(node)
    ensures Owns(node, area, o, x, y) <==> area.Contains(x, y) && o == OwnerOf(node, area, x, y)
    decreases node
  {
    match node
    case Leaf(id) =>
    case Split(dir, ratio, first, second) =>
      var (a, b) := SplitRect(area, dir, ratio);
      OwnsSplit(node, area, o, x, y);
      SplitPartitions(node, area, x, y);
      match o {
        case Pane(_) =>
          Tiling(first, a, o, x, y);
          Tiling(second, b, o, x, y);
        case Divider(path) =>
          if path != [] {
            assert path == [path[0]] + path[1..];
            if path[0] {
              Tiling(second, b, Divider(path[1..]), x, y);
            } else {
              Tiling(first, a, Divider(path[1..]), x, y);
            }
          }
      }
  }

  /** Two panes of one layout share no cell. */
  lemma PanesAreDisjoint(node: PaneNode, area: Rect, i: PaneId, j: PaneId, x: nat, y: nat)
    requires Distinct(node) && i in Leaves(node) && j in Leaves(node) && i != j
    ensures i in Compute(node, area) && j in Compute(node, area)
    ensures !(Compute(node, area)[i].Contains(x, y) && Compute(node, area)[j].Contains(x, y))
  {
    PlaceMerges(node, area, map[]);
    Tiling(node, area, Pane(i), x, y);
    Tiling(node, area, Pane(j), x, y);
  }

  // ---------------------------------------------------------------- conservation of area

  /** Total area of the listed panes in `layout`. */
  function PaneArea(ids: seq<PaneId>, layout: map<PaneId, Rect>): nat
    requires forall i :: i in ids ==> i in layout
  {
    if ids == [] then 0 else layout[ids[0]].Area() + PaneArea(ids[1..], layout)
  }

  function DividerArea(node: PaneNode, area: Rect): nat
  {
    match node
    case Leaf(_) => 0
    case Split(dir, ratio, first, second) =>
      var (a, b) := SplitRect(area, dir, ratio);
      var line := if dir.Horizontal? then Min(area.cols, 1) * area.rows else Min(area.rows, 1) * area.cols;
      line + DividerArea(first, a) + DividerArea(second, b)
  }

  lemma {:induction false} PaneAreaConcat(a: seq<PaneId>, b: seq<PaneId>, layout: map<PaneId, Rect>)
    requires forall i :: i in a + b ==> i in layout
    ensures (forall i :: i in a ==> i in layout) && (forall i :: i in b ==> i in layout)
    ensures PaneArea(a + b, layout) == PaneArea(a, layout) + PaneArea(b, layout)
  {
    forall i | i in a || i in b ensures i in layout { assert i in a + b; }
    if a == [] {
      assert a + b == b;
    } else {
      assert (a + b)[1..] == a[1..] + b;
      PaneAreaConcat(a[1..], b, layout);
    }
  }

  lemma {:induction false} PaneAreaAgrees(ids: seq<PaneId>, l: map<PaneId, Rect>, m: map<PaneId, Rect>)
    requires forall i :: i in ids ==> i in l && i in m && l[i] == m[i]
    ensures PaneArea(ids, l) == PaneArea(ids, m)
  {
    if ids != [] { PaneAreaAgrees(ids[1..], l, m); }
  }

  lemma {:induction false} IdsAreLeaves(node: PaneNode)
    ensures forall i :: i in PaneIds(node) <==> i in Leaves(node)
  {
    if node.Split? {
      IdsAreLeaves(node.first);
      IdsAreLeaves(node.second);
    }
  }

  lemma Distributes(a: nat, b: nat, c: nat, k: nat)
    ensures (a + b + c) * k == a * k + b * k + c * k
    ensures k * (a + b + c) == k * a + k * b + k * c
  {
  }

  lemma SplitArea(area: Rect, dir: SplitDir, ratio: real)
    ensures var (a, b) := SplitRect(area, dir, ratio);
            var line := if dir.Horizontal? then Min(area.cols, 1) * area.rows else Min(area.rows, 1) * area.cols;
            area.Area() == a.Area() + b.Area() + line
  {
    var (a, b) := SplitRect(area, dir, ratio);
    if dir.Horizontal? {
      Distributes(a.cols, b.cols, Min(area.cols, 1), area.rows);
      assert area.cols == a.cols + b.cols + Min(area.cols, 1) && a.rows == b.rows == area.rows;
    } else {
      Distributes(a.rows, b.rows, Min(area.rows, 1), area.cols);
      assert area.rows == a.rows + b.rows + Min(area.rows, 1) && a.cols == b.cols == area.cols;
    }
  }

  /** No cell is lost or counted twice: pane areas and divider lines add up to the viewport. */
  lemma {:induction false} AreaIsConserved(node: PaneNode, area: Rect)
    requires Distinct(node)
    ensures forall i :: i in PaneIds(node) ==> i in Compute(node, area)
    ensures PaneArea(PaneIds(node), Compute(node, area)) + DividerArea(node, area) == area.Area()
  {
    IdsAreLeaves(node);
    PlaceMerges(node, area, map[]);
    match node
    case Leaf(id) =>
      assert PaneArea([id], Compute(node, area)) == area.Area() + PaneArea([], Compute(node, area));
    case Split(dir, ratio, first, second) =>
      var (a, b) := SplitRect(area, dir, ratio);
      var whole := Compute(node, area);
      ComputeSplit(node, area);
      IdsAreLeaves(first);
      IdsAreLeaves(second);
      AreaIsConserved(first, a);
      AreaIsConserved(second, b);
      PaneAreaConcat(PaneIds(first), PaneIds(second), whole);
      PaneAreaAgrees(PaneIds(first), whole, Compute(first, a));
      PaneAreaAgrees(PaneIds(second), whole, Compute(second, b));
      SplitArea(area, dir, ratio);
  }
}
