/** Dragging a divider: the ratio of one named split follows the cursor. */
module LayoutDrag {
  import opened Common
  import opened Layout
  import opened LayoutHit

  const MIN_RATIO := 0.05
  const MAX_RATIO := 0.95

  /** The ratio that puts the divider of a split of size `span` under a cursor `rel` cells in. */
  function DraggedRatio(span: nat, rel: nat): real
  {
    var usable := Max(SatSub(span, DIVIDER), 1);
    Clamp(Min(rel, SatSub(span, 1)) as real / usable as real, MIN_RATIO, MAX_RATIO)
  }

  /** Move the named divider to the cursor; the flag says whether the path named a split. */
  function SetRatioByPath(node: PaneNode, path: seq<bool>, col: nat, row: nat, area: Rect): (PaneNode, bool)
  {
    if node.Leaf? then (node, false) else
    if path == [] then
      var ratio := if node.dir.Horizontal? then DraggedRatio(area.cols, SatSub(col, area.x))
                   else DraggedRatio(area.rows, SatSub(row, area.y));
      (node.(ratio := ratio), true)
    else
      var (a, b) := SplitRect(area, node.dir, node.ratio);
      if path[0] then
        var (second, ok) := SetRatioByPath(node.second, path[1..], col, row, b);
        (node.(second := second), ok)
      else
        var (first, ok) := SetRatioByPath(node.first, path[1..], col, row, a);
        (node.(first := first), ok)
  }

  /** The trees differ at most in the ratio of the split that `path` names. */
  predicate SameButRatio(n: PaneNode, m: PaneNode, path: seq<bool>)
    requires Names(n, path)
  {
    && m.Split?
    && m.dir == n.dir
    && (path == [] ==> m.first == n.first && m.second == n.second)
    && (path != [] ==> m.ratio == n.ratio)
    && (path != [] && path[0] ==> m.first == n.first && SameButRatio(n.second, m.second, path[1..]))
    && (path != [] && !path[0] ==> m.second == n.second && SameButRatio(n.first, m.first, path[1..]))
  }

  /** A drag succeeds exactly on a path that names a split, and changes one ratio only. */
  lemma {:induction false} DragChangesOneRatio(node: PaneNode, path: seq<bool>, col: nat, row: nat, area: Rect)
    ensures var (node', ok) := SetRatioByPath(node, path, col, row, area);
            ok == Names(node, path) && if ok then SameButRatio(node, node', path) else node' == node
  {
    if node.Split? && path != [] {
      var (a, b) := SplitRect(area, node.dir, node.ratio);
      if path[0] {
        DragChangesOneRatio(node.second, path[1..], col, row, b);
      } else {
        DragChangesOneRatio(node.first, path[1..], col, row, a);
      }
    }
  }

  /** Changing one ratio keeps the leaves, their order, and every path. */
  lemma {:induction false} SameButRatioKeepsShape(n: PaneNode, m: PaneNode, path: seq<bool>)
    requires Names(n, path) && SameButRatio(n, m, path)
    ensures PaneIds(m) == PaneIds(n) && Leaves(m) == Leaves(n) && Distinct(m) == Distinct(n)
    ensures Names(m, path)
  {
    if path != [] {
      if path[0] {
        SameButRatioKeepsShape(n.second, m.second, path[1..]);
      } else {
        SameButRatioKeepsShape(n.first, m.first, path[1..]);
      }
    }
  }

  /** The split that moves keeps its own area, and so does every pane outside it. */
  lemma {:induction false} DragFrame(n: PaneNode, m: PaneNode, path: seq<bool>, area: Rect)
    requires Names(n, path) && Distinct(n) && SameButRatio(n, m, path)
    ensures Names(m, path) && AreaAt(m, path, area) == AreaAt(n, path, area)
    ensures Compute(m, area).Keys == Compute(n, area).Keys
    ensures forall id :: id in Compute(n, area) && id !in Leaves(SplitAt(n, path)) ==>
                         Compute(m, area)[id] == Compute(n, area)[id]
  {
    SameButRatioKeepsShape(n, m, path);
    PlaceMerges(n, area, map[]);
    PlaceMerges(m, area, map[]);
    if path != [] {
      var (a, b) := SplitRect(area, n.dir, n.ratio);
      ComputeSplit(n, area);
      ComputeSplit(m, area);
      if path[0] {
        DragFrame(n.second, m.second, path[1..], b);
      } else {
        DragFrame(n.first, m.first, path[1..], a);
      }
    }
  }

  /** Splits above the one that moves keep their areas and their dividers. */
  lemma {:induction false} AncestorsStay(n: PaneNode, m: PaneNode, path: seq<bool>, area: Rect, col: nat, row: nat)
    requires Names(n, path) && SameButRatio(n, m, path)
    ensures Names(m, path)
    ensures NoneNearAbove(m, area, path, col, row) == NoneNearAbove(n, area, path, col, row)
  {
    SameButRatioKeepsShape(n, m, path);
    if path != [] {
      var (a, b) := SplitRect(area, n.dir, n.ratio);
      NoneNearAboveSplit(n, area, path, col, row);
      NoneNearAboveSplit(m, area, path, col, row);
      if path[0] {
        AncestorsStay(n.second, m.second, path[1..], b, col, row);
      } else {
        AncestorsStay(n.first, m.first, path[1..], a, col, row);
      }
    }
  }

  /** The split that moves gets the ratio for its own area. */
  lemma {:induction false} DraggedSplit(node: PaneNode, path: seq<bool>, col: nat, row: nat, area: Rect)
    requires Names(node, path)
    ensures var node' := SetRatioByPath(node, path, col, row, area).0;
            var at := AreaAt(node, path, area);
            && Names(node', path)
            && SplitAt(node', path) == SetRatioByPath(SplitAt(node, path), [], col, row, at).0
            && AreaAt(node', path, area) == at
  {
    if path != [] {
      var (a, b) := SplitRect(area, node.dir, node.ratio);
      if path[0] {
        DraggedSplit(node.second, path[1..], col, row, b);
      } else {
        DraggedSplit(node.first, path[1..], col, row, a);
      }
    }
  }

  lemma RoundMonotone(u: real, v: real)
    requires u <= v
    ensures Round(u) <= Round(v)
  {
  }

  lemma MulMonotone(d: real, r: real, s: real)
    requires d >= 0.0 && r <= s
    ensures d * r <= d * s
  {
  }

  /** Clamping commutes with scaling. */
  lemma ClampScales(d: real, r: real, lo: real, hi: real)
    requires d >= 0.0 && lo <= hi
    ensures d * lo <= d * hi
    ensures d * Clamp(r, lo, hi) == Clamp(d * r, d * lo, d * hi)
  {
    MulMonotone(d, lo, hi);
    if r < lo {
      MulMonotone(d, r, lo);
    } else if r > hi {
      MulMonotone(d, hi, r);
    } else {
      MulMonotone(d, lo, r);
      MulMonotone(d, r, hi);
    }
  }

  /** Rounding a clamped whole number. */
  lemma RoundClamped(n: int, lo: real, hi: real)
    requires lo <= hi
    ensures Round(lo) <= Round(hi)
    ensures Round(Clamp(n as real, lo, hi))
      == if n < Round(lo) then Round(lo) else if n > Round(hi) then Round(hi) else n
  {
    RoundMonotone(lo, hi);
    if n as real < lo {
      RoundMonotone(n as real, lo);
    } else if n as real > hi {
      RoundMonotone(hi, n as real);
    } else {
      RoundMonotone(lo, n as real);
      RoundMonotone(n as real, hi);
    }
  }

  lemma MulDiv(n: real, d: real)
    requires d > 0.0
    ensures d * (n / d) == n
  {
  }

  /** The first cell of the divider's travel, and the last. */
  function Leftmost(usable: nat): int { Round(usable as real * MIN_RATIO) }

  function Rightmost(usable: nat): int { Round(usable as real * MAX_RATIO) }

  lemma ScaledClamp(n: real, u: real, lo: real, hi: real)
    requires u > 0.0 && lo <= hi
    ensures u * Clamp(n / u, lo, hi) == Clamp(n, u * lo, u * hi)
  {
    var q := n / u;
    assert u * q == n by { MulDiv(n, u); }
    ClampScales(u, q, lo, hi);
  }

  /** The dragged ratio, scaled back to cells. */
  lemma DraggedProduct(span: nat, rel: nat)
    requires span >= 2 && rel < span
    ensures var u := (span - 1) as real;
            var ratio := DraggedRatio(span, rel);
            && MIN_RATIO <= ratio <= MAX_RATIO
            && u * ratio == Clamp(rel as real, u * MIN_RATIO, u * MAX_RATIO)
  {
    var u := (span - 1) as real;
    assert DraggedRatio(span, rel) == Clamp(rel as real / u, MIN_RATIO, MAX_RATIO);
    ScaledClamp(rel as real, u, MIN_RATIO, MAX_RATIO);
  }

  lemma ExtentOfProduct(usable: nat, ratio: real, p: real)
    requires 0.0 <= ratio <= 1.0 && usable as real * ratio == p
    ensures FirstExtent(usable, ratio) == Min(Round(p), usable)
  {
    assert Clamp(ratio, 0.0, 1.0) == ratio;
  }

  /** Where the divider ends up: at the cursor, held inside its travel. */
  lemma DraggedExtent(span: nat, rel: nat)
    requires rel < span
    ensures var usable := span - 1;
            && Leftmost(usable) <= Rightmost(usable)
            && FirstExtent(usable, DraggedRatio(span, rel)) == Held(rel, Leftmost(usable), Rightmost(usable))
  {
    hide FirstExtent, DraggedRatio, Leftmost, Rightmost, Held, Round;
    if span == 1 {
      NothingToTravel(DraggedRatio(span, rel));
    } else {
      var usable := span - 1;
      var u := usable as real;
      DraggedProduct(span, rel);
      ExtentOfProduct(usable, DraggedRatio(span, rel), Clamp(rel as real, u * MIN_RATIO, u * MAX_RATIO));
      TravelFits(usable, rel);
    }
  }

  lemma NothingToTravel(ratio: real)
    ensures Leftmost(0) == Rightmost(0) == 0 && FirstExtent(0, ratio) == 0 == Held(0, Leftmost(0), Rightmost(0))
  {
  }

  lemma TravelFits(usable: nat, rel: nat)
    ensures Leftmost(usable) <= Rightmost(usable)
    ensures var u := usable as real;
            Min(Round(Clamp(rel as real, u * MIN_RATIO, u * MAX_RATIO)), usable)
              == Held(rel, Leftmost(usable), Rightmost(usable))
  {
    var u := usable as real;
    var (lo, hi) := (u * MIN_RATIO, u * MAX_RATIO);
    assert lo <= hi <= u;
    RoundClamped(rel, lo, hi);
    RoundMonotone(Clamp(rel as real, lo, hi), u);
  }

  function Held(n: int, lo: int, hi: int): int
  {
    if n < lo then lo else if n > hi then hi else n
  }

  /** The coordinate of the divider of the named split, along its axis. */
  function LineAt(node: PaneNode, path: seq<bool>, area: Rect): nat
    requires Names(node, path)
  {
    var s := SplitAt(node, path);
    var (a, _) := SplitRect(AreaAt(node, path, area), s.dir, s.ratio);
    if s.dir.Horizontal? then a.x + a.cols else a.y + a.rows
  }

  /** The split's own divider after the drag, when the cursor is inside its area. */
  lemma DraggedLine(s: PaneNode, at: Rect, col: nat, row: nat)
    requires s.Split? && at.Contains(col, row)
    ensures var (cursor, rel, usable) := Travel(s, at, col, row);
            && Leftmost(usable) <= Rightmost(usable)
            && LineAt(SetRatioByPath(s, [], col, row, at).0, [], at)
              == cursor - rel + Held(rel, Leftmost(usable), Rightmost(usable))
  {
    hide FirstExtent, DraggedRatio, Leftmost, Rightmost, Held;
    var (cursor, rel, usable) := Travel(s, at, col, row);
    DraggedExtent(usable + 1, rel);
    assert AreaAt(SetRatioByPath(s, [], col, row, at).0, [], at) == at;
  }

  /** Along the axis of `s`: the cursor, its offset into the area, and the usable span. */
  function Travel(s: PaneNode, at: Rect, col: nat, row: nat): (nat, nat, nat)
    requires s.Split? && at.Contains(col, row)
  {
    if s.dir.Horizontal? then (col, col - at.x, at.cols - 1) else (row, row - at.y, at.rows - 1)
  }

  /**
   Exactness: with the cursor inside the split's area, the divider lands under the cursor if and
   only if the cursor's offset is within half a cell of lying between 5% and 95% of the usable span;
   otherwise it stops at the cell nearest to the end that the cursor has passed.
   */
  lemma DragIsExact(node: PaneNode, path: seq<bool>, col: nat, row: nat, area: Rect)
    requires Names(node, path) && AreaAt(node, path, area).Contains(col, row)
    ensures var (node', ok) := SetRatioByPath(node, path, col, row, area);
            var (cursor, rel, usable) := Travel(SplitAt(node, path), AreaAt(node, path, area), col, row);
            && ok && Names(node', path)
            && var (line, low, high) :=
                 (LineAt(node', path, area) - (cursor - rel), usable as real * 0.05, usable as real * 0.95);
               && (LineAt(node', path, area) == cursor <==> low < rel as real + 0.5 && rel as real - 0.5 <= high)
               && (rel as real + 0.5 <= low ==> Nearest(line, low))
               && (high < rel as real - 0.5 ==> Nearest(line, high))
  {
    var at := AreaAt(node, path, area);
    var s := SplitAt(node, path);
    DragChangesOneRatio(node, path, col, row, area);
    DraggedSplit(node, path, col, row, area);
    DraggedLine(s, at, col, row);
    var (_, rel, usable) := Travel(s, at, col, row);
    TravelEnds(usable);
  }

  /** The ends of the travel are the cells nearest to 5% and 95% of the span. */
  lemma TravelEnds(usable: nat)
    ensures Nearest(Leftmost(usable), usable as real * 0.05) && Nearest(Rightmost(usable), usable as real * 0.95)
  {
  }

  /** What a drag leaves alone: shape, leaf order, and every pane outside the named split. */
  lemma DragLeavesTheRest(node: PaneNode, path: seq<bool>, col: nat, row: nat, area: Rect)
    requires Distinct(node) && Names(node, path)
    ensures var node' := SetRatioByPath(node, path, col, row, area).0;
            && PaneIds(node') == PaneIds(node)
            && SameButRatio(node, node', path)
            && Compute(node', area).Keys == Compute(node, area).Keys
            && forall id :: id in Compute(node, area) && id !in Leaves(SplitAt(node, path)) ==>
                            Compute(node', area)[id] == Compute(node, area)[id]
  {
    var node' := SetRatioByPath(node, path, col, row, area).0;
    DragChangesOneRatio(node, path, col, row, area);
    SameButRatioKeepsShape(node, node', path);
    DragFrame(node, node', path, area);
  }

  /**
   Re-pressing where an exact drag left the divider grabs the same path if and only if no split
   above it has a divider within one cell of the cursor.
   */
  lemma RegrabAfterDrag(node: PaneNode, path: seq<bool>, col: nat, row: nat, area: Rect)
    requires Distinct(node) && Names(node, path) && AreaAt(node, path, area).Contains(col, row)
    requires var node' := SetRatioByPath(node, path, col, row, area).0;
             Names(node', path) && LineAt(node', path, area) == if SplitAt(node, path).dir.Horizontal? then col else row
    ensures var node' := SetRatioByPath(node, path, col, row, area).0;
            DividerAt(node', col, row, area) == Some(path) <==> NoneNearAbove(node, area, path, col, row)
  {
    var node' := SetRatioByPath(node, path, col, row, area).0;
    DragChangesOneRatio(node, path, col, row, area);
    DragFrame(node, node', path, area);
    DraggedSplit(node, path, col, row, area);
    AncestorsStay(node, node', path, area, col, row);
    OutermostDividerWins(node', area, path, col, row);
  }
}
