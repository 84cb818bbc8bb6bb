/** Hit-testing on the layout: which pane, or which divider, is under a point. */
module LayoutHit {
  import opened Common
  import opened Layout

  /** The first pane, in id order, whose rectangle contains the point. */
  function PaneAt(layout: map<PaneId, Rect>, x: nat, y: nat): (r: Option<PaneId>)
    ensures r.Some? ==> r.value in layout && layout[r.value].Contains(x, y)
    ensures r.Some? ==> forall id :: id in layout && layout[id].Contains(x, y) ==> r.value <= id
    ensures r.None? ==> forall id :: id in layout ==> !layout[id].Contains(x, y)
  {
    var hits := set id | id in layout && layout[id].Contains(x, y);
    assert forall id :: id in layout && layout[id].Contains(x, y) ==> id in hits;
    if hits == {} then None else Some(Least(hits))
  }

  /** How far from a line still counts as grabbing it. */
  const GRAB: nat := 1

  predicate Near(pos: nat, target: nat) { AbsDiff(pos, target) <= GRAB }

  /** The point is within reach of the divider of the split at the root of `node`. */
  predicate NearLine(node: PaneNode, area: Rect, col: nat, row: nat)
    requires node.Split?
  {
    var (a, _) := SplitRect(area, node.dir, node.ratio);
    if node.dir.Horizontal? then area.y <= row < area.y + area.rows && Near(col, a.x + a.cols)
    else area.x <= col < area.x + area.cols && Near(row, a.y + a.rows)
  }

  function DividerAt(node: PaneNode, col: nat, row: nat, area: Rect): Option<seq<bool>>
  {
    if node.Leaf? then None else
    var (a, b) := SplitRect(area, node.dir, node.ratio);
    if NearLine(node, area, col, row) then Some([])
    else if a.Contains(col, row) then Prefixed(false, DividerAt(node.first, col, row, a))
    else if b.Contains(col, row) then Prefixed(true, DividerAt(node.second, col, row, b))
    else None
  }

  function Prefixed(branch: bool, path: Option<seq<bool>>): Option<seq<bool>>
  {
    if path.Some? then Some([branch] + path.value) else None
  }

  /** `path` leads from the root of `node` to a split. */
  predicate Names(node: PaneNode, path: seq<bool>)
  {
    node.Split? &&
    (path == [] || Names(if path[0] then node.second else node.first, path[1..]))
  }

  function SplitAt(node: PaneNode, path: seq<bool>): (s: PaneNode)
    requires Names(node, path)
    ensures s.Split?
  {
    if path == [] then node else SplitAt(if path[0] then node.second else node.first, path[1..])
  }

  /** The rectangle given to the split that `path` names. */
  function AreaAt(node: PaneNode, path: seq<bool>, area: Rect): Rect
    requires Names(node, path)
  {
    if path == [] then area else
    var (a, b) := SplitRect(area, node.dir, node.ratio);
    if path[0] then AreaAt(node.second, path[1..], b) else AreaAt(node.first, path[1..], a)
  }

  /** The point is within reach of the divider that `path` names. */
  predicate NearAt(node: PaneNode, area: Rect, path: seq<bool>, col: nat, row: nat)
    requires Names(node, path)
  {
    NearLine(SplitAt(node, path), AreaAt(node, path, area), col, row)
  }

  lemma {:induction false} LineOfNamed(node: PaneNode, area: Rect, path: seq<bool>, x: nat, y: nat)
    requires Names(node, path)
    ensures OnDivider(node, area, path, x, y) == OnLine(SplitAt(node, path), AreaAt(node, path, area), x, y)
  {
    if path != [] {
      var (a, b) := SplitRect(area, node.dir, node.ratio);
      if path[0] { LineOfNamed(node.second, b, path[1..], x, y); } else { LineOfNamed(node.first, a, path[1..], x, y); }
    }
  }

  /**
   Reach, in cells: a point is within reach of a divider if and only if it is at most one cell away,
   across the line, from a cell that divider owns.
   */
  lemma ReachIsOneCell(node: PaneNode, area: Rect, path: seq<bool>, col: nat, row: nat)
    requires Names(node, path) && AreaAt(node, path, area).Area() > 0
    ensures NearAt(node, area, path, col, row) <==>
      if SplitAt(node, path).dir.Horizontal?
      then exists x: nat :: Owns(node, area, Divider(path), x, row) && x - 1 <= col <= x + 1
      else exists y: nat :: Owns(node, area, Divider(path), col, y) && y - 1 <= row <= y + 1
  {
    var (s, at) := (SplitAt(node, path), AreaAt(node, path, area));
    var (a, _) := SplitRect(at, s.dir, s.ratio);
    forall x: nat, y: nat ensures Owns(node, area, Divider(path), x, y) == OnLine(s, at, x, y) {
      LineOfNamed(node, area, path, x, y);
    }
    if s.dir.Horizontal? {
      assert OnLine(s, at, a.x + a.cols, row) <==> at.y <= row < at.y + at.rows;
    } else {
      assert OnLine(s, at, col, a.y + a.rows) <==> at.x <= col < at.x + at.cols;
    }
  }

  lemma {:induction false} NamesPrefix(node: PaneNode, path: seq<bool>, k: nat)
    requires Names(node, path) && k <= |path|
    ensures Names(node, path[..k])
  {
    if k > 0 {
      var child := if path[0] then node.second else node.first;
      NamesPrefix(child, path[1..], k - 1);
      assert path[..k][1..] == path[1..][..k - 1];
    }
  }

  /** A named split lies inside the area of every split above it. */
  lemma {:induction false} AreaNests(node: PaneNode, area: Rect, path: seq<bool>, col: nat, row: nat)
    requires Names(node, path) && AreaAt(node, path, area).Contains(col, row)
    ensures area.Contains(col, row)
  {
    if path != [] {
      var (a, b) := SplitRect(area, node.dir, node.ratio);
      if path[0] {
        AreaNests(node.second, b, path[1..], col, row);
      } else {
        AreaNests(node.first, a, path[1..], col, row);
      }
      SplitPartitions(node, area, col, row);
    }
  }

  /** Every path a press returns leads to a split whose divider is within one cell of the press. */
  lemma {:induction false} GrabbedPathNamesASplit(node: PaneNode, area: Rect, col: nat, row: nat)
    requires DividerAt(node, col, row, area).Some?
    ensures var path := DividerAt(node, col, row, area).value;
            Names(node, path) && NearAt(node, area, path, col, row)
  {
    var (a, b) := SplitRect(area, node.dir, node.ratio);
    var path := DividerAt(node, col, row, area).value;
    if NearLine(node, area, col, row) {
    } else if a.Contains(col, row) {
      GrabbedPathNamesASplit(node.first, a, col, row);
      assert path[1..] == DividerAt(node.first, col, row, a).value;
    } else {
      GrabbedPathNamesASplit(node.second, b, col, row);
      assert path[1..] == DividerAt(node.second, col, row, b).value;
    }
  }

  /** No split above `path` has a divider within reach of the point. */
  ghost predicate NoneNearAbove(node: PaneNode, area: Rect, path: seq<bool>, col: nat, row: nat)
    requires Names(node, path)
  {
    forall k: nat {:trigger path[..k]} :: k < |path| ==>
      (NamesPrefix(node, path, k); !NearAt(node, area, path[..k], col, row))
  }

  lemma NoneNearAboveSplit(node: PaneNode, area: Rect, path: seq<bool>, col: nat, row: nat)
    requires Names(node, path) && path != []
    ensures var (a, b) := SplitRect(area, node.dir, node.ratio);
            var (child, sub) := if path[0] then (node.second, b) else (node.first, a);
            && Names(child, path[1..])
            && (NoneNearAbove(node, area, path, col, row) <==>
                !NearLine(node, area, col, row) && NoneNearAbove(child, sub, path[1..], col, row))
  {
    var (a, b) := SplitRect(area, node.dir, node.ratio);
    var (child, sub) := if path[0] then (node.second, b) else (node.first, a);
    forall k: nat | k < |path|
      ensures Names(node, path[..k])
      ensures k == 0 ==> NearAt(node, area, path[..k], col, row) == NearLine(node, area, col, row)
      ensures k > 0 ==> Names(child, path[1..][..k - 1]) &&
                        NearAt(node, area, path[..k], col, row) == NearAt(child, sub, path[1..][..k - 1], col, row)
    {
      NamesPrefix(node, path, k);
      if k == 0 {
        assert path[..k] == [];
      } else {
        assert path[..k][1..] == path[1..][..k - 1];
      }
    }
    if NoneNearAbove(node, area, path, col, row) {
      assert path[..0] == [];
      forall k: nat | k < |path[1..]|
        ensures (NamesPrefix(child, path[1..], k); !NearAt(child, sub, path[1..][..k], col, row))
      {
        NamesPrefix(child, path[1..], k);
        assert !NearAt(node, area, path[..k + 1], col, row);
      }
    }
    if !NearLine(node, area, col, row) && NoneNearAbove(child, sub, path[1..], col, row) {
      forall k: nat | k < |path|
        ensures (NamesPrefix(node, path, k); !NearAt(node, area, path[..k], col, row))
      {
        NamesPrefix(node, path, k);
        if k > 0 {
          assert !NearAt(child, sub, path[1..][..k - 1], col, row);
        }
      }
    }
  }

  /**
   Which divider a press grabs: when the point lies inside the named split and within reach of its
   line, the press grabs exactly that split if and only if no split above it is within reach.
   */
  lemma {:induction false} OutermostDividerWins(node: PaneNode, area: Rect, path: seq<bool>, col: nat, row: nat)
    requires Names(node, path) && AreaAt(node, path, area).Contains(col, row)
    requires NearAt(node, area, path, col, row)
    ensures DividerAt(node, col, row, area).Some?
    ensures DividerAt(node, col, row, area).value <= path
    ensures DividerAt(node, col, row, area) == Some(path) <==> NoneNearAbove(node, area, path, col, row)
  {
    if path != [] {
      var (a, b) := SplitRect(area, node.dir, node.ratio);
      NoneNearAboveSplit(node, area, path, col, row);
      assert path == [path[0]] + path[1..];
      if path[0] {
        AreaNests(node.second, b, path[1..], col, row);
        SplitPartitions(node, area, col, row);
        OutermostDividerWins(node.second, b, path[1..], col, row);
      } else {
        AreaNests(node.first, a, path[1..], col, row);
        OutermostDividerWins(node.first, a, path[1..], col, row);
      }
    }
  }

  /** On a computed layout, hit-testing a viewport cell returns exactly the pane that owns it. */
  lemma PaneAtIsTheOwner(node: PaneNode, area: Rect, x: nat, y: nat)
    requires Distinct(node)
    ensures forall id: PaneId :: PaneAt(Compute(node, area), x, y) == Some(id) <==>
                         area.Contains(x, y) && OwnerOf(node, area, x, y) == Pane(id)
  {
    forall id: PaneId
      ensures PaneAt(Compute(node, area), x, y) == Some(id) <==>
              area.Contains(x, y) && OwnerOf(node, area, x, y) == Pane(id)
    {
      Tiling(node, area, Pane(id), x, y);
      var hit := PaneAt(Compute(node, area), x, y);
      if hit.Some? {
        Tiling(node, area, Pane(hit.value), x, y);
      } else if area.Contains(x, y) && OwnerOf(node, area, x, y) == Pane(id) {
        assert Owns(node, area, Pane(id), x, y);
      }
    }
  }

  /** A cell that shows a divider can be grabbed. */
  lemma {:induction false} DividerCellsGrab(node: PaneNode, area: Rect, x: nat, y: nat)
    requires area.Contains(x, y) && OwnerOf(node, area, x, y).Divider?
    ensures DividerAt(node, x, y, area).Some?
  {
    var (a, b) := SplitRect(area, node.dir, node.ratio);
    SplitPartitions(node, area, x, y);
    if NearLine(node, area, x, y) {
    } else if a.Contains(x, y) {
      DividerCellsGrab(node.first, a, x, y);
    } else {
      DividerCellsGrab(node.second, b, x, y);
    }
  }

  /** Completeness: a viewport cell is over a pane or a press there grabs a divider. */
  lemma EveryCellHits(node: PaneNode, area: Rect, x: nat, y: nat)
    requires Distinct(node) && area.Contains(x, y)
    ensures PaneAt(Compute(node, area), x, y).None? ==> DividerAt(node, x, y, area).Some?
  {
    PaneAtIsTheOwner(node, area, x, y);
    var o := OwnerOf(node, area, x, y);
    if o.Divider? {
      DividerCellsGrab(node, area, x, y);
    } else {
      assert PaneAt(Compute(node, area), x, y) == Some(o.id);
    }
  }
}
