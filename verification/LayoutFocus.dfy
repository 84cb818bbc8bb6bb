/** Geographic focus: the pane next to a pane in a direction. */
module LayoutFocus {
  import opened Common
  import opened Layout

  datatype Direction = Left | Right | Up | Down

  function Opposite(dir: Direction): Direction
  {
    match dir case Left => Right case Right => Left case Up => Down case Down => Up
  }

  /** The rectangles share a column, or a row. */
  predicate HOverlap(r: Rect, s: Rect) { r.x < s.x + s.cols && s.x < r.x + r.cols }

  predicate VOverlap(r: Rect, s: Rect) { r.y < s.y + s.rows && s.y < r.y + r.rows }

  /** `r` starts on the requested side of `cur` and overlaps it across the travel axis. */
  predicate OnSide(cur: Rect, r: Rect, dir: Direction)
  {
    match dir
    case Left => r.x < cur.x && VOverlap(r, cur)
    case Right => r.x > cur.x && VOverlap(r, cur)
    case Up => r.y < cur.y && HOverlap(r, cur)
    case Down => r.y > cur.y && HOverlap(r, cur)
  }

  /** Signed gap between the facing edges. */
  function Gap(cur: Rect, r: Rect, dir: Direction): int
  {
    match dir
    case Left => cur.x - (r.x + r.cols)
    case Right => r.x - (cur.x + cur.cols)
    case Up => cur.y - (r.y + r.rows)
    case Down => r.y - (cur.y + cur.rows)
  }

  /** Distance between the centres across the travel axis. */
  function CentreOffset(cur: Rect, r: Rect, dir: Direction): nat
  {
    if dir.Left? || dir.Right? then Abs((cur.y + cur.rows / 2) - (r.y + r.rows / 2))
    else Abs((cur.x + cur.cols / 2) - (r.x + r.cols / 2))
  }

  ghost predicate Candidate(layout: map<PaneId, Rect>, from: PaneId, dir: Direction, id: PaneId)
  {
    from in layout && id in layout && id != from && OnSide(layout[from], layout[id], dir)
  }

  /** Edge distance along the travel axis, then centre distance across it. */
  function Rank(cur: Rect, r: Rect, dir: Direction): (nat, nat)
  {
    (Max(Gap(cur, r, dir), 0), CentreOffset(cur, r, dir))
  }

  /** Strictly before in lexicographic order. */
  predicate Closer(a: (nat, nat), b: (nat, nat))
  {
    a.0 < b.0 || (a.0 == b.0 && a.1 < b.1)
  }

  /** Nearest edge first, then best aligned centre, then smallest id. */
  ghost predicate NoWorse(layout: map<PaneId, Rect>, from: PaneId, dir: Direction, i: PaneId, j: PaneId)
    requires Candidate(layout, from, dir, i) && Candidate(layout, from, dir, j)
  {
    var (a, b) := (Rank(layout[from], layout[i], dir), Rank(layout[from], layout[j], dir));
    Closer(a, b) || (a == b && i <= j)
  }

  /** `id` is a candidate in `pool`, and no candidate there is better. */
  ghost predicate BestAmong(layout: map<PaneId, Rect>, from: PaneId, dir: Direction, id: PaneId, pool: set<PaneId>)
  {
    && id in pool
    && Candidate(layout, from, dir, id)
    && forall j :: j in pool && Candidate(layout, from, dir, j) ==> NoWorse(layout, from, dir, id, j)
  }

  ghost predicate Best(layout: map<PaneId, Rect>, from: PaneId, dir: Direction, id: PaneId)
  {
    BestAmong(layout, from, dir, id, layout.Keys)
  }

  ghost predicate NoCandidate(layout: map<PaneId, Rect>, from: PaneId, dir: Direction, pool: set<PaneId>)
  {
    forall j :: j in pool ==> !Candidate(layout, from, dir, j)
  }

  /** Looking at one more pane, later in id order than all the others. */
  lemma OneMore(layout: map<PaneId, Rect>, from: PaneId, dir: Direction, pool: set<PaneId>, id: PaneId)
    requires forall i :: i in pool ==> i < id
    ensures !Candidate(layout, from, dir, id) && NoCandidate(layout, from, dir, pool) ==>
              NoCandidate(layout, from, dir, pool + {id})
    ensures Candidate(layout, from, dir, id) && NoCandidate(layout, from, dir, pool) ==>
              BestAmong(layout, from, dir, id, pool + {id})
    ensures forall b {:trigger BestAmong(layout, from, dir, b, pool)} :: BestAmong(layout, from, dir, b, pool) ==>
              if Candidate(layout, from, dir, id)
                && Closer(Rank(layout[from], layout[id], dir), Rank(layout[from], layout[b], dir))
              then BestAmong(layout, from, dir, id, pool + {id})
              else BestAmong(layout, from, dir, b, pool + {id})
  {
    forall b | BestAmong(layout, from, dir, b, pool)
      ensures if Candidate(layout, from, dir, id)
        && Closer(Rank(layout[from], layout[id], dir), Rank(layout[from], layout[b], dir))
              then BestAmong(layout, from, dir, id, pool + {id})
              else BestAmong(layout, from, dir, b, pool + {id})
    {
      if Candidate(layout, from, dir, id)
        && Closer(Rank(layout[from], layout[id], dir), Rank(layout[from], layout[b], dir)) {
        forall j | j in pool + {id} && Candidate(layout, from, dir, j) ensures NoWorse(layout, from, dir, id, j) {
          if j != id { assert NoWorse(layout, from, dir, b, j); }
        }
      }
    }
  }

  /** The best candidate, or None exactly when there is no candidate at all. */
  method Neighbor(layout: map<PaneId, Rect>, from: PaneId, dir: Direction) returns (r: Option<PaneId>)
    ensures r.Some? ==> Best(layout, from, dir, r.value)
    ensures r.None? ==> NoCandidate(layout, from, dir, layout.Keys)
  {
    if from !in layout {
      return None;
    }
    var cur := layout[from];
    var best: Option<(PaneId, nat, nat)> := None;
    var rest := layout.Keys;
    while rest != {}
      invariant rest <= layout.Keys
      invariant forall i, j :: i in layout.Keys - rest && j in rest ==> i < j
      invariant best.Some? ==>
        && BestAmong(layout, from, dir, best.value.0, layout.Keys - rest)
        && (best.value.1, best.value.2) == Rank(cur, layout[best.value.0], dir)
      invariant best.None? ==> NoCandidate(layout, from, dir, layout.Keys - rest)
      decreases |rest|
    {
      var id := Least(rest);
      OneMore(layout, from, dir, layout.Keys - rest, id);
      assert layout.Keys - (rest - {id}) == layout.Keys - rest + {id};
      rest := rest - {id};
      if id != from && OnSide(cur, layout[id], dir) {
        var (primary, perp) := Rank(cur, layout[id], dir);
        if best.None? || Closer((primary, perp), (best.value.1, best.value.2)) {
          best := Some((id, primary, perp));
        }
      }
    }
    assert layout.Keys - rest == layout.Keys;
    return if best.Some? then Some(best.value.0) else None;
  }

  /** The answer is determined: no two panes are both best. */
  lemma BestIsUnique(layout: map<PaneId, Rect>, from: PaneId, dir: Direction, i: PaneId, j: PaneId)
    requires Best(layout, from, dir, i) && Best(layout, from, dir, j)
    ensures i == j
  {
    assert NoWorse(layout, from, dir, i, j) && NoWorse(layout, from, dir, j, i);
  }

  lemma NoWorseTransitive(layout: map<PaneId, Rect>, from: PaneId, dir: Direction, i: PaneId, j: PaneId, k: PaneId)
    requires Candidate(layout, from, dir, i) && Candidate(layout, from, dir, j) && Candidate(layout, from, dir, k)
    requires NoWorse(layout, from, dir, i, j) && NoWorse(layout, from, dir, j, k)
    ensures NoWorse(layout, from, dir, i, k)
  {
  }

  lemma NoWorseTotal(layout: map<PaneId, Rect>, from: PaneId, dir: Direction, i: PaneId, j: PaneId)
    requires Candidate(layout, from, dir, i) && Candidate(layout, from, dir, j)
    ensures NoWorse(layout, from, dir, i, j) || NoWorse(layout, from, dir, j, i)
  {
  }

  /** Among the candidates in a set, one is best. */
  lemma {:induction false} BestExists(
    layout: map<PaneId, Rect>, from: PaneId, dir: Direction, some: PaneId, pool: set<PaneId>)
    returns (best: PaneId)
    requires Candidate(layout, from, dir, some) && some in pool
    ensures BestAmong(layout, from, dir, best, pool)
    decreases |pool|
  {
    if other :| other in pool && other != some && Candidate(layout, from, dir, other) {
      var loser, winner := some, other;
      if NoWorse(layout, from, dir, some, other) {
        loser, winner := other, some;
      }
      NoWorseTotal(layout, from, dir, winner, loser);
      best := BestExists(layout, from, dir, winner, pool - {loser});
      NoWorseTransitive(layout, from, dir, best, winner, loser);
      forall j | j in pool && Candidate(layout, from, dir, j) ensures NoWorse(layout, from, dir, best, j) {
        assert j == loser || j in pool - {loser};
      }
    } else {
      best := some;
    }
  }

  /** A pane found in one direction has a neighbour back: `from` itself is a candidate for it. */
  lemma SomeNeighbourBack(layout: map<PaneId, Rect>, from: PaneId, dir: Direction, id: PaneId)
    requires Best(layout, from, dir, id)
    ensures Candidate(layout, id, Opposite(dir), from)
    ensures exists back :: Best(layout, id, Opposite(dir), back)
  {
    var back := BestExists(layout, id, Opposite(dir), from, layout.Keys);
    assert Best(layout, id, Opposite(dir), back);
  }

  /**
   On a computed layout the facing edges of a pane and a candidate, both of positive size, never
   cross, so clamping the edge distance at zero changes nothing.
   */
  lemma EdgeDistanceNeedsNoClamp(node: PaneNode, area: Rect, from: PaneId, dir: Direction, id: PaneId)
    requires Distinct(node) && Candidate(Compute(node, area), from, dir, id)
    requires Compute(node, area)[from].Area() > 0 && Compute(node, area)[id].Area() > 0
    ensures Gap(Compute(node, area)[from], Compute(node, area)[id], dir) >= 0
  {
    var layout := Compute(node, area);
    var cur, r := layout[from], layout[id];
    PlaceMerges(node, area, map[]);
    assert cur.cols > 0 && cur.rows > 0 && r.cols > 0 && r.rows > 0;
    var y, x := Max(cur.y, r.y), Max(cur.x, r.x);
    if Gap(cur, r, dir) < 0 {
      if dir.Left? || dir.Right? {
        assert cur.Contains(x, y) && r.Contains(x, y);
      } else {
        assert cur.Contains(x, y) && r.Contains(x, y);
      }
      PanesAreDisjoint(node, area, from, id, x, y);
    }
  }

  // ---------------------------------------------------------------- in coordinates

  /** On positive sizes, a candidate starts on the requested side and shares a row, or a column, with the pane. */
  lemma CandidatesShareALine(layout: map<PaneId, Rect>, from: PaneId, dir: Direction, id: PaneId)
    requires from in layout && id in layout && layout[from].Area() > 0 && layout[id].Area() > 0
    ensures var (cur, r) := (layout[from], layout[id]);
            var row := exists y :: cur.Contains(cur.x, y) && r.Contains(r.x, y);
            var col := exists x :: cur.Contains(x, cur.y) && r.Contains(x, r.y);
      Candidate(layout, from, dir, id) <==>
        id != from &&
        match dir
        case Left => r.x < cur.x && row
        case Right => cur.x < r.x && row
        case Up => r.y < cur.y && col
        case Down => cur.y < r.y && col
  {
    var (cur, r) := (layout[from], layout[id]);
    assert cur.cols > 0 && cur.rows > 0 && r.cols > 0 && r.rows > 0;
    var y, x := Max(cur.y, r.y), Max(cur.x, r.x);
    if VOverlap(r, cur) { assert cur.Contains(cur.x, y) && r.Contains(r.x, y); }
    if HOverlap(r, cur) { assert cur.Contains(x, cur.y) && r.Contains(x, r.y); }
  }

  /** `a` and `b` tie, or `a` is less. */
  predicate InOrder(a: int, b: int, tie: bool) { a < b || (a == b && tie) }

  /**
   The pane found, against any other candidate: its facing edge is nearer, edges beyond the pane's own
   counting as touching; on a tie its centre is nearer across the travel axis, by rows when moving
   left or right and by columns when moving up or down; on a tie of both its id is smaller.
   */
  lemma BestIsNearest(layout: map<PaneId, Rect>, from: PaneId, dir: Direction, id: PaneId, j: PaneId)
    requires Best(layout, from, dir, id) && Candidate(layout, from, dir, j)
    ensures var (c, r, o) := (layout[from], layout[id], layout[j]);
      var (right, bottom) := (c.x + c.cols, c.y + c.rows);
      var byRows := InOrder(AbsDiff(c.y + c.rows / 2, r.y + r.rows / 2), AbsDiff(c.y + c.rows / 2, o.y + o.rows / 2),
        id <= j);
      var byCols := InOrder(AbsDiff(c.x + c.cols / 2, r.x + r.cols / 2), AbsDiff(c.x + c.cols / 2, o.x + o.cols / 2),
        id <= j);
      match dir
      case Left => InOrder(SatSub(c.x, r.x + r.cols), SatSub(c.x, o.x + o.cols), byRows)
      case Right => InOrder(SatSub(r.x, right), SatSub(o.x, right), byRows)
      case Up => InOrder(SatSub(c.y, r.y + r.rows), SatSub(c.y, o.y + o.rows), byCols)
      case Down => InOrder(SatSub(r.y, bottom), SatSub(o.y, bottom), byCols)
  {
    assert NoWorse(layout, from, dir, id, j);
  }

  /** Ties are broken across the travel axis only: along it a candidate may move freely. */
  lemma TieBreakIgnoresTravel(cur: Rect, r: Rect, dir: Direction, to: nat, size: nat)
    ensures var moved := if dir.Left? || dir.Right? then r.(x := to, cols := size) else r.(y := to, rows := size);
            CentreOffset(cur, moved, dir) == CentreOffset(cur, r, dir)
    ensures CentreOffset(cur, r, dir) == 0 <==>
            if dir.Left? || dir.Right? then cur.y + cur.rows / 2 == r.y + r.rows / 2
            else cur.x + cur.cols / 2 == r.x + r.cols / 2
  {
  }
}
