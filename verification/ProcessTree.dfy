/**
 The process subtree below a pane's shell, walked breadth first over a table that may be
 malformed: parents may form cycles and a pid may be listed more than once.
 */
module ProcessTree {
  import opened Common

  type Pid = nat

  datatype Process = Process(pid: Pid, ppid: Pid, comm: string)

  predicate Lists(table: seq<Process>, parent: Pid, child: Pid)
  {
    exists k :: 0 <= k < |table| && table[k].ppid == parent && table[k].pid == child
  }

  /** `p` is `n` parent links below `root`. */
  ghost predicate Reaches(table: seq<Process>, root: Pid, p: Pid, n: nat)
    decreases n
  {
    if n == 0 then p == root
    else exists q :: Reaches(table, root, q, n - 1) && Lists(table, q, p)
  }

  /** The length of the shortest chain of parent links from `root` down to `p`. */
  ghost predicate DepthIs(table: seq<Process>, root: Pid, p: Pid, n: nat)
  {
    Reaches(table, root, p, n) && forall m: nat :: m < n ==> !Reaches(table, root, p, m)
  }

  /** The children of `parent`, in table order. */
  function Children(table: seq<Process>, parent: Pid): (c: seq<(Pid, string)>)
    ensures forall q :: Lists(table, parent, q) <==> exists j :: 0 <= j < |c| && c[j].0 == q
    ensures forall j :: 0 <= j < |c| ==> Process(c[j].0, parent, c[j].1) in table
  {
    if table == [] then [] else
    var n := |table| - 1;
    var init := Children(table[..n], parent);
    assert forall q ::
      Lists(table, parent, q) <==> Lists(table[..n], parent, q) || (table[n].ppid == parent && table[n].pid == q);
    if table[n].ppid == parent then
      var all := init + [(table[n].pid, table[n].comm)];
      assert forall j :: 0 <= j < |init| ==> all[j] == init[j];
      assert all[|init|].0 == table[n].pid;
      all
    else init
  }

  function ChildrenIn(byParent: map<Pid, seq<(Pid, string)>>, p: Pid): seq<(Pid, string)>
  {
    if p in byParent then byParent[p] else []
  }

  /** Group the table by parent. */
  method ByParent(table: seq<Process>) returns (byParent: map<Pid, seq<(Pid, string)>>)
    ensures forall p :: ChildrenIn(byParent, p) == Children(table, p)
  {
    byParent := map[];
    for i := 0 to |table|
      invariant forall p :: ChildrenIn(byParent, p) == Children(table[..i], p)
    {
      var e := table[i];
      assert table[..i + 1][..i] == table[..i];
      byParent := byParent[e.ppid := ChildrenIn(byParent, e.ppid) + [(e.pid, e.comm)]];
    }
    assert table[..|table|] == table;
  }

  predicate NoDuplicates(s: seq<Pid>)
  {
    forall i, j :: 0 <= i < j < |s| ==> s[i] != s[j]
  }

  predicate Ascending(s: seq<nat>)
  {
    forall i, j :: 0 <= i < j < |s| ==> s[i] <= s[j]
  }

  /** The name at a position belongs to a table entry that hangs one level higher. */
  ghost predicate Named(table: seq<Process>, root: Pid, pid: Pid, name: string, depth: nat)
  {
    depth > 0 && exists parent :: Process(pid, parent, name) in table && Reaches(table, root, parent, depth - 1)
  }

  /**
   What the walk promises: the pids are exactly the proper descendants of the root, each once, in
   order of depth, and every name is the one a table entry gives its pid at that depth.
   */
  ghost predicate BreadthFirst(table: seq<Process>, root: Pid, pids: seq<Pid>, depths: seq<nat>, names: seq<string>)
  {
    && |pids| == |depths| == |names|
    && NoDuplicates(pids)
    && Ascending(depths)
    && (forall p :: p in pids <==> p != root && exists n :: Reaches(table, root, p, n))
    && (forall i :: 0 <= i < |pids| ==> DepthIs(table, root, pids[i], depths[i]))
    && (forall i :: 0 <= i < |pids| ==> Named(table, root, pids[i], names[i], depths[i]))
  }

  /** The names of all proper descendants, one per pid, shallowest first. */
  ghost predicate NamesDescendants(table: seq<Process>, root: Pid, names: seq<string>)
  {
    exists pids, depths :: BreadthFirst(table, root, pids, depths, names)
  }

  // ---------------------------------------------------------------- the walk's invariant

  /** `c` has been found, at most `bound` links below the root. */
  ghost predicate Found(found: seq<Pid>, dist: seq<nat>, c: Pid, bound: nat)
    requires |found| == |dist|
  {
    exists j :: 0 <= j < |found| && found[j] == c && dist[j] <= bound
  }

  /** Every child of the first `n` pids found has been found, one level deeper at most. */
  ghost predicate Expanded(table: seq<Process>, found: seq<Pid>, dist: seq<nat>, n: nat)
    requires |found| == |dist| && n <= |found|
  {
    forall i, c :: 0 <= i < n && Lists(table, found[i], c) ==> Found(found, dist, c, dist[i] + 1)
  }

  ghost predicate Sound(table: seq<Process>, root: Pid, found: seq<Pid>, dist: seq<nat>, names: seq<string>)
  {
    && |found| == |dist| == |names| + 1
    && found[0] == root && dist[0] == 0
    && NoDuplicates(found)
    && Ascending(dist)
    && (forall i :: 0 <= i < |found| ==> Reaches(table, root, found[i], dist[i]))
    && (forall i :: 0 <= i < |names| ==> Named(table, root, found[i + 1], names[i], dist[i + 1]))
  }

  lemma FoundGrows(found: seq<Pid>, dist: seq<nat>, p: Pid, d: nat)
    requires |found| == |dist|
    ensures forall c, b :: Found(found, dist, c, b) ==> Found(found + [p], dist + [d], c, b)
    ensures Found(found + [p], dist + [d], p, d)
  {
    forall c, b | Found(found, dist, c, b) ensures Found(found + [p], dist + [d], c, b) {
      var j :| 0 <= j < |found| && found[j] == c && dist[j] <= b;
      assert (found + [p])[j] == c;
    }
    assert (found + [p])[|found|] == p;
  }

  /** Finding a new child of a pid at distance `d`, when nothing is deeper than `d + 1`. */
  lemma SoundGrows(
    table: seq<Process>, root: Pid, found: seq<Pid>, dist: seq<nat>, names: seq<string>, at: nat, child: Pid,
    name: string)
    requires Sound(table, root, found, dist, names) && at < |found|
    requires forall i :: 0 <= i < |dist| ==> dist[i] <= dist[at] + 1
    requires child !in found && Process(child, found[at], name) in table
    ensures Sound(table, root, found + [child], dist + [dist[at] + 1], names + [name])
  {
    assert Reaches(table, root, found[at], dist[at]) && Lists(table, found[at], child);
    assert Reaches(table, root, child, dist[at] + 1);
    var (found', dist', names') := (found + [child], dist + [dist[at] + 1], names + [name]);
    forall i | 0 <= i < |names'| ensures Named(table, root, found'[i + 1], names'[i], dist'[i + 1]) {
      if i < |names| {
        assert found'[i + 1] == found[i + 1] && dist'[i + 1] == dist[i + 1] && names'[i] == names[i];
      }
    }
  }

  /** Once everything found is expanded, every reachable pid is found, no deeper than any chain. */
  lemma {:induction false} ExpandedMeansAll(
    table: seq<Process>, root: Pid, found: seq<Pid>, dist: seq<nat>, p: Pid, n: nat)
    requires |found| == |dist| && |found| > 0 && found[0] == root && dist[0] == 0
    requires Expanded(table, found, dist, |found|)
    requires Reaches(table, root, p, n)
    ensures Found(found, dist, p, n)
    decreases n
  {
    if n > 0 {
      var q :| Reaches(table, root, q, n - 1) && Lists(table, q, p);
      ExpandedMeansAll(table, root, found, dist, q, n - 1);
      var i :| 0 <= i < |found| && found[i] == q && dist[i] <= n - 1;
      var j :| 0 <= j < |found| && found[j] == p && dist[j] <= dist[i] + 1;
    }
  }

  lemma FoundMeansReached(
    table: seq<Process>, root: Pid, found: seq<Pid>, dist: seq<nat>, names: seq<string>, p: Pid)
    requires Sound(table, root, found, dist, names) && Expanded(table, found, dist, |found|)
    ensures p in found[1..] <==> p != root && exists n :: Reaches(table, root, p, n)
  {
    hide Reaches, Expanded;
    if p in found[1..] {
      var i :| 0 <= i < |found[1..]| && found[1..][i] == p;
      assert found[i + 1] == p && Reaches(table, root, p, dist[i + 1]);
    }
    if n :| p != root && Reaches(table, root, p, n) {
      ExpandedMeansAll(table, root, found, dist, p, n);
      var j :| 0 <= j < |found| && found[j] == p && dist[j] <= n;
      assert found[1..][j - 1] == p;
    }
  }

  lemma FinishedWalk(table: seq<Process>, root: Pid, found: seq<Pid>, dist: seq<nat>, names: seq<string>)
    requires Sound(table, root, found, dist, names) && Expanded(table, found, dist, |found|)
    ensures BreadthFirst(table, root, found[1..], dist[1..], names)
  {
    hide Reaches, Expanded;
    var pids, depths := found[1..], dist[1..];
    forall p ensures p in pids <==> p != root && exists n :: Reaches(table, root, p, n) {
      FoundMeansReached(table, root, found, dist, names, p);
    }
    forall i | 0 <= i < |pids| ensures DepthIs(table, root, pids[i], depths[i]) {
      assert Reaches(table, root, found[i + 1], dist[i + 1]);
      forall m: nat | m < depths[i] ensures !Reaches(table, root, pids[i], m) {
        if Reaches(table, root, pids[i], m) {
          ExpandedMeansAll(table, root, found, dist, pids[i], m);
          assert false;
        }
      }
    }
    assert forall i :: 0 <= i < |pids| ==> pids[i] == found[i + 1] && depths[i] == dist[i + 1];
  }

  /** The state of the walk while the children of `found[at]` are looked at. */
  ghost predicate Visiting(table: seq<Process>, root: Pid, found: seq<Pid>, dist: seq<nat>, names: seq<string>, at: nat)
  {
    && Sound(table, root, found, dist, names)
    && at < |found|
    && (forall i :: 0 <= i < |dist| ==> dist[i] <= dist[at] + 1)
    && Expanded(table, found, dist, at)
  }

  /** The children looked at so far have been found. */
  ghost predicate FoundAll(found: seq<Pid>, dist: seq<nat>, children: seq<(Pid, string)>, n: nat, bound: nat)
    requires |found| == |dist| && n <= |children|
  {
    forall k :: 0 <= k < n ==> Found(found, dist, children[k].0, bound)
  }

  lemma VisitNewChild(
    table: seq<Process>, root: Pid, found: seq<Pid>, dist: seq<nat>, names: seq<string>, at: nat,
    children: seq<(Pid, string)>, j: nat)
    requires Visiting(table, root, found, dist, names, at)
    requires j < |children| && FoundAll(found, dist, children, j, dist[at] + 1)
    requires children[j].0 !in found && Process(children[j].0, found[at], children[j].1) in table
    ensures var (found', dist', names') := (found + [children[j].0], dist + [dist[at] + 1], names + [children[j].1]);
            Visiting(table, root, found', dist', names', at) && FoundAll(found', dist', children, j + 1, dist[at] + 1)
  {
    var child := children[j].0;
    SoundGrows(table, root, found, dist, names, at, child, children[j].1);
    FoundGrows(found, dist, child, dist[at] + 1);
    var (found', dist') := (found + [child], dist + [dist[at] + 1]);
    forall i, c | 0 <= i < at && Lists(table, found'[i], c) ensures Found(found', dist', c, dist'[i] + 1) {
      assert Lists(table, found[i], c) && Found(found, dist, c, dist[i] + 1);
    }
  }

  lemma VisitKnownChild(
    table: seq<Process>, root: Pid, found: seq<Pid>, dist: seq<nat>, names: seq<string>, at: nat,
    children: seq<(Pid, string)>, j: nat)
    requires Visiting(table, root, found, dist, names, at)
    requires j < |children| && FoundAll(found, dist, children, j, dist[at] + 1)
    requires children[j].0 in found
    ensures FoundAll(found, dist, children, j + 1, dist[at] + 1)
  {
    var k :| 0 <= k < |found| && found[k] == children[j].0;
    assert dist[k] <= dist[at] + 1;
  }

  lemma Visited(table: seq<Process>, root: Pid, found: seq<Pid>, dist: seq<nat>, names: seq<string>, at: nat)
    requires Visiting(table, root, found, dist, names, at)
    requires FoundAll(found, dist, Children(table, found[at]), |Children(table, found[at])|, dist[at] + 1)
    ensures Expanded(table, found, dist, at + 1)
    ensures at + 1 < |found| ==> Visiting(table, root, found, dist, names, at + 1)
  {
    forall i, c | 0 <= i < at + 1 && Lists(table, found[i], c) ensures Found(found, dist, c, dist[i] + 1) {
      if i == at {
        var children := Children(table, found[at]);
        var k :| 0 <= k < |children| && children[k].0 == c;
      }
    }
  }

  ghost predicate SameMembers(seen: set<Pid>, found: seq<Pid>) { forall p :: p in seen <==> p in found }

  /** The inner loop: name and queue every child of the pid in turn that has not been seen. */
  method VisitChildren(
    table: seq<Process>, ghost root: Pid, children: seq<(Pid, string)>, seen: set<Pid>, queue: seq<Pid>,
    names: seq<string>, ghost found: seq<Pid>, ghost dist: seq<nat>, ghost at: nat)
    returns (seen': set<Pid>, queue': seq<Pid>, names': seq<string>, ghost found': seq<Pid>, ghost dist': seq<nat>)
    requires Visiting(table, root, found, dist, names, at) && children == Children(table, found[at])
    requires SameMembers(seen, found) && queue == found[at + 1..]
    ensures Visiting(table, root, found', dist', names', at) && found'[at] == found[at]
    ensures FoundAll(found', dist', children, |children|, dist'[at] + 1)
    ensures SameMembers(seen', found') && queue' == found'[at + 1..]
    ensures seen <= seen' <= seen + Pids(table)
    ensures seen' == seen ==> queue' == queue
  {
    seen', queue', names', found', dist' := seen, queue, names, found, dist;
    for j := 0 to |children|
      invariant Visiting(table, root, found', dist', names', at) && found'[at] == found[at]
      invariant queue' == found'[at + 1..] && SameMembers(seen', found')
      invariant FoundAll(found', dist', children, j, dist'[at] + 1)
      invariant seen <= seen' <= seen + Pids(table)
      invariant seen' == seen ==> queue' == queue
    {
      var (child, comm) := children[j];
      if child !in seen' {
        VisitNewChild(table, root, found', dist', names', at, children, j);
        ChildIsListed(table, found'[at], j);
        assert (found' + [child])[at + 1..] == queue' + [child];
        seen' := seen' + {child};
        names' := names' + [comm];
        queue' := queue' + [child];
        found', dist' := found' + [child], dist' + [dist'[at] + 1];
      } else {
        VisitKnownChild(table, root, found', dist', names', at, children, j);
      }
    }
  }

  function Pids(table: seq<Process>): set<Pid> { set e | e in table :: e.pid }

  lemma ChildIsListed(table: seq<Process>, parent: Pid, j: nat)
    requires j < |Children(table, parent)|
    ensures Children(table, parent)[j].0 in Pids(table)
  {
    var c := Children(table, parent)[j];
    assert Process(c.0, parent, c.1) in table;
  }

  lemma StartWalk(table: seq<Process>, root: Pid)
    ensures Visiting(table, root, [root], [0], [], 0) && SameMembers({root}, [root])
    ensures Sound(table, root, [root], [0], []) && Expanded(table, [root], [0], 0)
  {
  }

  /** Every process name in the subtree below `root`, breadth first; terminates on every table. */
  method DescendantsOf(root: Pid, table: seq<Process>) returns (names: seq<string>)
    ensures NamesDescendants(table, root, names)
  {
    hide Expanded, SameMembers, BreadthFirst, NoDuplicates, Ascending, Reaches, Named;
    var byParent := ByParent(table);
    names := [];
    var seen := {root};
    var queue := [root];
    ghost var found, dist, at := [root], [0 as nat], 0 as nat;
    StartWalk(table, root);
    while queue != []
      invariant Sound(table, root, found, dist, names)
      invariant at <= |found| == |dist| && queue == found[at..]
      invariant at < |found| ==> Visiting(table, root, found, dist, names, at)
      invariant Expanded(table, found, dist, at)
      invariant SameMembers(seen, found) && seen <= {root} + Pids(table)
      decreases {root} + Pids(table) - seen, |queue|
    {
      var pid := queue[0];
      queue := queue[1..];
      seen, queue, names, found, dist :=
        VisitChildren(table, root, ChildrenIn(byParent, pid), seen, queue, names, found, dist, at);
      Visited(table, root, found, dist, names, at);
      at := at + 1;
    }
    FinishedWalk(table, root, found, dist, names);
  }
}
