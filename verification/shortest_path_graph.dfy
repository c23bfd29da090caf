/**
 * The property-distance graph: for every program location, the length of the
 * shortest control-flow path from it to the single assertion location. The
 * distances come from a layered breadth-first search over in-edges starting at
 * the assertion, and are written back into the location table.
 */
module ShortestPath {
  import opened Results
  import opened Program

  /**
   * One node of the graph: its instruction, its location in the table, the
   * nodes with an edge into it, and the search's bookkeeping.
   */
  datatype Node = Node(instruction: Instruction, loc: Loc, ins: seq<nat>, visited: bool, isProperty: bool, dist: nat)

  /** Every in-edge names a node of the graph. */
  predicate WellFormed(g: seq<Node>)
  {
    forall v, j :: 0 <= v < |g| && 0 <= j < |g[v].ins| ==> g[v].ins[j] < |g|
  }

  /** No element occurs twice. */
  ghost predicate NoDup(s: seq<nat>)
  {
    forall a, b :: 0 <= a < b < |s| ==> s[a] != s[b]
  }

  /* ---------------- what the search computes ---------------- */

  /**
   * From `v` there is a path of exactly `k` edges to `p` along which every
   * node before `p` was unvisited when the search began (a node the caller
   * had already marked visited is never entered by the search).
   */
  ghost predicate ReachesIn(g: seq<Node>, p: nat, v: nat, k: nat)
    decreases k
  {
    if k == 0 then v == p
    else v < |g| && (v == p || !g[v].visited) &&
         exists m :: 0 <= m < |g| && v in g[m].ins && ReachesIn(g, p, m, k - 1)
  }

  /** `k` is the least number of edges on such a path from `v` to `p`. */
  ghost predicate IsDistance(g: seq<Node>, p: nat, v: nat, k: nat)
  {
    ReachesIn(g, p, v, k) && forall j :: 0 <= j < k ==> !ReachesIn(g, p, v, j)
  }

  /** Some such path from `v` to `p` exists. */
  ghost predicate Reachable(g: seq<Node>, p: nat, v: nat)
  {
    exists k :: ReachesIn(g, p, v, k)
  }

  /* ---------------- the search's bookkeeping ----------------
     During the search the visited flags and distances live in `vis` and
     `dist`; `g0` is the graph the search started on. */

  /** Node `v` has been reached by this search. */
  ghost predicate Vis(g0: seq<Node>, p: nat, vis: seq<bool>, v: nat)
  {
    v < |g0| && v < |vis| && vis[v] && (v == p || !g0[v].visited)
  }

  /** The layer a reached node was found in; the property is layer 0. */
  ghost function Layer(p: nat, dist: seq<nat>, v: nat): nat
    requires v < |dist|
  {
    if v == p then 0 else dist[v]
  }

  /** A node the caller had marked visited: the search never enters it. */
  ghost predicate Blocked(g0: seq<Node>, p: nat, v: nat)
  {
    v != p && v < |g0| && g0[v].visited
  }

  /** The first `upto` in-neighbours of `u` are reached, at most one layer further out. */
  ghost predicate Expanded(g0: seq<Node>, p: nat, vis: seq<bool>, dist: seq<nat>, u: nat, upto: nat)
  {
    u < |g0| && u < |dist| && |vis| == |dist| &&
    forall j :: 0 <= j < upto && j < |g0[u].ins| && !Blocked(g0, p, g0[u].ins[j]) ==>
      Vis(g0, p, vis, g0[u].ins[j]) && Layer(p, dist, g0[u].ins[j]) <= Layer(p, dist, u) + 1
  }

  /** Every reached node below layer `k` has had all its in-neighbours reached. */
  ghost predicate ClosedBelow(g0: seq<Node>, p: nat, vis: seq<bool>, dist: seq<nat>, k: nat)
  {
    forall u :: 0 <= u < |dist| && Vis(g0, p, vis, u) && Layer(p, dist, u) < k ==>
      Expanded(g0, p, vis, dist, u, |g0[u].ins|)
  }

  /** `f` lists exactly the reached nodes of layer `k`. */
  ghost predicate IsLayer(g0: seq<Node>, p: nat, vis: seq<bool>, dist: seq<nat>, f: seq<nat>, k: nat)
  {
    (forall i :: 0 <= i < |f| ==> f[i] < |dist| && Vis(g0, p, vis, f[i]) && Layer(p, dist, f[i]) == k) &&
    (forall v :: 0 <= v < |dist| && Vis(g0, p, vis, v) && Layer(p, dist, v) == k ==> v in f)
  }

  /**
   * What holds throughout the search: the property is visited and keeps its
   * distance, nodes the search has not reached keep their flag and distance,
   * every reached node lies at most `bound` layers out and has a path of its
   * layer's length, `seen` is the set of reached nodes and `pushed` lists each
   * reached node other than the property once.
   */
  ghost predicate Searching(g0: seq<Node>, p: nat, vis: seq<bool>, dist: seq<nat>, bound: nat,
                            seen: set<nat>, pushed: seq<nat>)
  {
    WellFormed(g0) && p < |g0| && |vis| == |g0| && |dist| == |g0| &&
    vis[p] && dist[p] == g0[p].dist &&
    (forall v :: 0 <= v < |g0| && v != p && (g0[v].visited || !vis[v]) ==>
       vis[v] == g0[v].visited && dist[v] == g0[v].dist) &&
    (forall v :: 0 <= v < |g0| && Vis(g0, p, vis, v) ==>
       Layer(p, dist, v) <= bound && ReachesIn(g0, p, v, Layer(p, dist, v))) &&
    (forall v :: v in seen <==> 0 <= v < |g0| && Vis(g0, p, vis, v)) &&
    NoDup(pushed) && (forall v :: v in pushed <==> v in seen && v != p)
  }

  /** Going from (`vis`, `dist`) to (`vis'`, `dist'`) keeps every reached node as it
      was, and every newly reached node is in layer `k`. */
  ghost predicate Grows(g0: seq<Node>, p: nat, vis: seq<bool>, dist: seq<nat>,
                        vis': seq<bool>, dist': seq<nat>, k: nat)
  {
    |vis| == |dist| && |vis'| == |vis| && |dist'| == |dist| &&
    (forall v :: 0 <= v < |vis| && Vis(g0, p, vis, v) ==> Vis(g0, p, vis', v) && dist'[v] == dist[v]) &&
    (forall v :: 0 <= v < |vis'| && Vis(g0, p, vis', v) && !Vis(g0, p, vis, v) ==> Layer(p, dist', v) == k)
  }

  /** A set of node indices below `n` has at most `n` elements. */
  lemma {:induction false} BoundedSetCard(s: set<nat>, n: nat)
    requires forall x :: x in s ==> x < n
    ensures |s| <= n
    decreases n
  {
    if n > 0 {
      BoundedSetCard(s - {n - 1}, n - 1);
    } else {
      assert s == {};
    }
  }

  /** Finding an unvisited in-neighbour `v` of the layer-`d - 1` node `u`. */
  lemma Discover(g0: seq<Node>, p: nat, d: nat, u: nat, v: nat, j: nat,
                 vis: seq<bool>, dist: seq<nat>, next: seq<nat>, seen: set<nat>, pushed: seq<nat>,
                 vis0: seq<bool>, dist0: seq<nat>)
    requires d >= 1
    requires Searching(g0, p, vis, dist, d, seen, pushed)
    requires u < |g0| && j < |g0[u].ins| && v == g0[u].ins[j]
    requires Vis(g0, p, vis, u) && Layer(p, dist, u) == d - 1
    requires IsLayer(g0, p, vis, dist, next, d)
    requires Grows(g0, p, vis0, dist0, vis, dist, d)
    requires Expanded(g0, p, vis, dist, u, j)
    requires !vis[v]
    ensures Searching(g0, p, vis[v := true], dist[v := d], d, seen + {v}, pushed + [v])
    ensures IsLayer(g0, p, vis[v := true], dist[v := d], next + [v], d)
    ensures Grows(g0, p, vis0, dist0, vis[v := true], dist[v := d], d)
    ensures Expanded(g0, p, vis[v := true], dist[v := d], u, j + 1)
  {
    assert v != p && !g0[v].visited;
    assert ReachesIn(g0, p, v, d) by {
      assert ReachesIn(g0, p, u, d - 1);
      assert v in g0[u].ins;
    }
  }

  /**
   * The inner loop of one layer: every unvisited in-neighbour of the frontier
   * node `u` (of layer `d - 1`) is marked visited, given distance `d` and
   * pushed onto the next frontier.
   */
  method ExpandNode(g0: seq<Node>, p: nat, d: nat, u: nat,
                    vis: seq<bool>, dist: seq<nat>, next: seq<nat>,
                    ghost seen: set<nat>, ghost pushed: seq<nat>)
    returns (vis': seq<bool>, dist': seq<nat>, next': seq<nat>, ghost seen': set<nat>, ghost pushed': seq<nat>)
    requires d >= 1
    requires Searching(g0, p, vis, dist, d, seen, pushed)
    requires Vis(g0, p, vis, u) && Layer(p, dist, u) == d - 1
    requires IsLayer(g0, p, vis, dist, next, d)
    ensures Searching(g0, p, vis', dist', d, seen', pushed')
    ensures IsLayer(g0, p, vis', dist', next', d)
    ensures Grows(g0, p, vis, dist, vis', dist', d)
    ensures Expanded(g0, p, vis', dist', u, |g0[u].ins|)
    ensures seen <= seen' && |seen'| + |next| == |seen| + |next'|
  {
    vis', dist', next', seen', pushed' := vis, dist, next, seen, pushed;
    var ins := g0[u].ins;
    var j := 0;
    while j < |ins|
      invariant 0 <= j <= |ins| && ins == g0[u].ins
      invariant Searching(g0, p, vis', dist', d, seen', pushed')
      invariant IsLayer(g0, p, vis', dist', next', d)
      invariant Grows(g0, p, vis, dist, vis', dist', d)
      invariant Expanded(g0, p, vis', dist', u, j)
      invariant seen <= seen' && |seen'| + |next| == |seen| + |next'|
    {
      var v := ins[j];
      if !vis'[v] {
        Discover(g0, p, d, u, v, j, vis', dist', next', seen', pushed', vis, dist);
        vis' := vis'[v := true];
        dist' := dist'[v := d];
        next' := next' + [v];
        seen' := seen' + {v};
        pushed' := pushed' + [v];
      }
      j := j + 1;
    }
  }

  /** What a node's expansion established survives further growth of the search. */
  lemma ExpandedPersists(g0: seq<Node>, p: nat, vis: seq<bool>, dist: seq<nat>,
                         vis': seq<bool>, dist': seq<nat>, k: nat, u: nat, upto: nat)
    requires Grows(g0, p, vis, dist, vis', dist', k)
    requires Vis(g0, p, vis, u) && Expanded(g0, p, vis, dist, u, upto)
    ensures Expanded(g0, p, vis', dist', u, upto)
  {
  }

  /** Two growth steps within one layer make one. */
  lemma GrowsTrans(g0: seq<Node>, p: nat, vis0: seq<bool>, dist0: seq<nat>, vis1: seq<bool>, dist1: seq<nat>,
                   vis2: seq<bool>, dist2: seq<nat>, k: nat)
    requires Grows(g0, p, vis0, dist0, vis1, dist1, k) && Grows(g0, p, vis1, dist1, vis2, dist2, k)
    ensures Grows(g0, p, vis0, dist0, vis2, dist2, k)
  {
  }

  /** After expanding frontier node `i`, the frontier loop's invariants hold for `i + 1`. */
  lemma FrontierStep(g0: seq<Node>, p: nat, d: nat, frontier: seq<nat>, i: nat,
                     vis0: seq<bool>, dist0: seq<nat>, vis1: seq<bool>, dist1: seq<nat>,
                     vis2: seq<bool>, dist2: seq<nat>)
    requires d >= 1 && i < |frontier|
    requires Grows(g0, p, vis0, dist0, vis1, dist1, d) && Grows(g0, p, vis1, dist1, vis2, dist2, d)
    requires IsLayer(g0, p, vis0, dist0, frontier, d - 1)
    requires ClosedBelow(g0, p, vis1, dist1, d - 1)
    requires forall a :: 0 <= a < i ==> Expanded(g0, p, vis1, dist1, frontier[a], |g0[frontier[a]].ins|)
    requires Expanded(g0, p, vis2, dist2, frontier[i], |g0[frontier[i]].ins|)
    ensures Grows(g0, p, vis0, dist0, vis2, dist2, d)
    ensures ClosedBelow(g0, p, vis2, dist2, d - 1)
    ensures forall a :: 0 <= a < i + 1 ==> Expanded(g0, p, vis2, dist2, frontier[a], |g0[frontier[a]].ins|)
  {
    GrowsTrans(g0, p, vis0, dist0, vis1, dist1, vis2, dist2, d);
    forall u | 0 <= u < |dist2| && Vis(g0, p, vis2, u) && Layer(p, dist2, u) < d - 1
      ensures Expanded(g0, p, vis2, dist2, u, |g0[u].ins|)
    {
      ExpandedPersists(g0, p, vis1, dist1, vis2, dist2, d, u, |g0[u].ins|);
    }
    forall a | 0 <= a < i
      ensures Expanded(g0, p, vis2, dist2, frontier[a], |g0[frontier[a]].ins|)
    {
      ExpandedPersists(g0, p, vis1, dist1, vis2, dist2, d, frontier[a], |g0[frontier[a]].ins|);
    }
  }

  /** Once the whole frontier is expanded, every reached node below layer `d` is. */
  lemma FrontierDone(g0: seq<Node>, p: nat, d: nat, frontier: seq<nat>,
                     vis0: seq<bool>, dist0: seq<nat>, vis: seq<bool>, dist: seq<nat>)
    requires d >= 1
    requires Grows(g0, p, vis0, dist0, vis, dist, d)
    requires IsLayer(g0, p, vis0, dist0, frontier, d - 1)
    requires ClosedBelow(g0, p, vis, dist, d - 1)
    requires forall a :: 0 <= a < |frontier| ==> Expanded(g0, p, vis, dist, frontier[a], |g0[frontier[a]].ins|)
    ensures ClosedBelow(g0, p, vis, dist, d)
  {
    forall u | 0 <= u < |dist| && Vis(g0, p, vis, u) && Layer(p, dist, u) < d
      ensures Expanded(g0, p, vis, dist, u, |g0[u].ins|)
    {
      if Layer(p, dist, u) == d - 1 {
        assert Vis(g0, p, vis0, u);
        var a :| 0 <= a < |frontier| && frontier[a] == u;
      }
    }
  }

  /** The middle loop of one layer: every frontier node (layer `d - 1`) is
      expanded, and the nodes found make up layer `d`. */
  method ExpandFrontier(g0: seq<Node>, p: nat, d: nat, frontier: seq<nat>,
                        vis: seq<bool>, dist: seq<nat>, ghost seen: set<nat>, ghost pushed: seq<nat>)
    returns (vis': seq<bool>, dist': seq<nat>, next: seq<nat>, ghost seen': set<nat>, ghost pushed': seq<nat>)
    requires d >= 1
    requires Searching(g0, p, vis, dist, d - 1, seen, pushed)
    requires IsLayer(g0, p, vis, dist, frontier, d - 1)
    requires ClosedBelow(g0, p, vis, dist, d - 1)
    ensures Searching(g0, p, vis', dist', d, seen', pushed')
    ensures IsLayer(g0, p, vis', dist', next, d)
    ensures ClosedBelow(g0, p, vis', dist', d)
    ensures seen <= seen' && |seen'| == |seen| + |next|
  {
    vis', dist', seen', pushed' := vis, dist, seen, pushed;
    next := [];
    var i := 0;
    while i < |frontier|
      invariant 0 <= i <= |frontier|
      invariant Searching(g0, p, vis', dist', d, seen', pushed')
      invariant IsLayer(g0, p, vis', dist', next, d)
      invariant Grows(g0, p, vis, dist, vis', dist', d)
      invariant ClosedBelow(g0, p, vis', dist', d - 1)
      invariant forall a :: 0 <= a < i ==> Expanded(g0, p, vis', dist', frontier[a], |g0[frontier[a]].ins|)
      invariant seen <= seen' && |seen'| == |seen| + |next|
    {
      var u := frontier[i];
      ghost var visB, distB := vis', dist';
      vis', dist', next, seen', pushed' := ExpandNode(g0, p, d, u, vis', dist', next, seen', pushed');
      FrontierStep(g0, p, d, frontier, i, vis, dist, visB, distB, vis', dist');
      i := i + 1;
    }
    FrontierDone(g0, p, d, frontier, vis, dist, vis', dist');
  }

  /** Every node with a path to the property is reached, no further out than
      the path is long, once every reached node has been expanded. */
  lemma {:induction false} Completeness(g0: seq<Node>, p: nat, vis: seq<bool>, dist: seq<nat>, v: nat, k: nat)
    requires p < |g0| && |vis| == |g0| && |dist| == |g0| && vis[p]
    requires forall u :: 0 <= u < |dist| && Vis(g0, p, vis, u) ==> Expanded(g0, p, vis, dist, u, |g0[u].ins|)
    requires ReachesIn(g0, p, v, k)
    ensures Vis(g0, p, vis, v) && Layer(p, dist, v) <= k
    decreases k
  {
    if k > 0 {
      var m :| 0 <= m < |g0| && v in g0[m].ins && ReachesIn(g0, p, m, k - 1);
      Completeness(g0, p, vis, dist, m, k - 1);
      var j :| 0 <= j < |g0[m].ins| && g0[m].ins[j] == v;
      assert !Blocked(g0, p, v);
    }
  }

  /** The search has finished: everything it reached is expanded. What it
      reached is exactly what has a path, at the shortest path's length. */
  lemma SearchDone(g0: seq<Node>, p: nat, vis: seq<bool>, dist: seq<nat>, bound: nat,
                   seen: set<nat>, pushed: seq<nat>)
    requires Searching(g0, p, vis, dist, bound, seen, pushed)
    requires forall u :: 0 <= u < |dist| && Vis(g0, p, vis, u) ==> Expanded(g0, p, vis, dist, u, |g0[u].ins|)
    ensures forall v :: 0 <= v < |g0| && v != p && !g0[v].visited ==> (vis[v] <==> Reachable(g0, p, v))
    ensures forall v :: 0 <= v < |g0| && v != p && !g0[v].visited && vis[v] ==> IsDistance(g0, p, v, dist[v])
  {
    forall v | 0 <= v < |g0| && v != p && !g0[v].visited
      ensures vis[v] <==> Reachable(g0, p, v)
      ensures vis[v] ==> IsDistance(g0, p, v, dist[v])
    {
      if vis[v] {
        assert Vis(g0, p, vis, v) && ReachesIn(g0, p, v, dist[v]);
        forall j | 0 <= j < dist[v]
          ensures !ReachesIn(g0, p, v, j)
        {
          if ReachesIn(g0, p, v, j) {
            Completeness(g0, p, vis, dist, v, j);
          }
        }
      }
      if Reachable(g0, p, v) {
        var k :| ReachesIn(g0, p, v, k);
        Completeness(g0, p, vis, dist, v, k);
      }
    }
  }

  /** The graph with the search's flags and distances put back into its nodes. */
  function WithMarks(g0: seq<Node>, vis: seq<bool>, dist: seq<nat>): (r: seq<Node>)
    requires |vis| == |g0| && |dist| == |g0|
    ensures |r| == |g0|
    ensures forall v :: 0 <= v < |g0| ==> r[v] == g0[v].(visited := vis[v], dist := dist[v])
  {
    seq(|g0|, v requires 0 <= v < |g0| => g0[v].(visited := vis[v], dist := dist[v]))
  }

  /**
   * Layered breadth-first search over in-edges from the property `p`: a node
   * first reached in layer `d` gets distance `d`. `pushed` lists the nodes
   * pushed onto a frontier and `layers` counts the layers searched.
   */
  method Bfs(nodes: seq<Node>, p: nat) returns (r: seq<Node>, ghost pushed: seq<nat>, ghost layers: nat)
    requires WellFormed(nodes) && p < |nodes|
    ensures |r| == |nodes|
    ensures forall v :: 0 <= v < |r| ==> r[v] == nodes[v].(visited := r[v].visited, dist := r[v].dist)
    ensures r[p] == nodes[p].(visited := true)
    ensures forall v :: 0 <= v < |r| && nodes[v].visited ==> r[v] == nodes[v].(visited := true)
    ensures forall v :: 0 <= v < |r| && v != p && !nodes[v].visited ==> (r[v].visited <==> Reachable(nodes, p, v))
    ensures forall v :: 0 <= v < |r| && v != p && !nodes[v].visited && r[v].visited ==> IsDistance(nodes, p, v, r[v].dist)
    ensures forall v :: 0 <= v < |r| && v != p && !Reachable(nodes, p, v) ==> r[v] == nodes[v]
    ensures NoDup(pushed)
    ensures forall v :: v in pushed <==> 0 <= v < |r| && v != p && !nodes[v].visited && r[v].visited
    ensures layers <= |nodes|
  {
    var vis: seq<bool> := seq(|nodes|, v requires 0 <= v < |nodes| => nodes[v].visited)[p := true];
    var dist: seq<nat> := seq(|nodes|, v requires 0 <= v < |nodes| => nodes[v].dist);
    var frontier := [p];
    ghost var seen: set<nat> := {p};
    pushed := [];
    var d := 1;
    while frontier != []
      invariant d >= 1
      invariant Searching(nodes, p, vis, dist, d - 1, seen, pushed)
      invariant IsLayer(nodes, p, vis, dist, frontier, d - 1)
      invariant ClosedBelow(nodes, p, vis, dist, d - 1)
      invariant |seen| <= |nodes| && d - 1 <= |seen| && (frontier != [] ==> d <= |seen|)
      decreases |nodes| - |seen|, |frontier|
    {
      var next;
      vis, dist, next, seen, pushed := ExpandFrontier(nodes, p, d, frontier, vis, dist, seen, pushed);
      BoundedSetCard(seen, |nodes|);
      frontier := next;
      d := d + 1;
    }
    layers := d - 1;
    SearchDone(nodes, p, vis, dist, d - 1, seen, pushed);
    r := WithMarks(nodes, vis, dist);
  }

  /* ---------------- choosing the property ---------------- */

  /** No node is an assertion. */
  predicate NoAssertion(nodes: seq<Node>)
  {
    forall v :: 0 <= v < |nodes| ==> !nodes[v].instruction.isAssert
  }

  /** At least two nodes are assertions. */
  ghost predicate ManyAssertions(nodes: seq<Node>)
  {
    exists a, b :: 0 <= a < b < |nodes| && nodes[a].instruction.isAssert && nodes[b].instruction.isAssert
  }

  /** `p` is the one and only assertion node. */
  predicate SoleAssertion(nodes: seq<Node>, p: nat)
  {
    p < |nodes| && nodes[p].instruction.isAssert &&
    forall v :: 0 <= v < |nodes| && v != p ==> !nodes[v].instruction.isAssert
  }

  /**
   * The scan for the property from node `n` on, `found` being the assertion
   * met before `n`, if any: a second assertion is an error at once, and
   * reaching the end without any is an error too.
   */
  function Scan(nodes: seq<Node>, n: nat, found: Option<nat>): (r: Result<nat>)
    requires n <= |nodes|
    requires found.None? ==> forall v :: 0 <= v < n ==> !nodes[v].instruction.isAssert
    requires found.Some? ==> found.value < n && nodes[found.value].instruction.isAssert &&
                             forall v :: 0 <= v < n && v != found.value ==> !nodes[v].instruction.isAssert
    ensures r == Err(NoProperty) <==> NoAssertion(nodes)
    ensures r == Err(MultipleProperties) <==> ManyAssertions(nodes)
    ensures r.Ok? ==> SoleAssertion(nodes, r.value)
    ensures r.Err? ==> r.error == NoProperty || r.error == MultipleProperties
    decreases |nodes| - n
  {
    if n == |nodes| then
      (if found.None? then Err(NoProperty) else Ok(found.value))
    else if nodes[n].instruction.isAssert then
      (if found.None? then Scan(nodes, n + 1, Some(n)) else Err(MultipleProperties))
    else Scan(nodes, n + 1, found)
  }

  /** The property: the unique assertion node, or why there is none. */
  function FindProperty(nodes: seq<Node>): (r: Result<nat>)
    ensures r == Err(NoProperty) <==> NoAssertion(nodes)
    ensures r == Err(MultipleProperties) <==> ManyAssertions(nodes)
    ensures r.Ok? <==> exists p :: SoleAssertion(nodes, p)
    ensures r.Ok? ==> SoleAssertion(nodes, r.value)
  {
    Scan(nodes, 0, None)
  }

  /* ---------------- writing the distances back ---------------- */

  /** Node `v` is the last node writing to its location. */
  predicate LastWriter(nodes: seq<Node>, v: nat)
    requires v < |nodes|
  {
    forall w :: v < w < |nodes| ==> nodes[w].loc != nodes[v].loc
  }

  /** Every node's location lies in the table. */
  predicate LocsInTable(nodes: seq<Node>, locs: seq<LocEntry>)
  {
    forall v :: 0 <= v < |nodes| ==> nodes[v].loc < |locs|
  }

  /**
   * Copies each node's distance into its location's annotation, in node
   * order: where two nodes share a location the later one's distance stays.
   */
  method WriteLengthsToLocs(nodes: seq<Node>, locs: seq<LocEntry>) returns (r: seq<LocEntry>)
    requires LocsInTable(nodes, locs)
    ensures |r| == |locs|
    ensures forall l :: 0 <= l < |r| ==> r[l] == locs[l].(distanceToProperty := r[l].distanceToProperty)
    ensures forall v :: 0 <= v < |nodes| && LastWriter(nodes, v) ==>
              r[nodes[v].loc].distanceToProperty == nodes[v].dist
    ensures forall l :: 0 <= l < |r| && (forall v :: 0 <= v < |nodes| ==> nodes[v].loc != l) ==> r[l] == locs[l]
  {
    r := locs;
    var k := 0;
    while k < |nodes|
      invariant 0 <= k <= |nodes| && |r| == |locs|
      invariant forall l :: 0 <= l < |r| ==> r[l] == locs[l].(distanceToProperty := r[l].distanceToProperty)
      invariant forall v :: 0 <= v < k && (forall w :: v < w < k ==> nodes[w].loc != nodes[v].loc) ==>
                  r[nodes[v].loc].distanceToProperty == nodes[v].dist
      invariant forall l :: 0 <= l < |r| && (forall v :: 0 <= v < k ==> nodes[v].loc != l) ==> r[l] == locs[l]
    {
      var l := nodes[k].loc;
      r := r[l := r[l].(distanceToProperty := nodes[k].dist)];
      k := k + 1;
    }
  }

  /* ---------------- the entry point ---------------- */

  /** Two graphs with the same edges and the same visited flags. */
  ghost predicate SameShape(g1: seq<Node>, g2: seq<Node>)
  {
    |g1| == |g2| && forall v :: 0 <= v < |g1| ==> g1[v].ins == g2[v].ins && g1[v].visited == g2[v].visited
  }

  /** Paths depend only on the edges and the visited flags. */
  lemma {:induction false} ReachesInSameShape(g1: seq<Node>, g2: seq<Node>, p: nat, v: nat, k: nat)
    requires SameShape(g1, g2)
    ensures ReachesIn(g1, p, v, k) <==> ReachesIn(g2, p, v, k)
    decreases k
  {
    if k > 0 {
      if ReachesIn(g1, p, v, k) {
        var m :| 0 <= m < |g1| && v in g1[m].ins && ReachesIn(g1, p, m, k - 1);
        ReachesInSameShape(g1, g2, p, m, k - 1);
      }
      if ReachesIn(g2, p, v, k) {
        var m :| 0 <= m < |g2| && v in g2[m].ins && ReachesIn(g2, p, m, k - 1);
        ReachesInSameShape(g1, g2, p, m, k - 1);
      }
    }
  }

  /** Shortest distances depend only on the edges and the visited flags. */
  lemma SameShapeDistances(g1: seq<Node>, g2: seq<Node>, p: nat)
    requires SameShape(g1, g2)
    ensures forall v :: Reachable(g1, p, v) <==> Reachable(g2, p, v)
    ensures forall v, k :: IsDistance(g1, p, v, k) <==> IsDistance(g2, p, v, k)
  {
    forall v, k | true
      ensures ReachesIn(g1, p, v, k) <==> ReachesIn(g2, p, v, k)
    {
      ReachesInSameShape(g1, g2, p, v, k);
    }
  }

  /**
   * What the search from `p` leaves in `g`, for the graph `nodes` it started
   * on: the property is marked with distance 0 and visited; the other nodes
   * differ at most in flag and distance; a node the caller had not marked is
   * visited exactly when it has a path to `p`, and then its distance is the
   * length of the shortest one; a node with no path is untouched.
   */
  ghost predicate SearchedFrom(nodes: seq<Node>, p: nat, g: seq<Node>)
    requires p < |nodes|
  {
    |g| == |nodes| &&
    g[p] == nodes[p].(isProperty := true, visited := true, dist := 0) &&
    (forall v :: 0 <= v < |g| && v != p ==> g[v] == nodes[v].(visited := g[v].visited, dist := g[v].dist)) &&
    (forall v :: 0 <= v < |g| && v != p && !nodes[v].visited ==> (g[v].visited <==> Reachable(nodes, p, v))) &&
    (forall v :: 0 <= v < |g| && v != p && !nodes[v].visited && g[v].visited ==> IsDistance(nodes, p, v, g[v].dist)) &&
    (forall v :: 0 <= v < |g| && v != p && !Reachable(nodes, p, v) ==> g[v] == nodes[v])
  }

  /**
   * Every location annotation of `t` is that of `locs` with at most the
   * distance changed; a node that is the last one at its location has its
   * distance from `g` there; a location no node names is untouched.
   */
  ghost predicate WrittenBack(nodes: seq<Node>, g: seq<Node>, locs: seq<LocEntry>, t: seq<LocEntry>)
    requires |g| == |nodes| && LocsInTable(nodes, locs)
  {
    |t| == |locs| &&
    (forall l :: 0 <= l < |t| ==> t[l] == locs[l].(distanceToProperty := t[l].distanceToProperty)) &&
    (forall v :: 0 <= v < |nodes| && LastWriter(nodes, v) ==> t[nodes[v].loc].distanceToProperty == g[v].dist) &&
    (forall l :: 0 <= l < |t| && (forall v :: 0 <= v < |nodes| ==> nodes[v].loc != l) ==> t[l] == locs[l])
  }

  /** The graph with its distances, and the location table with them written in. */
  datatype Lengths = Lengths(graph: seq<Node>, table: seq<LocEntry>)

  /**
   * Picks the single assertion node as the property (failing when there is
   * none or more than one, before any search), marks it with distance 0,
   * searches backwards from it and writes every node's distance to its
   * location.
   */
  method GetPathLengthsToProperty(nodes: seq<Node>, locs: seq<LocEntry>) returns (r: Result<Lengths>)
    requires WellFormed(nodes) && LocsInTable(nodes, locs)
    ensures r == Err(NoProperty) <==> NoAssertion(nodes)
    ensures r == Err(MultipleProperties) <==> ManyAssertions(nodes)
    ensures r.Ok? <==> exists p :: SoleAssertion(nodes, p)
    ensures r.Ok? ==> |r.value.graph| == |nodes|
    ensures forall p: nat :: SoleAssertion(nodes, p) && r.Ok? ==> SearchedFrom(nodes, p, r.value.graph)
    ensures r.Ok? ==> WrittenBack(nodes, r.value.graph, locs, r.value.table)
  {
    var found := FindProperty(nodes);
    if found.Err? {
      return Err(found.error);
    }
    var p := found.value;
    var marked := nodes[p := nodes[p].(isProperty := true, dist := 0)];
    assert SameShape(marked, nodes);
    var g, pushed, layers := Bfs(marked, p);
    SameShapeDistances(marked, nodes, p);
    assert SearchedFrom(nodes, p, g);
    assert LocsInTable(g, locs) && forall v :: 0 <= v < |g| ==> g[v].loc == nodes[v].loc;
    var table := WriteLengthsToLocs(g, locs);
    r := Ok(Lengths(g, table));
  }

  /** When no two nodes share a location, every node's distance reaches its location. */
  lemma DistinctLocsAllWritten(nodes: seq<Node>, g: seq<Node>, locs: seq<LocEntry>, t: seq<LocEntry>)
    requires |g| == |nodes| && LocsInTable(nodes, locs)
    requires forall a, b :: 0 <= a < b < |nodes| ==> nodes[a].loc != nodes[b].loc
    requires WrittenBack(nodes, g, locs, t)
    ensures forall v :: 0 <= v < |nodes| ==> t[nodes[v].loc].distanceToProperty == g[v].dist
  {
    forall v | 0 <= v < |nodes|
      ensures t[nodes[v].loc].distanceToProperty == g[v].dist
    {
      assert LastWriter(nodes, v);
    }
  }

  /* ---------------- a worked example ---------------- */

  /** Four locations in a line, 0 -> 1 -> 2 -> 3, the last one the only assertion. */
  function Chain(): (g: seq<Node>)
    ensures |g| == 4 && WellFormed(g) && SoleAssertion(g, 3)
  {
    var plain := Instruction(false, TrueExpr, false);
    var check := Instruction(true, Other(0), false);
    [ Node(plain, 0, [], false, false, 0),
      Node(plain, 1, [0], false, false, 0),
      Node(plain, 2, [1], false, false, 0),
      Node(check, 3, [2], false, false, 0) ]
  }

  /** In the line, the only path from `v` to the assertion has `3 - v` edges. */
  lemma {:induction false} ChainPaths(v: nat, k: nat)
    ensures ReachesIn(Chain(), 3, v, k) <==> v <= 3 && k == 3 - v
    decreases k
  {
    var g := Chain();
    if k > 0 {
      if ReachesIn(g, 3, v, k) {
        var m :| 0 <= m < |g| && v in g[m].ins && ReachesIn(g, 3, m, k - 1);
        assert m == v + 1;
        ChainPaths(m, k - 1);
      }
      if v <= 3 && k == 3 - v {
        assert v in g[v + 1].ins;
        ChainPaths(v + 1, k - 1);
      }
    }
  }

  /** Along the line the distance to the assertion from location `v` is `3 - v`. */
  lemma ChainDistances(v: nat)
    requires v <= 3
    ensures Reachable(Chain(), 3, v)
    ensures forall k :: IsDistance(Chain(), 3, v, k) <==> k == 3 - v
  {
    ChainPaths(v, 3 - v);
    forall k | true
      ensures IsDistance(Chain(), 3, v, k) <==> k == 3 - v
    {
      ChainPaths(v, k);
      forall j | 0 <= j < k
        ensures ReachesIn(Chain(), 3, v, j) <==> j == 3 - v
      {
        ChainPaths(v, j);
      }
    }
  }

  /** Whatever the search leaves on the line has distance `3 - v` at node `v`. */
  lemma ChainSearched(out: seq<Node>)
    requires SearchedFrom(Chain(), 3, out)
    ensures forall v :: 0 <= v < 4 ==> out[v].dist == 3 - v
  {
    forall v | 0 <= v < 3
      ensures out[v].dist == 3 - v
    {
      ChainDistances(v);
      assert out[v].visited;
      assert IsDistance(Chain(), 3, v, out[v].dist);
    }
  }

  /** Written back, the line's distances sit at locations 0 to 3. */
  lemma ChainTable(out: seq<Node>, locs: seq<LocEntry>, t: seq<LocEntry>)
    requires LocsInTable(Chain(), locs) && SearchedFrom(Chain(), 3, out)
    requires WrittenBack(Chain(), out, locs, t)
    ensures |t| >= 4 && forall l :: 0 <= l < 4 ==> t[l].distanceToProperty == 3 - l
  {
    ChainSearched(out);
    ChainWritten(out, locs, t);
  }

  /** On the line each node is alone at its own location, so each distance lands there. */
  lemma ChainWritten(out: seq<Node>, locs: seq<LocEntry>, t: seq<LocEntry>)
    requires |out| == 4 && LocsInTable(Chain(), locs)
    requires WrittenBack(Chain(), out, locs, t)
    ensures |t| >= 4 && forall l :: 0 <= l < 4 ==> t[l].distanceToProperty == out[l].dist
  {
    var g := Chain();
    forall l | 0 <= l < 4
      ensures t[l].distanceToProperty == out[l].dist
    {
      assert g[l].loc == l && LastWriter(g, l);
    }
  }

  /** Running the whole computation on the line yields distances 3, 2, 1, 0 in the table. */
  method ChainExample() returns (distances: seq<nat>)
    ensures distances == [3, 2, 1, 0]
  {
    var g := Chain();
    var locs := seq(4, l requires 0 <= l < 4 => LocEntry(g[l].instruction, 0));
    assert LocsInTable(g, locs);
    var r := GetPathLengthsToProperty(g, locs);
    assert SoleAssertion(g, 3);
    var t := r.value.table;
    ChainTable(r.value.graph, locs, t);
    distances := [t[0].distanceToProperty, t[1].distanceToProperty, t[2].distanceToProperty, t[3].distanceToProperty];
  }
}
