/**
 * Day 12 (src/Day12.kt): the fewest steps from a start cell 'S' to the end cell 'E'
 * of an elevation map, where a step goes to an orthogonally adjacent cell at most one
 * unit higher. The graph is searched by a working-set relaxation (Dijkstra's algorithm
 * with unit weights); part 2 tries every lowest cell as the start.
 */
module Day12 {
  import opened Utils
  import opened Text

  // ---------------------------------------------------------------------------
  // Heights and distances

  /** `Node.height`: 'S' is as low as 'a', 'E' as high as 'z'. */
  function Height(c: char): int
  {
    if c == 'S' then 'a' as int - 'a' as int
    else if c == 'E' then 'z' as int - 'a' as int
    else c as int - 'a' as int
  }

  /** The heights of the map's letters run from 0 to 25. */
  lemma HeightRange(c: char)
    ensures 'a' <= c <= 'z' ==> 0 <= Height(c) <= 25
    ensures Height('S') == Height('a') == 0 && Height('E') == Height('z') == 25
  {
  }

  /** An entry of `distanceFromStart`; `Int.MAX_VALUE` plays the part of `Infinite`. */
  datatype Distance = Finite(steps: nat) | Infinite

  /** The relaxation test `distanceFromStart[neighbor] > newDistance`. */
  predicate Exceeds(d: Distance, n: nat)
  {
    d.Infinite? || d.steps > n
  }

  /** A distance no larger than `n` (the negation of `Exceeds`). */
  predicate AtMost(d: Distance, n: nat)
  {
    d.Finite? && d.steps <= n
  }

  /** The order `minBy` compares distances in. */
  predicate Le(a: Distance, b: Distance)
  {
    b.Infinite? || (a.Finite? && a.steps <= b.steps)
  }

  /** What `findShortestPath` produces: a number, `null`, or an exception. */
  datatype Outcome = Found(steps: nat) | NotFound | Fails

  // ---------------------------------------------------------------------------
  // The graph and its shortest paths

  /**
   * The nodes in row-major order, each node's neighbour list (in the order they were
   * added), and the end node: the last 'E' of the map, or none when the map has no 'E'
   * (the `lateinit var end` stays uninitialised).
   */
  datatype Graph = Graph(cells: seq<char>, neighbors: seq<seq<nat>>, end: Option<nat>)

  ghost predicate Wf(g: Graph)
  {
    && |g.neighbors| == |g.cells|
    && (forall v, k :: 0 <= v < |g.neighbors| && 0 <= k < |g.neighbors[v]| ==> g.neighbors[v][k] < |g.cells|)
    && (g.end.Some? ==> g.end.value < |g.cells| && g.cells[g.end.value] == 'E')
  }

  predicate IsStart(g: Graph, v: nat)
  {
    v < |g.cells| && g.cells[v] == 'S'
  }

  /** `w` is in `v`'s neighbour list. */
  predicate Edge(g: Graph, v: nat, w: nat)
  {
    v < |g.neighbors| && w in g.neighbors[v]
  }

  /** A walk along edges that begins at a start node. */
  ghost predicate IsWalk(g: Graph, p: seq<nat>)
  {
    && |p| >= 1
    && IsStart(g, p[0])
    && (forall i :: 0 <= i < |p| ==> p[i] < |g.cells|)
    && (forall i :: 0 <= i < |p| - 1 ==> Edge(g, p[i], p[i + 1]))
  }

  /** Some start reaches `v` in exactly `k` steps. */
  ghost predicate Reaches(g: Graph, v: nat, k: nat)
  {
    exists p :: IsWalk(g, p) && |p| == k + 1 && p[k] == v
  }

  ghost predicate Reachable(g: Graph, v: nat)
  {
    exists k: nat :: Reaches(g, v, k)
  }

  lemma {:induction false} LeastSteps(g: Graph, v: nat, k: nat)
    requires Reaches(g, v, k)
    ensures exists m: nat :: Reaches(g, v, m) && forall j: nat :: j < m ==> !Reaches(g, v, j)
    decreases k
  {
    if exists j: nat :: j < k && Reaches(g, v, j) {
      var j: nat :| j < k && Reaches(g, v, j);
      LeastSteps(g, v, j);
    }
  }

  /** The length of a shortest walk from a start to `v`. */
  ghost function Steps(g: Graph, v: nat): (m: nat)
    requires Reachable(g, v)
    ensures Reaches(g, v, m)
    ensures forall j: nat :: j < m ==> !Reaches(g, v, j)
  {
    var k: nat :| Reaches(g, v, k);
    LeastSteps(g, v, k);
    var m: nat :| Reaches(g, v, m) && forall j: nat :: j < m ==> !Reaches(g, v, j);
    m
  }

  /** Some start has a neighbour that is not a start. */
  ghost predicate StartsLeak(g: Graph)
  {
    exists v, w :: IsStart(g, v) && Edge(g, v, w) && !IsStart(g, w)
  }

  /**
   * What the search computes. With an end node: the length of a shortest walk from
   * a start to it, or `NotFound` when there is none. Without one: the first distance
   * improvement reads the uninitialised `end` and fails, and an improvement happens
   * exactly when a start has a neighbour that is not a start.
   */
  ghost function ShortestPath(g: Graph): Outcome
    requires Wf(g)
  {
    match g.end
    case None => if StartsLeak(g) then Fails else NotFound
    case Some(e) => if Reachable(g, e) then Found(Steps(g, e)) else NotFound
  }

  /** A search result is a shortest walk's length: no start reaches the end sooner. */
  lemma FoundIsShortest(g: Graph, n: nat)
    requires Wf(g) && ShortestPath(g) == Found(n)
    ensures g.end.Some? && Reaches(g, g.end.value, n)
    ensures forall k: nat :: k < n ==> !Reaches(g, g.end.value, k)
  {
  }

  lemma ReachesStart(g: Graph, v: nat)
    requires IsStart(g, v)
    ensures Reaches(g, v, 0)
  {
    assert IsWalk(g, [v]);
  }

  lemma ReachesNext(g: Graph, v: nat, k: nat, w: nat)
    requires Wf(g) && Reaches(g, v, k) && Edge(g, v, w)
    ensures Reaches(g, w, k + 1)
  {
    var p :| IsWalk(g, p) && |p| == k + 1 && p[k] == v;
    var q := p + [w];
    assert forall i :: 0 <= i < |q| - 1 ==> q[i] == p[i];
    assert IsWalk(g, q);
  }

  // ---------------------------------------------------------------------------
  // The working-set search

  /** `distanceFromStart` as the node loop leaves it: 0 at the starts, infinite elsewhere. */
  function StartDistances(cells: seq<char>): (d: seq<Distance>)
    ensures |d| == |cells|
    ensures forall v :: 0 <= v < |cells| ==> (d[v] == Finite(0) <==> cells[v] == 'S')
    ensures forall v :: 0 <= v < |cells| ==> (d[v] == Infinite <==> cells[v] != 'S')
  {
    seq(|cells|, v requires 0 <= v < |cells| => if cells[v] == 'S' then Finite(0) else Infinite)
  }

  /** The working set after `remove(min)`: the first occurrence of `W[k]` taken out. */
  function Remove(W: seq<nat>, k: nat): seq<nat>
    requires k < |W|
  {
    W[..k] + W[k + 1..]
  }

  ghost predicate Distinct(W: seq<nat>)
  {
    forall i, j :: 0 <= i < j < |W| ==> W[i] != W[j]
  }

  lemma RemoveMembership(W: seq<nat>, k: nat)
    requires Distinct(W) && k < |W|
    ensures Distinct(Remove(W, k))
    ensures forall v :: v in Remove(W, k) <==> v in W && v != W[k]
  {
    var R := Remove(W, k);
    assert forall i :: 0 <= i < |R| ==> R[i] == if i < k then W[i] else W[i + 1];
    forall v | v in W && v != W[k]
      ensures v in R
    {
      var i :| 0 <= i < |W| && W[i] == v;
      assert R[if i < k then i else i - 1] == v;
    }
  }

  /** Every finite distance is the length of some walk from a start. */
  ghost predicate Sound(g: Graph, dist: seq<Distance>)
    requires |dist| == |g.cells|
  {
    forall v :: 0 <= v < |dist| && dist[v].Finite? ==> Reaches(g, v, dist[v].steps)
  }

  /** Every node taken out of the working set has a distance and has relaxed its neighbours. */
  ghost predicate Relaxed(g: Graph, dist: seq<Distance>, W: seq<nat>)
    requires Wf(g) && |dist| == |g.cells|
  {
    forall v :: 0 <= v < |dist| && v !in W ==>
      && dist[v].Finite?
      && forall k :: 0 <= k < |g.neighbors[v]| ==> AtMost(dist[g.neighbors[v][k]], dist[v].steps + 1)
  }

  /** Nodes taken out are no farther than those still in the working set. */
  ghost predicate Ordered(dist: seq<Distance>, W: seq<nat>)
    requires forall i :: 0 <= i < |W| ==> W[i] < |dist|
  {
    forall v, i :: 0 <= v < |dist| && v !in W && 0 <= i < |W| ==> Le(dist[v], dist[W[i]])
  }

  /** The end keeps an infinite distance; without an end, no distance has improved. */
  ghost predicate EndUntouched(g: Graph, dist: seq<Distance>)
    requires Wf(g) && |dist| == |g.cells|
  {
    match g.end
    case Some(e) => dist[e] == Infinite
    case None => dist == StartDistances(g.cells)
  }

  /** The invariant of the `while (workingSet.isNotEmpty())` loop. */
  ghost predicate Inv(g: Graph, dist: seq<Distance>, W: seq<nat>)
  {
    && Wf(g)
    && |dist| == |g.cells|
    && Distinct(W)
    && (forall i :: 0 <= i < |W| ==> W[i] < |dist|)
    && Sound(g, dist)
    && Relaxed(g, dist, W)
    && Ordered(dist, W)
    && (forall v :: 0 <= v < |dist| && g.cells[v] == 'S' ==> dist[v] == Finite(0))
    && EndUntouched(g, dist)
  }

  /**
   * Along any walk, either the walk's last node already has a distance no larger than
   * the walk, or some node of the walk still in the working set does.
   */
  lemma {:induction false} Frontier(g: Graph, dist: seq<Distance>, W: seq<nat>, p: seq<nat>)
    requires Inv(g, dist, W) && IsWalk(g, p)
    ensures AtMost(dist[p[|p| - 1]], |p| - 1) || exists i :: 0 <= i < |p| && p[i] in W && AtMost(dist[p[i]], i)
    decreases |p|
  {
    if |p| > 1 {
      var q := p[..|p| - 1];
      assert forall i :: 0 <= i < |q| ==> q[i] == p[i];
      assert IsWalk(g, q);
      Frontier(g, dist, W, q);
      var u := p[|p| - 2];
      if AtMost(dist[u], |p| - 2) && u !in W {
        assert Edge(g, u, p[|p| - 1]);
        var k :| 0 <= k < |g.neighbors[u]| && g.neighbors[u][k] == p[|p| - 1];
        assert AtMost(dist[g.neighbors[u][k]], dist[u].steps + 1);
      }
    }
  }

  /** When the working set holds only infinite distances, the end cannot be reached. */
  lemma NothingLeft(g: Graph, dist: seq<Distance>, W: seq<nat>)
    requires Inv(g, dist, W)
    requires forall i :: 0 <= i < |W| ==> dist[W[i]].Infinite?
    ensures ShortestPath(g) == NotFound
  {
    match g.end
    case Some(e) =>
      if Reachable(g, e) {
        var k: nat :| Reaches(g, e, k);
        var p :| IsWalk(g, p) && |p| == k + 1 && p[k] == e;
        Frontier(g, dist, W, p);
        assert false;
      }
    case None =>
      if StartsLeak(g) {
        assert false;
      }
  }

  /**
   * Relaxing from the nearest node `u` of the working set reaches the end in one more
   * step: that is a shortest walk.
   */
  lemma EndFound(g: Graph, dist: seq<Distance>, W: seq<nat>, k: nat, e: nat)
    requires Inv(g, dist, W) && k < |W| && dist[W[k]].Finite?
    requires forall i :: 0 <= i < |W| ==> Le(dist[W[k]], dist[W[i]])
    requires g.end == Some(e) && Edge(g, W[k], e)
    ensures ShortestPath(g) == Found(dist[W[k]].steps + 1)
  {
    var u, du := W[k], dist[W[k]].steps;
    ReachesNext(g, u, du, e);
    forall j: nat | j <= du
      ensures !Reaches(g, e, j)
    {
      if Reaches(g, e, j) {
        var p :| IsWalk(g, p) && |p| == j + 1 && p[j] == e;
        Frontier(g, dist, W, p);
        assert false;
      }
    }
    assert Reachable(g, e);
    assert Steps(g, e) == du + 1;
  }

  /** Without an end node, an improvement from a start node is the failing read of `end`. */
  lemma LeakFails(g: Graph, dist: seq<Distance>, u: nat, w: nat)
    requires Wf(g) && |dist| == |g.cells| && g.end.None? && EndUntouched(g, dist)
    requires u < |dist| && dist[u].Finite? && Edge(g, u, w) && Exceeds(dist[w], dist[u].steps + 1)
    ensures ShortestPath(g) == Fails
  {
    assert IsStart(g, u) && !IsStart(g, w);
  }

  /** `workingSet.minBy { distanceFromStart[it.index] }`: the first node of least distance. */
  method MinBy(dist: seq<Distance>, W: seq<nat>) returns (k: nat)
    requires |W| > 0 && forall i :: 0 <= i < |W| ==> W[i] < |dist|
    ensures k < |W|
    ensures forall i :: 0 <= i < |W| ==> Le(dist[W[k]], dist[W[i]])
    ensures forall i :: 0 <= i < k ==> !Le(dist[W[i]], dist[W[k]])
  {
    k := 0;
    var i := 1;
    while i < |W|
      invariant k < i <= |W|
      invariant forall j :: 0 <= j < i ==> Le(dist[W[k]], dist[W[j]])
      invariant forall j :: 0 <= j < k ==> !Le(dist[W[j]], dist[W[k]])
    {
      if !Le(dist[W[k]], dist[W[i]]) {
        k := i;
      }
      i := i + 1;
    }
  }

  /**
   * One pass of the inner `for (neighbor in min.neighbors)` loop for the node `W[k]`,
   * which the caller has just taken out of the working set. It returns the search's
   * answer when an improvement reaches the end (or reads the missing end), and
   * otherwise the new distances.
   */
  method Relax(g: Graph, dist: seq<Distance>, W: seq<nat>, k: nat) returns (r: Option<Outcome>, next: seq<Distance>)
    requires Inv(g, dist, W) && k < |W| && dist[W[k]].Finite?
    requires forall i :: 0 <= i < |W| ==> Le(dist[W[k]], dist[W[i]])
    ensures r.Some? ==> r.value == ShortestPath(g)
    ensures r.None? ==> Inv(g, next, Remove(W, k))
  {
    var u := W[k];
    var newDistance := dist[u].steps + 1;
    var neighbors := g.neighbors[u];
    next := dist;
    var j := 0;
    while j < |neighbors|
      invariant j <= |neighbors|
      invariant |next| == |dist|
      invariant forall v :: 0 <= v < |dist| ==> next[v] == dist[v] || Improved(g, dist, u, v, next[v])
      invariant forall i :: 0 <= i < j ==> AtMost(next[neighbors[i]], newDistance)
    {
      var neighbor := neighbors[j];
      if Exceeds(next[neighbor], newDistance) {
        var before := next;
        next := next[neighbor := Finite(newDistance)];
        if g.end.None? {
          assert before == dist by {
            assert forall v :: 0 <= v < |dist| ==> before[v] == dist[v];
          }
          LeakFails(g, dist, u, neighbor);
          return Some(Fails), next;
        }
        if neighbor == g.end.value {
          assert before[neighbor] == dist[neighbor];
          EndFound(g, dist, W, k, neighbor);
          return Some(Found(newDistance)), next;
        }
      }
      j := j + 1;
    }
    RelaxKeepsInv(g, dist, W, k, next);
    r := None;
  }

  /** `next` is the distance `dist[u] + 1` that relaxing `u` gave `v`. */
  ghost predicate Improved(g: Graph, dist: seq<Distance>, u: nat, v: nat, next: Distance)
    requires u < |dist| && dist[u].Finite? && v < |dist|
  {
    && next == Finite(dist[u].steps + 1)
    && Exceeds(dist[v], dist[u].steps + 1)
    && Edge(g, u, v)
    && g.end.Some? && v != g.end.value
  }

  /** The state after relaxing every neighbour of `W[k]`, the nearest node of the working set. */
  ghost predicate RelaxedStep(g: Graph, dist: seq<Distance>, W: seq<nat>, k: nat, next: seq<Distance>)
  {
    && Inv(g, dist, W) && k < |W| && dist[W[k]].Finite?
    && (forall i :: 0 <= i < |W| ==> Le(dist[W[k]], dist[W[i]]))
    && |next| == |dist|
    && (forall v :: 0 <= v < |dist| ==> next[v] == dist[v] || Improved(g, dist, W[k], v, next[v]))
    && (forall i :: 0 <= i < |g.neighbors[W[k]]| ==> AtMost(next[g.neighbors[W[k]][i]], dist[W[k]].steps + 1))
  }

  /** Nodes taken out earlier are no farther than `W[k]`, so relaxing it leaves them alone. */
  lemma SettledUnchanged(g: Graph, dist: seq<Distance>, W: seq<nat>, k: nat, next: seq<Distance>)
    requires RelaxedStep(g, dist, W, k, next)
    ensures forall v :: 0 <= v < |dist| && v !in W ==> next[v] == dist[v] && AtMost(dist[v], dist[W[k]].steps)
  {
    forall v | 0 <= v < |dist| && v !in W
      ensures next[v] == dist[v] && AtMost(dist[v], dist[W[k]].steps)
    {
      assert Le(dist[v], dist[W[k]]);
    }
  }

  lemma RelaxKeepsSound(g: Graph, dist: seq<Distance>, W: seq<nat>, k: nat, next: seq<Distance>)
    requires RelaxedStep(g, dist, W, k, next)
    ensures Sound(g, next)
  {
    forall v | 0 <= v < |dist| && next[v].Finite?
      ensures Reaches(g, v, next[v].steps)
    {
      if next[v] != dist[v] {
        ReachesNext(g, W[k], dist[W[k]].steps, v);
      }
    }
  }

  lemma RelaxKeepsRelaxed(g: Graph, dist: seq<Distance>, W: seq<nat>, k: nat, next: seq<Distance>)
    requires RelaxedStep(g, dist, W, k, next)
    ensures Relaxed(g, next, Remove(W, k))
  {
    RemoveMembership(W, k);
    SettledUnchanged(g, dist, W, k, next);
    forall v | 0 <= v < |dist| && v !in Remove(W, k)
      ensures next[v].Finite?
      ensures forall j :: 0 <= j < |g.neighbors[v]| ==> AtMost(next[g.neighbors[v][j]], next[v].steps + 1)
    {
      if v != W[k] {
        forall j | 0 <= j < |g.neighbors[v]|
          ensures AtMost(next[g.neighbors[v][j]], next[v].steps + 1)
        {
          assert AtMost(dist[g.neighbors[v][j]], dist[v].steps + 1);
        }
      }
    }
  }

  lemma RelaxKeepsOrdered(g: Graph, dist: seq<Distance>, W: seq<nat>, k: nat, next: seq<Distance>)
    requires RelaxedStep(g, dist, W, k, next)
    ensures forall i :: 0 <= i < |Remove(W, k)| ==> Remove(W, k)[i] < |next|
    ensures Ordered(next, Remove(W, k))
  {
    var R := Remove(W, k);
    RemoveMembership(W, k);
    SettledUnchanged(g, dist, W, k, next);
    assert forall i :: 0 <= i < |R| ==> R[i] in W;
    forall v, i | 0 <= v < |dist| && v !in R && 0 <= i < |R|
      ensures Le(next[v], next[R[i]])
    {
      var m :| 0 <= m < |W| && W[m] == R[i];
      assert Le(dist[W[k]], dist[W[m]]);
    }
  }

  lemma RelaxKeepsInv(g: Graph, dist: seq<Distance>, W: seq<nat>, k: nat, next: seq<Distance>)
    requires RelaxedStep(g, dist, W, k, next)
    ensures Inv(g, next, Remove(W, k))
  {
    RemoveMembership(W, k);
    RelaxKeepsSound(g, dist, W, k, next);
    RelaxKeepsRelaxed(g, dist, W, k, next);
    RelaxKeepsOrdered(g, dist, W, k, next);
    RelaxKeepsStartAndEnd(g, dist, W, k, next);
  }

  lemma RelaxKeepsStartAndEnd(g: Graph, dist: seq<Distance>, W: seq<nat>, k: nat, next: seq<Distance>)
    requires RelaxedStep(g, dist, W, k, next)
    ensures forall v :: 0 <= v < |next| && g.cells[v] == 'S' ==> next[v] == Finite(0)
    ensures EndUntouched(g, next)
  {
    assert g.end.None? ==> next == dist by {
      if g.end.None? {
        assert forall v :: 0 <= v < |dist| ==> next[v] == dist[v];
      }
    }
  }

  /** `findShortestPath`'s search, from the start distances to the answer. */
  method Search(g: Graph, distances: seq<Distance>) returns (r: Outcome)
    requires Wf(g) && distances == StartDistances(g.cells)
    ensures r == ShortestPath(g)
  {
    var dist := distances;
    var workingSet: seq<nat> := seq(|g.cells|, i requires 0 <= i < |g.cells| => i);
    forall v | 0 <= v < |dist| && dist[v].Finite?
      ensures Reaches(g, v, dist[v].steps)
    {
      ReachesStart(g, v);
    }
    forall v | 0 <= v < |dist|
      ensures v in workingSet
    {
      assert workingSet[v] == v;
    }
    while |workingSet| > 0
      invariant Inv(g, dist, workingSet)
      decreases |workingSet|
    {
      var k := MinBy(dist, workingSet);
      if dist[workingSet[k]].Infinite? {
        // `newDistance` overflows: every remaining distance is infinite
        NothingLeft(g, dist, workingSet);
        return NotFound;
      }
      var answer, next := Relax(g, dist, workingSet, k);
      if answer.Some? {
        return answer.value;
      }
      dist, workingSet := next, Remove(workingSet, k);
    }
    NothingLeft(g, dist, workingSet);
    r := NotFound;
  }

  // ---------------------------------------------------------------------------
  // Building the graph

  /** `addAsNeighborIfReachable`: a step may climb at most one unit. */
  predicate Admissible(cells: seq<char>, v: nat, w: nat)
    requires v < |cells| && w < |cells|
  {
    Height(cells[w]) - 1 <= Height(cells[v])
  }

  /**
   * The neighbour list of node `index`: left, right, up and down, each when the node
   * is not on that edge of the grid and the step is admissible. `index / rowLength`
   * divides by zero when the first row is empty, and a neighbour index past the last
   * node is an `IndexOutOfBoundsException` (ragged rows).
   */
  function NeighborsOf(cells: seq<char>, rowLength: nat, numRows: nat, index: nat): (r: Option<seq<nat>>)
    requires index < |cells|
    ensures r.Some? ==> forall k :: 0 <= k < |r.value| ==> r.value[k] < |cells|
  {
    if rowLength == 0 then None
    else
      var row, col := index / rowLength, index % rowLength;
      assert index == row * rowLength + col;
      assert row != 0 ==> index >= rowLength by {
        if row != 0 {
          MulAtLeast(row, rowLength);
        }
      }
      if col != rowLength - 1 && index + 1 >= |cells| then None
      else if row != numRows - 1 && index + rowLength >= |cells| then None
      else
        Some((if col != 0 && Admissible(cells, index, index - 1) then [index - 1] else [])
          + (if col != rowLength - 1 && Admissible(cells, index, index + 1) then [index + 1] else [])
          + (if row != 0 && Admissible(cells, index, index - rowLength) then [index - rowLength] else [])
          + (if row != numRows - 1 && Admissible(cells, index, index + rowLength) then [index + rowLength] else []))
  }

  /** `v` and `w` are one row or one column apart in rows of `rowLength` cells. */
  predicate GridAdjacent(v: nat, w: nat, rowLength: nat)
    requires rowLength > 0
  {
    var rv, cv, rw, cw := v / rowLength, v % rowLength, w / rowLength, w % rowLength;
    (rv == rw && (cv == cw + 1 || cw == cv + 1)) || (cv == cw && (rv == rw + 1 || rw == rv + 1))
  }

  lemma MulAtLeast(a: int, b: int)
    requires a >= 1 && b > 0
    ensures a * b >= b
  {
  }

  /** Row-major coordinates are unique. */
  lemma SameCoordinates(r1: nat, c1: nat, r2: nat, c2: nat, rowLength: nat)
    requires c1 < rowLength && c2 < rowLength && r1 * rowLength + c1 == r2 * rowLength + c2
    ensures r1 == r2 && c1 == c2
  {
    if r1 > r2 {
      MulAtLeast(r1 - r2, rowLength);
    } else if r2 > r1 {
      MulAtLeast(r2 - r1, rowLength);
    }
  }

  /** The node in row `r`, column `c` has index `r * rowLength + c`. */
  lemma Coordinates(r: nat, c: nat, rowLength: nat)
    requires c < rowLength
    ensures (r * rowLength + c) / rowLength == r && (r * rowLength + c) % rowLength == c
  {
    var v := r * rowLength + c;
    assert v == (v / rowLength) * rowLength + v % rowLength;
    SameCoordinates(v / rowLength, v % rowLength, r, c, rowLength);
  }

  lemma LeftCoordinates(index: nat, rowLength: nat)
    requires rowLength > 0 && index % rowLength != 0
    ensures index >= 1 && (index - 1) / rowLength == index / rowLength && (index - 1) % rowLength == index % rowLength - 1
  {
    var row, col := index / rowLength, index % rowLength;
    assert index == row * rowLength + col;
    Coordinates(row, col - 1, rowLength);
  }

  lemma RightCoordinates(index: nat, rowLength: nat)
    requires rowLength > 0 && index % rowLength != rowLength - 1
    ensures (index + 1) / rowLength == index / rowLength && (index + 1) % rowLength == index % rowLength + 1
  {
    var row, col := index / rowLength, index % rowLength;
    assert index == row * rowLength + col;
    Coordinates(row, col + 1, rowLength);
  }

  lemma UpCoordinates(index: nat, rowLength: nat)
    requires rowLength > 0 && index / rowLength != 0
    ensures index >= rowLength && (index - rowLength) / rowLength == index / rowLength - 1
    ensures (index - rowLength) % rowLength == index % rowLength
  {
    var row, col := index / rowLength, index % rowLength;
    assert index - rowLength == (row - 1) * rowLength + col && index >= rowLength by {
      assert index == row * rowLength + col;
      assert (row - 1) * rowLength == row * rowLength - rowLength;
      MulAtLeast(row, rowLength);
    }
    Coordinates(row - 1, col, rowLength);
  }

  lemma DownCoordinates(index: nat, rowLength: nat)
    requires rowLength > 0
    ensures (index + rowLength) / rowLength == index / rowLength + 1 && (index + rowLength) % rowLength == index % rowLength
  {
    var row, col := index / rowLength, index % rowLength;
    assert index == row * rowLength + col;
    assert (row + 1) * rowLength == row * rowLength + rowLength;
    Coordinates(row + 1, col, rowLength);
  }

  /** Every grid-adjacent node is one of the four candidates. */
  lemma AdjacentIsCandidate(index: nat, w: nat, rowLength: nat)
    requires rowLength > 0 && GridAdjacent(index, w, rowLength)
    ensures var row, col := index / rowLength, index % rowLength;
      || (col != 0 && w == index - 1)
      || (col != rowLength - 1 && w == index + 1)
      || (row != 0 && w == index - rowLength)
      || (w == index + rowLength && w / rowLength == row + 1)
  {
    var row, col := index / rowLength, index % rowLength;
    var rw, cw := w / rowLength, w % rowLength;
    assert index == row * rowLength + col;
    assert w == rw * rowLength + cw;
    if rw == row + 1 {
      assert rw * rowLength == row * rowLength + rowLength;
    } else if row == rw + 1 {
      assert row * rowLength == rw * rowLength + rowLength;
    }
  }

  /** The listed neighbours are grid-adjacent, admissible, and not below the last row. */
  lemma NeighborsAdjacent(cells: seq<char>, rowLength: nat, numRows: nat, index: nat, w: nat)
    requires index < |cells| && NeighborsOf(cells, rowLength, numRows, index).Some?
    requires w in NeighborsOf(cells, rowLength, numRows, index).value
    ensures rowLength > 0 && w < |cells| && GridAdjacent(index, w, rowLength) && Admissible(cells, index, w)
    ensures w / rowLength == index / rowLength + 1 ==> index / rowLength != numRows - 1
  {
    var row, col := index / rowLength, index % rowLength;
    if col != 0 && w == index - 1 {
      LeftCoordinates(index, rowLength);
    } else if col != rowLength - 1 && w == index + 1 {
      RightCoordinates(index, rowLength);
    } else if row != 0 && w == index - rowLength {
      UpCoordinates(index, rowLength);
    } else {
      DownCoordinates(index, rowLength);
    }
  }

  /** Every in-grid, adjacent, admissible node not below the last row is listed. */
  lemma AdjacentNeighbors(cells: seq<char>, rowLength: nat, numRows: nat, index: nat, w: nat)
    requires index < |cells| && NeighborsOf(cells, rowLength, numRows, index).Some?
    requires rowLength > 0 && w < |cells| && GridAdjacent(index, w, rowLength) && Admissible(cells, index, w)
    requires w / rowLength == index / rowLength + 1 ==> index / rowLength != numRows - 1
    ensures w in NeighborsOf(cells, rowLength, numRows, index).value
  {
    AdjacentIsCandidate(index, w, rowLength);
    DownCoordinates(index, rowLength);
  }

  /**
   * Edges go exactly to the in-grid, orthogonally adjacent nodes at most one unit
   * higher, except that nothing below the last row is linked.
   */
  lemma NeighborsAreAdjacent(cells: seq<char>, rowLength: nat, numRows: nat, index: nat)
    requires index < |cells| && NeighborsOf(cells, rowLength, numRows, index).Some?
    ensures rowLength > 0
    ensures forall w: nat :: w in NeighborsOf(cells, rowLength, numRows, index).value <==>
      && w < |cells|
      && GridAdjacent(index, w, rowLength)
      && Admissible(cells, index, w)
      && (w / rowLength == index / rowLength + 1 ==> index / rowLength != numRows - 1)
  {
    forall w: nat | w in NeighborsOf(cells, rowLength, numRows, index).value
      ensures w < |cells| && GridAdjacent(index, w, rowLength) && Admissible(cells, index, w)
      ensures w / rowLength == index / rowLength + 1 ==> index / rowLength != numRows - 1
    {
      NeighborsAdjacent(cells, rowLength, numRows, index, w);
    }
    forall w: nat | w < |cells| && GridAdjacent(index, w, rowLength) && Admissible(cells, index, w)
      && (w / rowLength == index / rowLength + 1 ==> index / rowLength != numRows - 1)
      ensures w in NeighborsOf(cells, rowLength, numRows, index).value
    {
      AdjacentNeighbors(cells, rowLength, numRows, index, w);
    }
  }

  /** The neighbour lists of all nodes, or `None` when building one of them throws. */
  function Links(cells: seq<char>, rowLength: nat, numRows: nat): (r: Option<seq<seq<nat>>>)
  {
    if forall v :: 0 <= v < |cells| ==> NeighborsOf(cells, rowLength, numRows, v).Some?
    then Some(seq(|cells|, v requires 0 <= v < |cells| => NeighborsOf(cells, rowLength, numRows, v).value))
    else None
  }

  /** The body of `nodes.forEachIndexed { ... }` for one node. */
  method LinkNode(cells: seq<char>, rowLength: nat, numRows: nat, index: nat) returns (r: Option<seq<nat>>)
    requires index < |cells|
    ensures r == NeighborsOf(cells, rowLength, numRows, index)
  {
    if rowLength == 0 {
      return None;
    }
    var row, col := index / rowLength, index % rowLength;
    var left, right, up, down: seq<nat> := [], [], [], [];
    if col != 0 {
      LeftCoordinates(index, rowLength);
      if Admissible(cells, index, index - 1) {
        left := [index - 1];
      }
    }
    if col != rowLength - 1 {
      if index + 1 >= |cells| {
        return None;
      }
      if Admissible(cells, index, index + 1) {
        right := [index + 1];
      }
    }
    if row != 0 {
      UpCoordinates(index, rowLength);
      if Admissible(cells, index, index - rowLength) {
        up := [index - rowLength];
      }
    }
    if row != numRows - 1 {
      if index + rowLength >= |cells| {
        return None;
      }
      if Admissible(cells, index, index + rowLength) {
        down := [index + rowLength];
      }
    }
    r := Some(left + right + up + down);
  }

  /** `nodes.forEachIndexed { ... }`: the neighbour lists, node by node. */
  method Link(cells: seq<char>, rowLength: nat, numRows: nat) returns (r: Option<seq<seq<nat>>>)
    ensures r == Links(cells, rowLength, numRows)
  {
    var neighbors: seq<seq<nat>> := [];
    for index := 0 to |cells|
      invariant |neighbors| == index
      invariant forall v :: 0 <= v < index ==>
        NeighborsOf(cells, rowLength, numRows, v).Some? && neighbors[v] == NeighborsOf(cells, rowLength, numRows, v).value
    {
      var own := LinkNode(cells, rowLength, numRows, index);
      if own.None? {
        assert !(forall v :: 0 <= v < |cells| ==> NeighborsOf(cells, rowLength, numRows, v).Some?);
        return None;
      }
      neighbors := neighbors + [own.value];
    }
    r := Some(neighbors);
    assert neighbors == Links(cells, rowLength, numRows).value;
  }

  /** The index of the last occurrence of `c`: the node `end` is left pointing at. */
  function LastIndexOf(s: seq<char>, c: char): (r: Option<nat>)
    ensures r.None? <==> forall i :: 0 <= i < |s| ==> s[i] != c
    ensures r.Some? ==> r.value < |s| && s[r.value] == c && forall i :: r.value < i < |s| ==> s[i] != c
  {
    if s == [] then None
    else if s[|s| - 1] == c then Some(|s| - 1)
    else LastIndexOf(s[..|s| - 1], c)
  }

  /**
   * The node loop of `findShortestPath`: the cells in row-major order, the start
   * distances and the last 'E'.
   */
  method Build(input: seq<string>) returns (cells: seq<char>, distances: seq<Distance>, end: Option<nat>)
    ensures cells == Concat(input)
    ensures distances == StartDistances(cells)
    ensures end == LastIndexOf(cells, 'E')
  {
    cells, distances, end := [], [], None;
    for r := 0 to |input|
      invariant cells == Concat(input[..r])
      invariant distances == StartDistances(cells)
      invariant end == LastIndexOf(cells, 'E')
    {
      cells, distances, end := AddRow(cells, distances, end, input[r]);
      assert input[..r + 1] == input[..r] + [input[r]];
      ConcatAppend(input[..r], input[r]);
    }
    assert input[..|input|] == input;
  }

  /** One more cell adds its start distance at the end. */
  lemma AppendDistance(cells: seq<char>, cell: char)
    ensures StartDistances(cells + [cell]) == StartDistances(cells) + [if cell == 'S' then Finite(0) else Infinite]
  {
    var a := StartDistances(cells + [cell]);
    var b := StartDistances(cells) + [if cell == 'S' then Finite(0) else Infinite];
    forall v | 0 <= v < |a|
      ensures a[v] == b[v]
    {
      if v < |cells| {
        assert (cells + [cell])[v] == cells[v];
      }
    }
  }

  /** One more cell is the last 'E' if it is one. */
  lemma AppendEnd(cells: seq<char>, cell: char)
    ensures LastIndexOf(cells + [cell], 'E') == if cell == 'E' then Some(|cells|) else LastIndexOf(cells, 'E')
  {
    assert (cells + [cell])[..|cells|] == cells;
  }

  /** The inner `for (cell in row)` loop: one node per cell. */
  method AddRow(cells: seq<char>, distances: seq<Distance>, end: Option<nat>, row: string)
    returns (cells': seq<char>, distances': seq<Distance>, end': Option<nat>)
    requires distances == StartDistances(cells) && end == LastIndexOf(cells, 'E')
    ensures cells' == cells + row
    ensures distances' == StartDistances(cells')
    ensures end' == LastIndexOf(cells', 'E')
  {
    cells', distances', end' := cells, distances, end;
    for c := 0 to |row|
      invariant cells' == cells + row[..c]
      invariant distances' == StartDistances(cells')
      invariant end' == LastIndexOf(cells', 'E')
    {
      var cell := row[c];
      var index := |cells'|;
      AppendDistance(cells', cell);
      AppendEnd(cells', cell);
      cells' := cells' + [cell];
      distances' := distances' + [if cell == 'S' then Finite(0) else Infinite];
      if cell == 'E' {
        end' := Some(index);
      }
      assert row[..c + 1] == row[..c] + [cell];
    }
    assert row[..|row|] == row;
  }

  /** The graph `findShortestPath` builds is well formed. */
  lemma LinksWf(cells: seq<char>, rowLength: nat, numRows: nat)
    requires Links(cells, rowLength, numRows).Some?
    ensures Wf(Graph(cells, Links(cells, rowLength, numRows).value, LastIndexOf(cells, 'E')))
  {
    var neighbors := Links(cells, rowLength, numRows).value;
    forall v, k | 0 <= v < |neighbors| && 0 <= k < |neighbors[v]|
      ensures neighbors[v][k] < |cells|
    {
      assert neighbors[v] == NeighborsOf(cells, rowLength, numRows, v).value;
    }
  }

  /**
   * `findShortestPath`: no rows is a failing `first()`, a failing neighbour lookup
   * fails the whole search, and otherwise the search decides.
   */
  ghost function ShortestPathOf(input: seq<string>): Outcome
  {
    if |input| == 0 then Fails
    else
      var cells := Concat(input);
      match Links(cells, |input[0]|, |input|)
      case None => Fails
      case Some(neighbors) =>
        LinksWf(cells, |input[0]|, |input|);
        ShortestPath(Graph(cells, neighbors, LastIndexOf(cells, 'E')))
  }

  method FindShortestPath(input: seq<string>) returns (r: Outcome)
    ensures r == ShortestPathOf(input)
  {
    var cells, distances, end := Build(input);
    if |input| == 0 {
      return Fails;
    }
    var links := Link(cells, |input[0]|, |input|);
    if links.None? {
      return Fails;
    }
    LinksWf(cells, |input[0]|, |input|);
    r := Search(Graph(cells, links.value, end), distances);
  }

  /** `part1`: the search's answer; `error("No path found")` otherwise. */
  method Part1(input: seq<string>) returns (r: Option<nat>)
    ensures ShortestPathOf(input).Found? ==> r == Some(ShortestPathOf(input).steps)
    ensures !ShortestPathOf(input).Found? ==> r.None?
  {
    var outcome := FindShortestPath(input);
    r := if outcome.Found? then Some(outcome.steps) else None;
  }

  // ---------------------------------------------------------------------------
  // Part 2: every lowest cell as the start

  /** `replace("S", "a")`. */
  function LowerStarts(row: string): (r: string)
    ensures |r| == |row|
    ensures forall k :: 0 <= k < |row| ==> r[k] == (if row[k] == 'S' then 'a' else row[k])
  {
    seq(|row|, k requires 0 <= k < |row| => if row[k] == 'S' then 'a' else row[k])
  }

  /** Cell `j` of row `i` is a lowest cell ('a' once the 'S' is lowered). */
  predicate IsCandidate(input: seq<string>, i: nat, j: nat)
  {
    i < |input| && j < |input[i]| && (input[i][j] == 'S' || input[i][j] == 'a')
  }

  /**
   * `enumerateStartingPositions`: row `i` with its 'S' lowered to 'a' and the cell `j`
   * raised to 'S'. The other rows keep their 'S', so a candidate map can have several
   * starts.
   */
  function Candidate(input: seq<string>, i: nat, j: nat): (c: seq<string>)
    requires IsCandidate(input, i, j)
    ensures |c| == |input| && |c[i]| == |input[i]| && c[i][j] == 'S'
  {
    input[i := LowerStarts(input[i])[j := 'S']]
  }

  /** The outcomes of the candidates from the first `j` cells of row `i`, in order. */
  ghost function RowOutcomes(input: seq<string>, i: nat, j: nat): seq<Outcome>
    requires i < |input| && j <= |input[i]|
  {
    if j == 0 then []
    else
      RowOutcomes(input, i, j - 1)
      + (if IsCandidate(input, i, j - 1) then [ShortestPathOf(Candidate(input, i, j - 1))] else [])
  }

  /** The outcomes of all candidates, row by row. */
  ghost function Outcomes(input: seq<string>): seq<Outcome>
  {
    Concat(seq(|input|, i requires 0 <= i < |input| => RowOutcomes(input, i, |input[i]|)))
  }

  /** The outcome of some candidate is `o`. */
  ghost predicate CandidateHas(input: seq<string>, o: Outcome)
  {
    exists i: nat, j: nat :: IsCandidate(input, i, j) && ShortestPathOf(Candidate(input, i, j)) == o
  }

  lemma {:induction false} RowOutcomesHas(input: seq<string>, i: nat, j: nat, k: nat)
    requires i < |input| && j <= |input[i]| && k < j && IsCandidate(input, i, k)
    ensures ShortestPathOf(Candidate(input, i, k)) in RowOutcomes(input, i, j)
  {
    RowOutcomesStep(input, i, j - 1);
    var o := ShortestPathOf(Candidate(input, i, k));
    if k < j - 1 {
      RowOutcomesHas(input, i, j - 1, k);
      assert o in RowOutcomes(input, i, j - 1);
    } else {
      assert RowOutcomes(input, i, j) == RowOutcomes(input, i, j - 1) + [o];
    }
  }

  lemma {:induction false} RowOutcomesFrom(input: seq<string>, i: nat, j: nat, o: Outcome) returns (k: nat)
    requires i < |input| && j <= |input[i]| && o in RowOutcomes(input, i, j)
    ensures k < j && IsCandidate(input, i, k) && ShortestPathOf(Candidate(input, i, k)) == o
  {
    RowOutcomesStep(input, i, j - 1);
    var last := j - 1;
    if IsCandidate(input, i, last) && ShortestPathOf(Candidate(input, i, last)) == o {
      k := last;
    } else {
      var before := RowOutcomes(input, i, last);
      var extra := if IsCandidate(input, i, last) then [ShortestPathOf(Candidate(input, i, last))] else [];
      assert RowOutcomes(input, i, j) == before + extra;
      assert o !in extra;
      k := RowOutcomesFrom(input, i, last, o);
    }
  }

  lemma OutcomesMembership(input: seq<string>, o: Outcome)
    ensures o in Outcomes(input) <==> CandidateHas(input, o)
  {
    var rows := seq(|input|, i requires 0 <= i < |input| => RowOutcomes(input, i, |input[i]|));
    ConcatMembership(rows, o);
    if o in Outcomes(input) {
      var i :| 0 <= i < |rows| && o in rows[i];
      var j := RowOutcomesFrom(input, i, |input[i]|, o);
    }
    if CandidateHas(input, o) {
      var i: nat, j: nat :| IsCandidate(input, i, j) && ShortestPathOf(Candidate(input, i, j)) == o;
      RowOutcomesHas(input, i, |input[i]|, j);
      assert o in rows[i];
    }
  }

  /** What `mapNotNull { findShortestPath(it) }.min()` has seen so far. */
  datatype Tally = Tally(failed: bool, best: Option<nat>)

  function Add(t: Tally, o: Outcome): Tally
  {
    match o
    case Fails => Tally(true, t.best)
    case NotFound => t
    case Found(n) => Tally(t.failed, if t.best.Some? && t.best.value <= n then t.best else Some(n))
  }

  /** The tally of a list of outcomes, taken one outcome at a time. */
  function TallyOf(outcomes: seq<Outcome>): Tally
  {
    if outcomes == [] then Tally(false, None)
    else Add(TallyOf(outcomes[..|outcomes| - 1]), outcomes[|outcomes| - 1])
  }

  /** The tally records a failure anywhere, and the least number found. */
  lemma {:induction false} TallyOfMeaning(outcomes: seq<Outcome>)
    ensures TallyOf(outcomes).failed <==> Fails in outcomes
    ensures TallyOf(outcomes).best.None? <==> forall n :: Found(n) !in outcomes
    ensures TallyOf(outcomes).best.Some? ==> Found(TallyOf(outcomes).best.value) in outcomes
    ensures TallyOf(outcomes).best.Some? ==> forall n :: Found(n) in outcomes ==> TallyOf(outcomes).best.value <= n
    decreases |outcomes|
  {
    if outcomes != [] {
      var init := outcomes[..|outcomes| - 1];
      TallyOfMeaning(init);
      assert outcomes == init + [outcomes[|outcomes| - 1]];
    }
  }

  lemma TallyAppend(outcomes: seq<Outcome>, o: Outcome)
    ensures TallyOf(outcomes + [o]) == Add(TallyOf(outcomes), o)
  {
    assert (outcomes + [o])[..|outcomes|] == outcomes;
  }

  /** `part2`: `min()` of an empty list, or an exception from any candidate, fails. */
  ghost function Part2Spec(input: seq<string>): Option<nat>
  {
    var t := TallyOf(Outcomes(input));
    if t.failed then None else t.best
  }

  /** Part 2 is the least result over the candidates, when none of them fails. */
  lemma Part2IsMinimum(input: seq<string>)
    ensures Part2Spec(input).Some? <==> !CandidateHas(input, Fails) && exists n :: CandidateHas(input, Found(n))
    ensures Part2Spec(input).Some? ==> CandidateHas(input, Found(Part2Spec(input).value))
    ensures Part2Spec(input).Some? ==> forall n :: CandidateHas(input, Found(n)) ==> Part2Spec(input).value <= n
  {
    TallyOfMeaning(Outcomes(input));
    OutcomesMembership(input, Fails);
    forall n
      ensures Found(n) in Outcomes(input) <==> CandidateHas(input, Found(n))
    {
      OutcomesMembership(input, Found(n));
    }
  }

  lemma RowOutcomesStep(input: seq<string>, i: nat, j: nat)
    requires i < |input| && j < |input[i]|
    ensures RowOutcomes(input, i, j + 1) == RowOutcomes(input, i, j)
      + (if IsCandidate(input, i, j) then [ShortestPathOf(Candidate(input, i, j))] else [])
  {
  }

  /** Cell `j` of row `i`: a lowest cell contributes its candidate's outcome. */
  method TallyCell(input: seq<string>, i: nat, j: nat, lowered: string, ghost done: seq<Outcome>, tally: Tally)
    returns (tally': Tally)
    requires i < |input| && j < |input[i]| && lowered == LowerStarts(input[i])
    requires tally == TallyOf(done + RowOutcomes(input, i, j))
    ensures tally' == TallyOf(done + RowOutcomes(input, i, j + 1))
  {
    RowOutcomesStep(input, i, j);
    if lowered[j] == 'a' {
      assert input[i := lowered[j := 'S']] == Candidate(input, i, j);
      var outcome := FindShortestPath(input[i := lowered[j := 'S']]);
      TallyAppend(done + RowOutcomes(input, i, j), outcome);
      assert done + RowOutcomes(input, i, j + 1) == (done + RowOutcomes(input, i, j)) + [outcome];
      tally' := Add(tally, outcome);
    } else {
      assert RowOutcomes(input, i, j + 1) == RowOutcomes(input, i, j) + [];
      assert RowOutcomes(input, i, j) + [] == RowOutcomes(input, i, j);
      tally' := tally;
    }
  }

  /** The candidates of row `i`, tallied onto the outcomes `done` of the rows before it. */
  method TallyRow(input: seq<string>, i: nat, ghost done: seq<Outcome>, tally: Tally) returns (tally': Tally)
    requires i < |input| && tally == TallyOf(done)
    ensures tally' == TallyOf(done + RowOutcomes(input, i, |input[i]|))
  {
    tally' := tally;
    var lowered := LowerStarts(input[i]);
    assert done + RowOutcomes(input, i, 0) == done;
    for j := 0 to |input[i]|
      invariant tally' == TallyOf(done + RowOutcomes(input, i, j))
    {
      tally' := TallyCell(input, i, j, lowered, done, tally');
    }
  }

  method Part2(input: seq<string>) returns (r: Option<nat>)
    ensures r == Part2Spec(input)
  {
    var tally := Tally(false, None);
    ghost var rows := seq(|input|, i requires 0 <= i < |input| => RowOutcomes(input, i, |input[i]|));
    for i := 0 to |input|
      invariant tally == TallyOf(Concat(rows[..i]))
    {
      tally := TallyRow(input, i, Concat(rows[..i]), tally);
      assert rows[..i + 1] == rows[..i] + [rows[i]];
      ConcatAppend(rows[..i], rows[i]);
    }
    assert rows[..|input|] == rows;
    r := if tally.failed then None else tally.best;
  }

  // ---------------------------------------------------------------------------
  // Part 2 is never worse than part 1

  /** Two cells of the same height, of which both or neither is the end. */
  predicate SimilarCell(a: char, b: char)
  {
    Height(a) == Height(b) && (a == 'E' <==> b == 'E')
  }

  predicate Similar(s: seq<char>, t: seq<char>)
  {
    |s| == |t| && forall k :: 0 <= k < |s| ==> SimilarCell(s[k], t[k])
  }

  lemma SimilarNeighbors(a: seq<char>, b: seq<char>, rowLength: nat, numRows: nat, v: nat)
    requires Similar(a, b) && v < |a|
    ensures NeighborsOf(a, rowLength, numRows, v) == NeighborsOf(b, rowLength, numRows, v)
  {
    forall w | 0 <= w < |a|
      ensures Admissible(a, v, w) == Admissible(b, v, w)
    {
      assert SimilarCell(a[v], b[v]) && SimilarCell(a[w], b[w]);
    }
  }

  /** Maps of the same heights have the same edges. */
  lemma SimilarLinks(a: seq<char>, b: seq<char>, rowLength: nat, numRows: nat)
    requires Similar(a, b)
    ensures Links(a, rowLength, numRows) == Links(b, rowLength, numRows)
  {
    forall v | 0 <= v < |a|
      ensures NeighborsOf(a, rowLength, numRows, v) == NeighborsOf(b, rowLength, numRows, v)
    {
      SimilarNeighbors(a, b, rowLength, numRows, v);
    }
    if Links(a, rowLength, numRows).Some? {
      assert Links(b, rowLength, numRows).Some?;
      var la, lb := Links(a, rowLength, numRows).value, Links(b, rowLength, numRows).value;
      assert |la| == |a| == |b| == |lb|;
      forall v | 0 <= v < |a|
        ensures la[v] == lb[v]
      {
        assert la[v] == NeighborsOf(a, rowLength, numRows, v).value;
        assert lb[v] == NeighborsOf(b, rowLength, numRows, v).value;
      }
      assert la == lb;
    } else {
      var v :| 0 <= v < |a| && NeighborsOf(a, rowLength, numRows, v).None?;
      assert NeighborsOf(b, rowLength, numRows, v).None?;
    }
  }

  lemma SimilarEnd(a: seq<char>, b: seq<char>)
    requires Similar(a, b)
    ensures LastIndexOf(a, 'E') == LastIndexOf(b, 'E')
  {
    var ea, eb := LastIndexOf(a, 'E'), LastIndexOf(b, 'E');
    if ea.Some? {
      assert SimilarCell(a[ea.value], b[ea.value]);
    }
    if eb.Some? {
      assert SimilarCell(a[eb.value], b[eb.value]);
    }
  }

  /** A candidate map differs from the original only in lowest cells. */
  lemma CandidateCells(input: seq<string>, i: nat, j: nat)
    requires IsCandidate(input, i, j)
    ensures Similar(Concat(input), Concat(Candidate(input, i, j)))
    ensures |Concat(input[..i])| + j < |Concat(input)|
    ensures Concat(Candidate(input, i, j))[|Concat(input[..i])| + j] == 'S'
  {
    var c := Candidate(input, i, j);
    var before, after := input[..i], input[i + 1..];
    assert input == before + ([input[i]] + after);
    assert c == before + ([c[i]] + after);
    ConcatSplit(before, [input[i]] + after);
    ConcatSplit(before, [c[i]] + after);
    assert ([input[i]] + after)[1..] == after;
    assert ([c[i]] + after)[1..] == after;
    var A, B := Concat(before), Concat(after);
    assert Concat(input) == A + (input[i] + B);
    assert Concat(c) == A + (c[i] + B);
    forall k | 0 <= k < |input[i]|
      ensures SimilarCell(input[i][k], c[i][k])
    {
    }
  }

  /** A candidate map has the original's edges and end; only its starts differ. */
  lemma CandidateGraph(input: seq<string>, i: nat, j: nat)
    requires IsCandidate(input, i, j)
    requires Links(Concat(input), |input[0]|, |input|).Some?
    ensures
      var cells := Concat(Candidate(input, i, j));
      var neighbors := Links(Concat(input), |input[0]|, |input|).value;
      && Links(cells, |input[0]|, |input|) == Some(neighbors)
      && Wf(Graph(cells, neighbors, LastIndexOf(Concat(input), 'E')))
      && ShortestPathOf(Candidate(input, i, j)) == ShortestPath(Graph(cells, neighbors, LastIndexOf(Concat(input), 'E')))
  {
    var c := Candidate(input, i, j);
    CandidateCells(input, i, j);
    assert |c[0]| == |input[0]|;
    SimilarLinks(Concat(input), Concat(c), |input[0]|, |input|);
    SimilarEnd(Concat(input), Concat(c));
    LinksWf(Concat(c), |input[0]|, |input|);
  }

  /** No candidate fails when the original map has a path. */
  lemma CandidateNeverFails(input: seq<string>, i: nat, j: nat)
    requires ShortestPathOf(input).Found? && IsCandidate(input, i, j)
    ensures ShortestPathOf(Candidate(input, i, j)) != Fails
  {
    CandidateGraph(input, i, j);
  }

  /** A walk stays a walk in a graph with the same edges, as long as its first node is a start there. */
  lemma WalkTransfers(g: Graph, h: Graph, p: seq<nat>)
    requires IsWalk(g, p) && |g.cells| == |h.cells| && g.neighbors == h.neighbors && IsStart(h, p[0])
    ensures IsWalk(h, p)
  {
  }

  /** The candidate that starts where the original's shortest walk starts does as well. */
  lemma StartCandidate(input: seq<string>) returns (i: nat, j: nat)
    requires ShortestPathOf(input).Found?
    ensures IsCandidate(input, i, j)
    ensures ShortestPathOf(Candidate(input, i, j)).Found?
    ensures ShortestPathOf(Candidate(input, i, j)).steps <= ShortestPathOf(input).steps
  {
    var cells, n := Concat(input), ShortestPathOf(input).steps;
    var neighbors := Links(cells, |input[0]|, |input|).value;
    var g := Graph(cells, neighbors, LastIndexOf(cells, 'E'));
    LinksWf(cells, |input[0]|, |input|);
    FoundIsShortest(g, n);
    var e := g.end.value;
    var p :| IsWalk(g, p) && |p| == n + 1 && p[n] == e;
    i, j := Locate(input, p[0]);
    CandidateGraph(input, i, j);
    CandidateCells(input, i, j);
    var h := Graph(Concat(Candidate(input, i, j)), neighbors, g.end);
    WalkTransfers(g, h, p);
    assert Reaches(h, e, n);
  }

  /** The original 'S' is among the candidates, so part 2 is at most part 1. */
  lemma Part2AtMostPart1(input: seq<string>)
    requires ShortestPathOf(input).Found?
    ensures Part2Spec(input).Some? && Part2Spec(input).value <= ShortestPathOf(input).steps
  {
    var i, j := StartCandidate(input);
    Part2IsMinimum(input);
    if CandidateHas(input, Fails) {
      var i', j' :| IsCandidate(input, i', j') && ShortestPathOf(Candidate(input, i', j')) == Fails;
      CandidateNeverFails(input, i', j');
    }
    assert CandidateHas(input, Found(ShortestPathOf(Candidate(input, i, j)).steps));
  }
}
