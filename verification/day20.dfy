/**
 * Day 20 (src/Day20.kt): mixing an encrypted file. The numbers sit in a ring of nodes
 * linked both ways; mixing moves each node as many places along the ring as its value
 * says. A node is identified by its position in the input, so the `previous` and `next`
 * links of all nodes are two arrays indexed by node, and node `i` holds `values[i]`.
 */
module Day20 {
  import opened Utils
  import opened Text

  // ---------------------------------------------------------------------------
  // Rings as sequences

  /** `ring` lists every node `0 .. n - 1` exactly once. */
  ghost predicate IsRing(ring: seq<nat>, n: nat)
  {
    |ring| == n
    && (forall t :: 0 <= t < n ==> ring[t] < n)
    && (forall a, b :: 0 <= a < b < n ==> ring[a] != ring[b])
    && (forall x :: 0 <= x < n ==> x in ring)
  }

  /**
   * The links follow `ring` around: the `next` of each node is the one after it and its
   * `previous` the one before it, and the last node links back to the first.
   */
  ghost predicate Linked(ring: seq<nat>, next: seq<nat>, previous: seq<nat>)
  {
    |next| > 0 && |previous| == |next| && IsRing(ring, |next|)
    && (forall t :: 0 <= t < |ring| - 1 ==> next[ring[t]] == ring[t + 1] && previous[ring[t + 1]] == ring[t])
    && next[ring[|ring| - 1]] == ring[0] && previous[ring[0]] == ring[|ring| - 1]
  }

  /** The position of `x` in `ring`. */
  ghost function IndexOf(ring: seq<nat>, x: nat): (p: nat)
    requires x in ring
    ensures p < |ring| && ring[p] == x
  {
    var p :| 0 <= p < |ring| && ring[p] == x; p
  }

  /** The same ring read from position `p` on. */
  function Rotate(ring: seq<nat>, p: nat): (r: seq<nat>)
    requires p < |ring|
    ensures |r| == |ring|
  {
    ring[p..] + ring[..p]
  }

  /** The first node taken out and put back after the next `j` nodes. */
  function Move(ring: seq<nat>, j: nat): (r: seq<nat>)
    requires j < |ring|
    ensures |r| == |ring|
  {
    ring[1..j + 1] + [ring[0]] + ring[j + 1..]
  }

  /** Reading a ring from another position keeps every node exactly once. */
  lemma RotateIsRing(ring: seq<nat>, p: nat)
    requires IsRing(ring, |ring|) && p < |ring|
    ensures IsRing(Rotate(ring, p), |ring|)
  {
    var n := |ring|;
    var r := Rotate(ring, p);
    assert forall t :: 0 <= t < n ==> r[t] == if t < n - p then ring[p + t] else ring[t - (n - p)];
    forall a, b | 0 <= a < b < n
      ensures r[a] != r[b]
    {
    }
    forall x | 0 <= x < n
      ensures x in r
    {
      var i := IndexOf(ring, x);
      if i >= p {
        assert r[i - p] == x;
      } else {
        assert r[i + n - p] == x;
      }
    }
  }

  /** Reading a ring from another position keeps its links. */
  lemma RotateLinked(ring: seq<nat>, next: seq<nat>, previous: seq<nat>, p: nat)
    requires Linked(ring, next, previous) && p < |ring|
    ensures Linked(Rotate(ring, p), next, previous)
    ensures Rotate(ring, p)[0] == ring[p]
  {
    RotateIsRing(ring, p);
    var n := |ring|;
    var r := Rotate(ring, p);
    assert forall t :: 0 <= t < n ==> r[t] == if t < n - p then ring[p + t] else ring[t - (n - p)];
  }

  /** Moving the first node keeps every node exactly once. */
  lemma MoveIsRing(ring: seq<nat>, j: nat)
    requires IsRing(ring, |ring|) && j < |ring|
    ensures IsRing(Move(ring, j), |ring|)
  {
    var n := |ring|;
    var m := Move(ring, j);
    assert forall t :: 0 <= t < n ==> m[t] == if t < j then ring[t + 1] else if t == j then ring[0] else ring[t];
    forall a, b | 0 <= a < b < n
      ensures m[a] != m[b]
    {
    }
    forall x | 0 <= x < n
      ensures x in m
    {
      var i := IndexOf(ring, x);
      if i == 0 {
        assert m[j] == x;
      } else if i <= j {
        assert m[i - 1] == x;
      } else {
        assert m[i] == x;
      }
    }
  }

  /**
   * The links after the first node of `ring` is put between the `j`th and the `j + 1`st
   * of the others: the nodes around its old place link to each other, and it links to
   * its new neighbours.
   */
  function Reinserted(ring: seq<nat>, next: seq<nat>, previous: seq<nat>, j: nat): (seq<nat>, seq<nat>)
    requires 1 <= j <= |ring| - 2
    requires forall t :: 0 <= t < |ring| ==> ring[t] < |next| && ring[t] < |previous|
  {
    var n := |ring|;
    var node, before, after := ring[0], ring[n - 1], ring[1];
    (next[before := after][ring[j] := node][node := ring[j + 1]],
     previous[after := before][ring[j + 1] := node][node := ring[j]])
  }

  /**
   * Taking out the first node and putting it back between the `j`th and `j + 1`st
   * others rewires exactly three `next` and three `previous` links.
   */
  lemma MoveLinked(ring: seq<nat>, next: seq<nat>, previous: seq<nat>, j: nat)
    requires Linked(ring, next, previous) && 1 <= j <= |ring| - 2
    ensures Linked(Move(ring, j), Reinserted(ring, next, previous, j).0, Reinserted(ring, next, previous, j).1)
    ensures Reinserted(ring, next, previous, j).0[ring[|ring| - 1]] == next[ring[0]]
  {
    var n := |ring|;
    var node, before, after := ring[0], ring[n - 1], ring[1];
    var r := Move(ring, j);
    var next' := next[before := after][ring[j] := node][node := ring[j + 1]];
    var previous' := previous[after := before][ring[j + 1] := node][node := ring[j]];
    MoveIsRing(ring, j);
    assert forall t :: 0 <= t < n ==> r[t] == if t < j then ring[t + 1] else if t == j then node else ring[t];
    forall t | 0 <= t < n - 1
      ensures next'[r[t]] == r[t + 1] && previous'[r[t + 1]] == r[t]
    {
      if t < j - 1 {
        assert ring[t + 1] != before && ring[t + 1] != ring[j] && ring[t + 1] != node;
        assert ring[t + 2] != after && ring[t + 2] != ring[j + 1] && ring[t + 2] != node;
      } else if t > j {
        assert ring[t] != before && ring[t] != ring[j] && ring[t] != node;
        assert ring[t + 1] != after && ring[t + 1] != ring[j + 1] && ring[t + 1] != node;
      }
    }
  }

  // ---------------------------------------------------------------------------
  // What mixing does

  /**
   * How many places mixing moves a node with `value` among the other `n - 1` nodes:
   * `value` modulo `n - 1`, never negative.
   */
  function Offset(value: int, n: nat): (j: nat)
    requires n >= 2
    ensures j < n - 1
  {
    value % (n - 1)
  }

  /**
   * The walk of `doMixing` goes `|value| % (size - 1)` steps forward for a positive value
   * and backward for a negative one, and both land where the offset puts the node:
   * `k` steps forward is offset `k`, and `k > 0` steps backward is offset `n - 1 - k`.
   */
  lemma WalkLength(value: int, n: nat)
    requires n >= 2 && value != 0
    ensures var k := if value > 0 then value % (n - 1) else (-value) % (n - 1);
      (k == 0 <==> Offset(value, n) == 0)
      && (value > 0 ==> Offset(value, n) == k)
      && (value < 0 && k != 0 ==> Offset(value, n) == n - 1 - k)
  {
    if value < 0 {
      var m := n - 1;
      var q, k := (-value) / m, (-value) % m;
      assert -value == q * m + k;
      if k != 0 {
        assert value == (-q - 1) * m + (m - k);
        EuclideanRemainder(value, m, -q - 1, m - k);
      } else {
        assert value == (-q) * m;
        EuclideanRemainder(value, m, -q, 0);
      }
    }
  }

  /** The remainder of Euclidean division is the one between `0` and `m - 1`. */
  lemma EuclideanRemainder(a: int, m: int, q: int, r: int)
    requires m > 0 && 0 <= r < m && a == q * m + r
    ensures a % m == r
  {
    var q', r' := a / m, a % m;
    assert a == q' * m + r';
    if q' < q {
      MulMonotone(q' + 1, q, m);
    } else if q' > q {
      MulMonotone(q + 1, q', m);
    }
  }

  /** Whether mixing `node` changes the ring at all. */
  predicate Mixes(values: seq<int>, node: nat)
    requires node < |values|
  {
    values[node] != 0 && |values| >= 2 && Offset(values[node], |values|) != 0
  }

  /**
   * The ring after mixing `node`: read from `node` on, `node` is taken out and put back
   * after `Offset` of the others.
   */
  ghost function Mixed(ring: seq<nat>, values: seq<int>, node: nat): (r: seq<nat>)
    requires IsRing(ring, |values|) && node < |values|
    ensures IsRing(r, |values|)
  {
    if !Mixes(values, node) then ring
    else
      var p := IndexOf(ring, node);
      var j := Offset(values[node], |values|);
      RotateIsRing(ring, p);
      MoveIsRing(Rotate(ring, p), j);
      Move(Rotate(ring, p), j)
  }

  /** A node that mixes is taken out where the ring is read from it and put back `Offset` further on. */
  lemma MixedMoves(ring: seq<nat>, values: seq<int>, node: nat)
    requires IsRing(ring, |values|) && node < |values| && Mixes(values, node)
    ensures Mixed(ring, values, node) == Move(Rotate(ring, IndexOf(ring, node)), Offset(values[node], |values|))
  {
  }

  /**
   * The links `doMixing` rewires once its walk has stopped at `current`: unlink `node`,
   * then put it after `current` for a positive value or before it for a negative one.
   */
  function Relinked(next: seq<nat>, previous: seq<nat>, node: nat, current: nat, forward: bool)
    : (r: (seq<nat>, seq<nat>))
    requires PointAtNodes(next, previous) && node < |next| && current < |next|
    ensures |r.0| == |r.1| == |next|
  {
    var before, after := previous[node], next[node];
    var next1, previous1 := next[before := after], previous[after := before];
    if forward then
      var following := next1[current];
      var next2, previous2 := next1[node := following], previous1[following := node];
      (next2[current := node], previous2[node := current])
    else
      var preceding := previous1[current];
      var next2, previous2 := next1[preceding := node], previous1[node := preceding];
      (next2[node := current], previous2[current := node])
  }

  /** Every link points at one of the `|next|` nodes. */
  ghost predicate PointAtNodes(next: seq<nat>, previous: seq<nat>)
  {
    |previous| == |next| && forall i :: 0 <= i < |next| ==> next[i] < |next| && previous[i] < |next|
  }

  /** Every link of a linked ring points at a node. */
  lemma LinksInRange(ring: seq<nat>, next: seq<nat>, previous: seq<nat>)
    requires Linked(ring, next, previous)
    ensures PointAtNodes(next, previous)
  {
    var n := |next|;
    forall i | 0 <= i < n
      ensures next[i] < n && previous[i] < n
    {
      var t := IndexOf(ring, i);
      if t < n - 1 {
        assert next[ring[t]] == ring[t + 1];
      }
      if t > 0 {
        assert previous[ring[t - 1 + 1]] == ring[t - 1];
      }
    }
  }

  /**
   * As written, a walk of zero steps leaves `current == node`, and the relinking then
   * points the node at itself: the ring is broken, since no node of a linked ring of two
   * or more nodes is its own `next`.
   */
  lemma SelfLinkWhenWalkIsEmpty(ring: seq<nat>, next: seq<nat>, previous: seq<nat>, forward: bool)
    requires Linked(ring, next, previous) && PointAtNodes(next, previous) && |ring| >= 2
    ensures var node := ring[0];
      var r := Relinked(next, previous, node, node, forward);
      r.0[node] == node && forall other :: !Linked(other, r.0, r.1)
  {
    var node := ring[0];
    var r := Relinked(next, previous, node, node, forward);
    assert ring[|ring| - 1] != node;
    forall other | Linked(other, r.0, r.1)
      ensures false
    {
      NoSelfLinks(other, r.0, r.1, node);
    }
  }

  /** In a linked ring of two or more nodes, no node is its own `next`. */
  lemma NoSelfLinks(ring: seq<nat>, next: seq<nat>, previous: seq<nat>, x: nat)
    requires Linked(ring, next, previous) && |ring| >= 2 && x < |ring|
    ensures next[x] != x
  {
    var t := IndexOf(ring, x);
    if t < |ring| - 1 {
      assert next[ring[t]] == ring[t + 1];
    } else {
      assert next[ring[t]] == ring[0];
    }
  }

  // ---------------------------------------------------------------------------
  // The ring buffer

  /** The number of zeros among `items`. */
  function ZeroCount(items: seq<int>): nat
  {
    if items == [] then 0 else ZeroCount(items[..|items| - 1]) + (if items[|items| - 1] == 0 then 1 else 0)
  }

  /** `single { it.value == 0L }` succeeds: exactly one zero, at `zero`. */
  lemma {:induction false} SingleZero(items: seq<int>, zero: nat)
    requires zero < |items| && items[zero] == 0
    ensures ZeroCount(items) == 1 <==> forall i :: 0 <= i < |items| && i != zero ==> items[i] != 0
    decreases |items|
  {
    if zero < |items| - 1 {
      var init := items[..|items| - 1];
      SingleZero(init, zero);
      NoZeros(init);
      assert forall i :: 0 <= i < |init| ==> init[i] == items[i];
    } else {
      NoZeros(items[..|items| - 1]);
    }
  }

  /** No zeros are counted exactly when there are none. */
  lemma {:induction false} NoZeros(items: seq<int>)
    ensures ZeroCount(items) == 0 <==> forall i :: 0 <= i < |items| ==> items[i] != 0
    decreases |items|
  {
    if items != [] {
      var init := items[..|items| - 1];
      NoZeros(init);
      assert forall i :: 0 <= i < |init| ==> init[i] == items[i];
    }
  }

  /** `MutableRingBuffer`: the ring of nodes, where mixing starts and where reading starts. */
  class MutableRingBuffer {
    const values: seq<int>
    const size: nat
    const next: array<nat>
    const previous: array<nat>
    var head: nat
    const zero: nat
    /** The nodes in ring order, from some node on. */
    ghost var ring: seq<nat>

    ghost predicate Valid()
      reads this, next, previous
    {
      size == |values| == next.Length == previous.Length && size > 0 && next != previous
      && zero < size && values[zero] == 0
      && (forall i :: 0 <= i < size && i != zero ==> values[i] != 0)
      && head < size
      && Linked(ring, next[..], previous[..])
    }

    /**
     * `init`: node `i` holds `initialItems[i]` and the nodes are linked in input order,
     * the last back to the first; `head` is the first node. `first()` needs a node and
     * `single` exactly one zero.
     */
    constructor(initialItems: seq<int>)
      requires |initialItems| > 0 && ZeroCount(initialItems) == 1
      ensures Valid() && fresh(next) && fresh(previous)
      ensures values == initialItems && head == 0 && ring == Identity(|initialItems|)
    {
      var n := |initialItems|;
      values := initialItems;
      size := n;
      head := 0;
      var z := 0;
      while initialItems[z] != 0
        invariant 0 <= z < n && forall i :: 0 <= i < z ==> initialItems[i] != 0
        decreases n - z
      {
        if z == n - 1 {
          NoZeros(initialItems);
          assert false;
        }
        z := z + 1;
      }
      zero := z;
      SingleZero(initialItems, z);
      var nextLinks := new nat[n];
      var previousLinks := new nat[n];
      for index := 0 to n
        invariant forall i :: 0 <= i < index ==> previousLinks[i] == (if i == 0 then n - 1 else i - 1)
        invariant forall i :: 0 <= i < index ==> nextLinks[i] == (if i == n - 1 then 0 else i + 1)
      {
        previousLinks[index] := if index - 1 >= 0 then index - 1 else n - 1;
        nextLinks[index] := if index + 1 < n then index + 1 else 0;
      }
      next := nextLinks;
      previous := previousLinks;
      ring := Identity(n);
      new;
      IdentityIsRing(n);
      assert forall t :: 0 <= t < n ==> ring[t] == t;
    }

    /** `link(a, b)`: `b` follows `a`. */
    method Link(a: nat, b: nat)
      requires a < next.Length && b < previous.Length && next != previous
      modifies next, previous
      ensures next[..] == old(next[..])[a := b] && previous[..] == old(previous[..])[b := a]
    {
      next[a] := b;
      previous[b] := a;
    }

    /**
     * `doMixing`: a node with value zero stays; any other node walks `|value| % (size - 1)`
     * steps forward or backward and is reinserted there. A walk of zero steps leaves the
     * ring as it is (see Findings: as written, the node then links to itself).
     */
    method DoMixing(node: nat)
      requires Valid() && node < size
      modifies this, next, previous
      ensures Valid() && head < size
      ensures ring == Mixed(old(ring), values, node)
      ensures !Mixes(values, node) ==> next[..] == old(next[..]) && previous[..] == old(previous[..])
      ensures head == (if old(head) == node && Mixes(values, node) then old(next[node]) else old(head))
    {
      if values[node] == 0 {
        assert !Mixes(values, node);
        return;
      }
      var steps := if values[node] > 0 then values[node] % (size - 1) else (-values[node]) % (size - 1);
      WalkLength(values[node], size);
      if steps == 0 {
        assert !Mixes(values, node);
        return;
      }
      assert node != zero && size >= 2;
      assert Mixes(values, node);
      ghost var oldRing := ring;
      ghost var p := IndexOf(ring, node);
      RotateLinked(ring, next[..], previous[..], p);
      ring := Rotate(ring, p);
      ghost var j := Offset(values[node], size);
      MoveFirst(node, steps, values[node] > 0, j);
      MixedMoves(oldRing, values, node);
    }

    /**
     * The walk and relinking of `doMixing` for `node`, first in `ring`, which moves it
     * `j` places forward: `j` steps forward, or `size - 1 - j` steps backward. When it
     * was `head`, the node after it becomes `head`.
     */
    method MoveFirst(node: nat, steps: nat, forward: bool, ghost j: nat)
      requires Valid() && ring[0] == node && 1 <= j <= size - 2
      requires forward ==> steps == j
      requires !forward ==> steps == size - 1 - j
      modifies this, next, previous
      ensures Valid() && ring == Move(old(ring), j)
      ensures head == if old(head) == node then old(next[node]) else old(head)
    {
      LinksInRange(ring, next[..], previous[..]);
      ghost var next0, previous0 := next[..], previous[..];
      var oldPrevious := previous[node];
      assert oldPrevious == ring[size - 1];
      var current := Walk(node, steps, forward);
      Relink(node, current, forward);
      ghost var linked := Relinked(next0, previous0, node, current, forward);
      assert next[..] == linked.0 && previous[..] == linked.1;
      RelinkedMoves(ring, next0, previous0, j, current, forward);
      MoveLinked(ring, next0, previous0, j);
      assert next[oldPrevious] == next0[node];
      if node == head {
        head := next[oldPrevious];
      }
      ring := Move(ring, j);
    }

    /**
     * The walk of `doMixing` from `node`, first in `ring`: `steps` times to the `next`
     * node going forward, or to the `previous` one going backward.
     */
    method Walk(node: nat, steps: nat, forward: bool) returns (current: nat)
      requires Valid() && ring[0] == node && steps < size
      ensures forward ==> current == ring[steps]
      ensures !forward ==> current == ring[if steps == 0 then 0 else size - steps]
    {
      current := node;
      if forward {
        for i := 0 to steps
          invariant current == ring[i]
        {
          current := next[current];
        }
      } else {
        for i := 0 to steps
          invariant current == ring[if i == 0 then 0 else size - i]
        {
          current := previous[current];
        }
      }
    }

    /**
     * The relinking of `doMixing` once the walk has stopped at `current`: `node` is
     * unlinked, then linked in after `current` going forward or before it going backward.
     */
    method Relink(node: nat, current: nat, forward: bool)
      requires next != previous && node < next.Length && current < next.Length
      requires PointAtNodes(next[..], previous[..])
      modifies next, previous
      ensures (next[..], previous[..]) == Relinked(old(next[..]), old(previous[..]), node, current, forward)
    {
      Link(previous[node], next[node]);
      if forward {
        Link(node, next[current]);
        Link(current, node);
      } else {
        Link(previous[current], node);
        Link(node, current);
      }
    }

    /** `get(index)`: the node `index % size` steps after the zero node. */
    method Get(index: nat) returns (node: nat)
      requires Valid()
      ensures node == Rotate(ring, IndexOf(ring, zero))[index % size]
    {
      var optimizedIndex := index % size;
      ghost var r := Rotate(ring, IndexOf(ring, zero));
      RotateLinked(ring, next[..], previous[..], IndexOf(ring, zero));
      var current := zero;
      for i := 0 to optimizedIndex
        invariant current == r[i]
      {
        current := next[current];
      }
      return current;
    }

    /** `iterator`: the `size` nodes from `head` on, in ring order. */
    method ToList() returns (nodes: seq<nat>)
      requires Valid()
      ensures nodes == Rotate(ring, IndexOf(ring, head)) && IsRing(nodes, size)
    {
      RotateIsRing(ring, IndexOf(ring, head));
      ghost var r := Rotate(ring, IndexOf(ring, head));
      RotateLinked(ring, next[..], previous[..], IndexOf(ring, head));
      nodes := [];
      var current := head;
      for i := 0 to size
        invariant nodes == r[..i]
        invariant i < size ==> current == r[i]
      {
        nodes := nodes + [current];
        current := next[current];
      }
    }
  }

  /**
   * Once the walk from the first node has stopped next to the gap between the `j`th and
   * the `j + 1`st of the others, the relinking puts the node into that gap.
   */
  lemma RelinkedMoves(ring: seq<nat>, next: seq<nat>, previous: seq<nat>, j: nat, current: nat, forward: bool)
    requires Linked(ring, next, previous) && 1 <= j <= |ring| - 2
    requires forward ==> current == ring[j]
    requires !forward ==> current == ring[j + 1]
    requires PointAtNodes(next, previous)
    ensures Relinked(next, previous, ring[0], current, forward) == Reinserted(ring, next, previous, j)
  {
    var n := |ring|;
    var node, before, after, a, z := ring[0], ring[n - 1], ring[1], ring[j], ring[j + 1];
    assert next[a] == z && previous[z] == a;
    assert next[node] == after && previous[node] == before;
    assert node != a && node != z && before != a && after != z;
    var next1: seq<nat> := next[before := after];
    var previous1: seq<nat> := previous[after := before];
    if forward {
      assert next1[a] == z;
      assert next1[node := z][a := node] == next1[a := node][node := z];
    } else {
      assert previous1[z] == a;
      assert previous1[node := a][z := node] == previous1[z := node][node := a];
    }
  }

  // ---------------------------------------------------------------------------
  // The answers

  /** The nodes in input order. */
  function Identity(n: nat): (r: seq<nat>)
    ensures |r| == n
  {
    seq(n, i => i)
  }

  /** Mixing the nodes of `order` one after the other. */
  ghost function MixAll(ring: seq<nat>, values: seq<int>, order: seq<nat>): (r: seq<nat>)
    requires IsRing(ring, |values|) && forall k :: 0 <= k < |order| ==> order[k] < |values|
    ensures IsRing(r, |values|)
    decreases |order|
  {
    if order == [] then ring
    else Mixed(MixAll(ring, values, order[..|order| - 1]), values, order[|order| - 1])
  }

  /** `rounds` rounds of mixing every node in input order. */
  ghost function MixRounds(ring: seq<nat>, values: seq<int>, rounds: nat): (r: seq<nat>)
    requires IsRing(ring, |values|)
    ensures IsRing(r, |values|)
  {
    if rounds == 0 then ring else MixAll(MixRounds(ring, values, rounds - 1), values, Identity(|values|))
  }

  /** The sum of the values 1000, 2000 and 3000 places after the zero node. */
  ghost function GroveCoordinates(ring: seq<nat>, values: seq<int>, zero: nat): int
    requires IsRing(ring, |values|) && zero < |values|
  {
    var n := |values|;
    var r := Rotate(ring, IndexOf(ring, zero));
    values[r[1000 % n]] + values[r[2000 % n]] + values[r[3000 % n]]
  }

  /** The input the ring buffer accepts: numbers, at least one, exactly one zero. */
  predicate Decodable(items: Option<seq<int>>)
  {
    items.Some? && |items.value| > 0 && ZeroCount(items.value) == 1
  }

  /** The answer after `rounds` rounds of mixing `values`, read from the zero at `zero`. */
  ghost function Decrypted(values: seq<int>, zero: nat, rounds: nat): int
    requires |values| > 0 && zero < |values|
  {
    IdentityIsRing(|values|);
    GroveCoordinates(MixRounds(Identity(|values|), values, rounds), values, zero)
  }

  lemma IdentityIsRing(n: nat)
    ensures IsRing(Identity(n), n)
  {
    var r := Identity(n);
    forall x | 0 <= x < n
      ensures x in r
    {
      assert r[x] == x;
    }
  }

  /** Mixing every node of a freshly built ring buffer once, in input order. */
  method MixOnce(buffer: MutableRingBuffer, initialNodes: seq<nat>, ghost start: seq<nat>)
    requires buffer.Valid() && initialNodes == Identity(buffer.size) && buffer.ring == start
    modifies buffer, buffer.next, buffer.previous
    ensures buffer.Valid() && IsRing(start, |buffer.values|)
    ensures buffer.ring == MixAll(start, buffer.values, initialNodes)
  {
    for k := 0 to |initialNodes|
      invariant buffer.Valid() && IsRing(start, |buffer.values|)
      invariant buffer.ring == MixAll(start, buffer.values, initialNodes[..k])
    {
      MixAllStep(start, buffer.values, initialNodes, k);
      buffer.DoMixing(initialNodes[k]);
    }
    assert initialNodes[..|initialNodes|] == initialNodes;
  }

  /** Mixing one more node of `order` mixes it into the ring the earlier ones left. */
  lemma MixAllStep(ring: seq<nat>, values: seq<int>, order: seq<nat>, k: nat)
    requires IsRing(ring, |values|) && k < |order|
    requires forall i :: 0 <= i < |order| ==> order[i] < |values|
    ensures MixAll(ring, values, order[..k + 1])
         == Mixed(MixAll(ring, values, order[..k]), values, order[k])
  {
    assert order[..k + 1][..k] == order[..k];
  }

  /** The grove coordinates read with `get`. */
  method ReadCoordinates(buffer: MutableRingBuffer) returns (r: int)
    requires buffer.Valid()
    ensures IsRing(buffer.ring, |buffer.values|)
    ensures r == GroveCoordinates(buffer.ring, buffer.values, buffer.zero)
  {
    var a := buffer.Get(1000);
    var b := buffer.Get(2000);
    var c := buffer.Get(3000);
    r := buffer.values[a] + buffer.values[b] + buffer.values[c];
  }

  /** `part1`: mix once and read the coordinates; `toLong`, `first` and `single` must succeed. */
  method Part1(input: seq<string>) returns (r: Option<int>)
    ensures r.Some? <==> Decodable(ParseInts(input))
    ensures r.Some? ==> exists zero :: (0 <= zero < |input| && ParseInts(input).value[zero] == 0 &&
                                        r.value == Decrypted(ParseInts(input).value, zero, 1))
  {
    var items := ParseInts(input);
    if items.None? || |items.value| == 0 || ZeroCount(items.value) != 1 {
      return None;
    }
    var buffer := new MutableRingBuffer(items.value);
    var initialNodes := buffer.ToList();
    IdentityIsRing(buffer.size);
    assert Rotate(buffer.ring, IndexOf(buffer.ring, 0)) == buffer.ring;
    MixOnce(buffer, initialNodes, buffer.ring);
    assert buffer.ring == MixRounds(Identity(buffer.size), items.value, 1);
    var coordinates := ReadCoordinates(buffer);
    assert coordinates == Decrypted(items.value, buffer.zero, 1);
    assert buffer.zero < |input| && items.value[buffer.zero] == 0;
    r := Some(coordinates);
  }

  /** The decryption key `part2` multiplies every number by. */
  const DecryptionKey: int := 811589153

  /** Every number multiplied by `key`. */
  function Scaled(items: seq<int>, key: int): (r: seq<int>)
    ensures |r| == |items| && forall i :: 0 <= i < |items| ==> r[i] == items[i] * key
    ensures key != 0 ==> forall i :: 0 <= i < |items| ==> (r[i] == 0 <==> items[i] == 0)
  {
    seq(|items|, i requires 0 <= i < |items| => items[i] * key)
  }

  /** Multiplying by a key other than zero keeps the zeros where they are and adds none. */
  lemma {:induction false} ScaledZeroCount(items: seq<int>, key: int)
    requires key != 0
    ensures ZeroCount(Scaled(items, key)) == ZeroCount(items)
    decreases |items|
  {
    if items != [] {
      var init := items[..|items| - 1];
      ScaledZeroCount(init, key);
      assert Scaled(items, key)[..|items| - 1] == Scaled(init, key);
    }
  }

  /** `part2`: multiply by the key, mix ten times and read the coordinates. */
  method Part2(input: seq<string>) returns (r: Option<int>)
    ensures r.Some? <==> Decodable(ParseInts(input))
    ensures r.Some? ==> exists zero :: (0 <= zero < |input| && ParseInts(input).value[zero] == 0 &&
                                        r.value == Decrypted(Scaled(ParseInts(input).value, DecryptionKey), zero, 10))
  {
    var items := ParseInts(input);
    if items.None? || |items.value| == 0 || ZeroCount(items.value) != 1 {
      return None;
    }
    var values := Scaled(items.value, DecryptionKey);
    ScaledZeroCount(items.value, DecryptionKey);
    var buffer := new MutableRingBuffer(values);
    var initialNodes := buffer.ToList();
    IdentityIsRing(buffer.size);
    assert Rotate(buffer.ring, IndexOf(buffer.ring, 0)) == buffer.ring;
    ghost var start := buffer.ring;
    for round := 0 to 10
      invariant buffer.Valid() && fresh(buffer.next) && fresh(buffer.previous)
      invariant buffer.ring == MixRounds(start, values, round)
    {
      MixOnce(buffer, initialNodes, buffer.ring);
    }
    var coordinates := ReadCoordinates(buffer);
    assert coordinates == Decrypted(values, buffer.zero, 10);
    assert buffer.zero < |input| && items.value[buffer.zero] == 0;
    r := Some(coordinates);
  }
}
