/**
 * Day 9 (src/Day09.kt): a rope of knots on a grid. The head moves one step at a time,
 * every other knot follows its predecessor, and the positions the tail visits are counted.
 */
module Day09 {
  import opened Utils
  import opened Text

  datatype HeadDirection = Up | UpRight | Right | DownRight | Down | DownLeft | Left | UpLeft
  {
    function X(): int
    {
      match this
      case Up => 0
      case UpRight => 1
      case Right => 1
      case DownRight => 1
      case Down => 0
      case DownLeft => -1
      case Left => -1
      case UpLeft => -1
    }

    function Y(): int
    {
      match this
      case Up => 1
      case UpRight => 1
      case Right => 0
      case DownRight => -1
      case Down => -1
      case DownLeft => -1
      case Left => 0
      case UpLeft => 1
    }
  }

  datatype RopePosition = RopePosition(x: int, y: int)

  const Origin := RopePosition(0, 0)

  /** `plus`: one step in a direction. */
  function Plus(p: RopePosition, d: HeadDirection): (r: RopePosition)
    ensures r != p && Touches(p, r)
  {
    RopePosition(p.x + d.X(), p.y + d.Y())
  }

  /** Every direction moves at most one unit along each axis. */
  lemma DirectionIsUnit(d: HeadDirection)
    ensures -1 <= d.X() <= 1 && -1 <= d.Y() <= 1 && (d.X() != 0 || d.Y() != 0)
  {
  }

  /** `touches`: the two positions are equal or adjacent, diagonals included. */
  predicate Touches(a: RopePosition, b: RopePosition)
  {
    Abs(a.x - b.x) <= 1 && Abs(a.y - b.y) <= 1
  }

  /** Two knots touch exactly when they coincide or one step in some direction leads from one
      to the other. */
  lemma TouchesIsOneStep(a: RopePosition, b: RopePosition)
    ensures Touches(a, b) <==> a == b || exists d: HeadDirection :: Plus(a, d) == b
  {
    if Touches(a, b) && a != b {
      var dx, dy := b.x - a.x, b.y - a.y;
      var d :=
        if dx == 0 && dy == 1 then Up
        else if dx == 1 && dy == 1 then UpRight
        else if dx == 1 && dy == 0 then Right
        else if dx == 1 && dy == -1 then DownRight
        else if dx == 0 && dy == -1 then Down
        else if dx == -1 && dy == -1 then DownLeft
        else if dx == -1 && dy == 0 then Left
        else UpLeft;
      assert Plus(a, d) == b;
    }
  }

  lemma TouchesReflexiveSymmetric(a: RopePosition, b: RopePosition)
    ensures Touches(a, a)
    ensures Touches(a, b) == Touches(b, a)
  {
  }

  function Sign(v: int): int
  {
    if v > 0 then 1 else if v < 0 then -1 else 0
  }

  /** `directionTowards`: none while the knots touch; otherwise the step that brings the
      knot closer to `other` along each axis where they differ. */
  function DirectionTowards(p: RopePosition, other: RopePosition): (r: Option<HeadDirection>)
    ensures r.None? <==> Touches(p, other)
    ensures r.Some? ==> r.value.X() == Sign(other.x - p.x) && r.value.Y() == Sign(other.y - p.y)
  {
    if Touches(p, other) then None
    else if p.x == other.x then (if p.y < other.y then Some(Up) else Some(Down))
    else if p.y == other.y then (if p.x < other.x then Some(Right) else Some(Left))
    else if p.x < other.x then (if p.y < other.y then Some(UpRight) else Some(DownRight))
    else (if p.y < other.y then Some(UpLeft) else Some(DownLeft))
  }

  /** Where a knot goes once its successor has moved. */
  function Follow(knot: RopePosition, successor: RopePosition): RopePosition
  {
    match DirectionTowards(knot, successor)
    case None => knot
    case Some(d) => Plus(knot, d)
  }

  /** A knot that touched its successor before the successor moved by at most one unit per
      axis moves by at most one unit per axis itself, and touches the successor again. */
  lemma FollowCatchesUp(knot: RopePosition, before: RopePosition, after: RopePosition)
    requires Touches(knot, before)
    requires MovedByOne(after, before)
    ensures Touches(Follow(knot, after), after)
    ensures MovedByOne(Follow(knot, after), knot)
  {
  }

  // ---------------------------------------------------------------------------
  // One step of the whole rope

  /** The first `n` knots of the rope after the head stepped in direction `d`: the head moves,
      then each knot follows the already moved knot before it. */
  function StepPrefix(rope: seq<RopePosition>, d: HeadDirection, n: nat): (r: seq<RopePosition>)
    requires n <= |rope|
    ensures |r| == n
  {
    if n == 0 then []
    else
      var moved := StepPrefix(rope, d, n - 1);
      moved + [if n == 1 then Plus(rope[0], d) else Follow(rope[n - 1], moved[n - 2])]
  }

  function Step(rope: seq<RopePosition>, d: HeadDirection): (r: seq<RopePosition>)
    ensures |r| == |rope|
  {
    StepPrefix(rope, d, |rope|)
  }

  /** Every knot touches the knot before it. */
  ghost predicate Taut(rope: seq<RopePosition>)
  {
    forall i :: 1 <= i < |rope| ==> Touches(rope[i], rope[i - 1])
  }

  /** The last knot of a prefix, once the knots before it have moved. */
  lemma StepPrefixLast(rope: seq<RopePosition>, d: HeadDirection, n: nat)
    requires 0 < n <= |rope|
    ensures StepPrefix(rope, d, n) == StepPrefix(rope, d, n - 1) +
      [if n == 1 then Plus(rope[0], d) else Follow(rope[n - 1], StepPrefix(rope, d, n - 1)[n - 2])]
  {
  }

  /** Knot by knot: the head takes the step and every knot moves by at most one unit per axis. */
  lemma {:induction false} StepPrefixMoves(rope: seq<RopePosition>, d: HeadDirection, n: nat)
    requires n <= |rope| && Taut(rope)
    ensures n > 0 ==> StepPrefix(rope, d, n)[0] == Plus(rope[0], d)
    ensures forall i :: 0 <= i < n ==> MovedByOne(StepPrefix(rope, d, n)[i], rope[i])
  {
    if n > 0 {
      StepPrefixMoves(rope, d, n - 1);
      StepPrefixLast(rope, d, n);
      var moved := StepPrefix(rope, d, n - 1);
      var r := StepPrefix(rope, d, n);
      var last := r[n - 1];
      if n == 1 {
        DirectionIsUnit(d);
      } else {
        FollowCatchesUp(rope[n - 1], rope[n - 2], moved[n - 2]);
      }
      assert MovedByOne(last, rope[n - 1]);
      forall i | 0 <= i < n
        ensures MovedByOne(r[i], rope[i])
      {
        if i < n - 1 {
          assert r[i] == moved[i];
        }
      }
    }
  }

  /** Knot by knot: every moved knot touches the moved knot before it. */
  lemma {:induction false} StepPrefixTouches(rope: seq<RopePosition>, d: HeadDirection, n: nat)
    requires n <= |rope| && Taut(rope)
    ensures forall i :: 1 <= i < n ==> Touches(StepPrefix(rope, d, n)[i], StepPrefix(rope, d, n)[i - 1])
  {
    if n > 1 {
      StepPrefixTouches(rope, d, n - 1);
      StepPrefixMoves(rope, d, n - 1);
      StepPrefixLast(rope, d, n);
      var moved := StepPrefix(rope, d, n - 1);
      var r := StepPrefix(rope, d, n);
      FollowCatchesUp(rope[n - 1], rope[n - 2], moved[n - 2]);
      assert Touches(r[n - 1], r[n - 2]);
      forall i | 1 <= i < n - 1
        ensures Touches(r[i], r[i - 1])
      {
        assert r[i] == moved[i] && r[i - 1] == moved[i - 1];
      }
    }
  }

  /** `p` is at most one unit away from `q` along each axis. */
  predicate MovedByOne(p: RopePosition, q: RopePosition)
  {
    Abs(p.x - q.x) <= 1 && Abs(p.y - q.y) <= 1
  }

  /** A step moves the head by exactly one step of `d`, moves every other knot by at most one
      unit per axis, keeps the length, and keeps the rope taut. */
  lemma StepKeepsTaut(rope: seq<RopePosition>, d: HeadDirection)
    requires Taut(rope) && |rope| >= 1
    ensures var r := Step(rope, d);
      |r| == |rope| && r[0] == Plus(rope[0], d) && Taut(r) &&
      forall i :: 0 <= i < |r| ==> MovedByOne(r[i], rope[i])
  {
    StepPrefixMoves(rope, d, |rope|);
    StepPrefixTouches(rope, d, |rope|);
  }

  /** A rope of `length` knots, all at the origin. */
  function StartRope(length: nat): (r: seq<RopePosition>)
    ensures |r| == length && Taut(r)
  {
    seq(length, _ => Origin)
  }

  // ---------------------------------------------------------------------------
  // The simulation as a function of the moves

  /** The rope and the set of positions its tail has visited. */
  datatype Simulation = Simulation(rope: seq<RopePosition>, visited: set<RopePosition>)
  {
    ghost predicate Valid()
    {
      |rope| >= 1 && Taut(rope) && rope[|rope| - 1] in visited && Origin in visited
    }
  }

  function StepSimulation(s: Simulation, d: HeadDirection): Simulation
    requires |s.rope| >= 1
  {
    var rope := Step(s.rope, d);
    Simulation(rope, s.visited + {rope[|rope| - 1]})
  }

  /** `repeat(amount)`: no step at all when the amount is not positive. */
  function RepeatSteps(s: Simulation, d: HeadDirection, amount: int): (r: Simulation)
    requires |s.rope| >= 1
    ensures |r.rope| == |s.rope|
    decreases if amount < 0 then 0 else amount
  {
    if amount <= 0 then s else StepSimulation(RepeatSteps(s, d, amount - 1), d)
  }

  datatype HeadMove = HeadMove(direction: HeadDirection, amount: int)

  function RunMoves(s: Simulation, moves: seq<HeadMove>): (r: Simulation)
    requires |s.rope| >= 1
    ensures |r.rope| == |s.rope|
  {
    if moves == [] then s
    else
      var m := moves[|moves| - 1];
      RepeatSteps(RunMoves(s, moves[..|moves| - 1]), m.direction, m.amount)
  }

  /** A step keeps the simulation valid: the rope stays taut, the visited set only grows and
      holds the new tail. */
  lemma StepSimulationValid(s: Simulation, d: HeadDirection)
    requires s.Valid()
    ensures StepSimulation(s, d).Valid()
    ensures s.visited <= StepSimulation(s, d).visited
  {
    StepKeepsTaut(s.rope, d);
  }

  lemma {:induction false} RepeatStepsValid(s: Simulation, d: HeadDirection, amount: int)
    requires s.Valid()
    ensures RepeatSteps(s, d, amount).Valid()
    ensures s.visited <= RepeatSteps(s, d, amount).visited
    decreases if amount < 0 then 0 else amount
  {
    if amount > 0 {
      RepeatStepsValid(s, d, amount - 1);
      StepSimulationValid(RepeatSteps(s, d, amount - 1), d);
    }
  }

  /** Any sequence of moves keeps the rope taut, and the visited set grows from its start. */
  lemma {:induction false} RunMovesValid(s: Simulation, moves: seq<HeadMove>)
    requires s.Valid()
    ensures RunMoves(s, moves).Valid()
    ensures s.visited <= RunMoves(s, moves).visited
  {
    if moves != [] {
      var m := moves[|moves| - 1];
      RunMovesValid(s, moves[..|moves| - 1]);
      RepeatStepsValid(RunMoves(s, moves[..|moves| - 1]), m.direction, m.amount);
    }
  }

  // ---------------------------------------------------------------------------
  // The simulator

  class RopeSimulator {
    var rope: seq<RopePosition>
    var visitedByTail: set<RopePosition>

    ghost predicate Valid()
      reads this
    {
      Simulation(rope, visitedByTail).Valid()
    }

    /** `length` knots at the origin; the tail has visited the origin. */
    constructor(length: nat)
      requires length >= 1
      ensures Valid()
      ensures rope == StartRope(length) && visitedByTail == {Origin}
    {
      rope := StartRope(length);
      visitedByTail := {Origin};
    }

    function NumberOfTouchedByTail(): (n: nat)
      reads this
      ensures Valid() ==> n >= 1
    {
      |visitedByTail|
    }

    /** The private `moveHead(direction)`: the new rope is built knot by knot, each knot following
        the already moved knot before it, and the new tail is recorded. */
    method MoveHeadStep(direction: HeadDirection)
      requires Valid()
      modifies this
      ensures Valid()
      ensures Simulation(rope, visitedByTail) == StepSimulation(old(Simulation(rope, visitedByTail)), direction)
    {
      var newRope: seq<RopePosition> := [];
      for i := 0 to |rope|
        invariant newRope == StepPrefix(rope, direction, i)
      {
        if i == 0 {
          newRope := newRope + [Plus(rope[0], direction)];
        } else {
          var currentTail := rope[i];
          var successor := newRope[i - 1];
          var adjustDirection := DirectionTowards(currentTail, successor);
          if adjustDirection.Some? {
            newRope := newRope + [Plus(currentTail, adjustDirection.value)];
          } else {
            newRope := newRope + [currentTail];
          }
        }
      }
      StepSimulationValid(Simulation(rope, visitedByTail), direction);
      rope := newRope;
      visitedByTail := visitedByTail + {rope[|rope| - 1]};
    }

    /** `moveHead(move)`: `amount` single steps. */
    method MoveHead(move: HeadMove)
      requires Valid()
      modifies this
      ensures Valid()
      ensures Simulation(rope, visitedByTail) ==
        RepeatSteps(old(Simulation(rope, visitedByTail)), move.direction, move.amount)
    {
      ghost var start := Simulation(rope, visitedByTail);
      var k := 0;
      while k < move.amount
        invariant 0 <= k <= (if move.amount > 0 then move.amount else 0)
        invariant Valid()
        invariant Simulation(rope, visitedByTail) == RepeatSteps(start, move.direction, k)
      {
        ghost var before := Simulation(rope, visitedByTail);
        MoveHeadStep(move.direction);
        assert RepeatSteps(start, move.direction, k + 1) == StepSimulation(before, move.direction);
        k := k + 1;
      }
    }
  }

  // ---------------------------------------------------------------------------
  // Parsing and the two parts

  /** `toHeadDirection`: only the four straight directions are named in the input. */
  function ToHeadDirection(s: string): (r: Option<HeadDirection>)
    ensures r.Some? ==> r.value in {Up, Right, Down, Left}
  {
    if s == "U" then Some(Up)
    else if s == "R" then Some(Right)
    else if s == "D" then Some(Down)
    else if s == "L" then Some(Left)
    else None
  }

  /** `toHeadMove`: "direction amount"; further pieces are ignored. */
  function ToHeadMove(line: string): Option<HeadMove>
  {
    var parts := SplitOn(line, ' ');
    if |parts| < 2 then None
    else match (ToHeadDirection(parts[0]), ParseInt(parts[1]))
      case (Some(d), Some(n)) => Some(HeadMove(d, n))
      case _ => None
  }

  function ToHeadMoves(input: seq<string>): (r: Option<seq<HeadMove>>)
    ensures r.Some? <==> forall i :: 0 <= i < |input| ==> ToHeadMove(input[i]).Some?
  {
    MapAll(ToHeadMove, input)
  }

  /** The number of positions the tail of a rope of `length` knots visits. */
  ghost function Visited(input: seq<string>, length: nat): Option<nat>
    requires length >= 1
  {
    match ToHeadMoves(input)
    case None => None
    case Some(moves) => Some(|RunMoves(Simulation(StartRope(length), {Origin}), moves).visited|)
  }

  /** The tail always visits the origin, so a successful count is at least 1. */
  lemma VisitedAtLeastOne(input: seq<string>, length: nat)
    requires length >= 1 && Visited(input, length).Some?
    ensures Visited(input, length).value >= 1
  {
    var moves := ToHeadMoves(input).value;
    var s := Simulation(StartRope(length), {Origin});
    RunMovesValid(s, moves);
    var v := RunMoves(s, moves).visited;
    assert Origin in v;
    assert |v| >= |{Origin}| by {
      assert {Origin} <= v;
    }
  }

  /** Running one more move repeats its steps on the simulation so far. */
  lemma RunMovesNext(s: Simulation, moves: seq<HeadMove>, i: nat)
    requires |s.rope| >= 1 && i < |moves|
    ensures RunMoves(s, moves[..i + 1]) == RepeatSteps(RunMoves(s, moves[..i]), moves[i].direction, moves[i].amount)
  {
    assert moves[..i + 1][..i] == moves[..i];
    assert moves[..i + 1][i] == moves[i];
  }

  /** Parse all moves, then run them on a fresh simulator. */
  method CountVisited(input: seq<string>, length: nat) returns (r: Option<nat>)
    requires length >= 1
    ensures r == Visited(input, length)
  {
    var parsed := ToHeadMoves(input);
    if parsed.None? {
      return None;
    }
    var moves := parsed.value;
    var simulator := new RopeSimulator(length);
    ghost var start := Simulation(StartRope(length), {Origin});
    for i := 0 to |moves|
      invariant simulator.Valid()
      invariant Simulation(simulator.rope, simulator.visitedByTail) == RunMoves(start, moves[..i])
    {
      RunMovesNext(start, moves, i);
      simulator.MoveHead(moves[i]);
    }
    assert moves[..|moves|] == moves;
    return Some(simulator.NumberOfTouchedByTail());
  }

  /** Part 1: a rope of two knots. */
  method Part1(input: seq<string>) returns (r: Option<nat>)
    ensures r == Visited(input, 2)
  {
    r := CountVisited(input, 2);
  }

  /** Part 2: a rope of ten knots. */
  method Part2(input: seq<string>) returns (r: Option<nat>)
    ensures r == Visited(input, 10)
  {
    r := CountVisited(input, 10);
  }
}
