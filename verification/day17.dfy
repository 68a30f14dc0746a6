/**
 * Day 17 (src/Day17.kt): rocks of five shapes fall one after another into a chamber seven
 * units wide, pushed sideways by a repeating jet pattern. The answer is the height of the
 * tower after a given number of rocks. Once the jet position, the next shape and the top of
 * the tower repeat an earlier state, whole repetitions of that cycle are skipped.
 */
module Day17 {
  import opened Utils

  // ---------------------------------------------------------------------------
  // Points, directions and rocks

  /** A cell of the chamber; `y` counts up from the floor row 1. */
  datatype Point = Point(x: int, y: int)

  datatype SearchDirection = Right | Down | Left | Up

  function RotatedCounterClockwise(d: SearchDirection): SearchDirection
  {
    match d
    case Right => Up
    case Down => Right
    case Left => Down
    case Up => Left
  }

  /** A clockwise turn is undone by a counter-clockwise one. */
  function RotatedClockwise(d: SearchDirection): (r: SearchDirection)
    ensures RotatedCounterClockwise(r) == d
  {
    match d
    case Right => Down
    case Down => Left
    case Left => Up
    case Up => Right
  }

  /** The two rotations are mutual inverses, and four clockwise turns are no turn at all. */
  lemma RotationsInverse(d: SearchDirection)
    ensures RotatedClockwise(RotatedCounterClockwise(d)) == d
    ensures RotatedClockwise(RotatedClockwise(RotatedClockwise(RotatedClockwise(d)))) == d
  {
  }

  /** `move`: one unit in the direction. */
  function Move(p: Point, d: SearchDirection): (r: Point)
    ensures Abs(r.x - p.x) + Abs(r.y - p.y) == 1
  {
    match d
    case Right => Point(p.x + 1, p.y)
    case Down => Point(p.x, p.y - 1)
    case Left => Point(p.x - 1, p.y)
    case Up => Point(p.x, p.y + 1)
  }

  /** Turning round twice walks back to the start. */
  lemma MoveBack(p: Point, d: SearchDirection)
    ensures Move(Move(p, d), RotatedClockwise(RotatedClockwise(d))) == p
  {
  }

  /** A rock is the list of its cells; the last cell is the highest one. */
  type Rock = seq<Point>

  /** `withOffset`: the rock moved by `dx` columns and `dy` rows. */
  function WithOffset(rock: Rock, dx: int, dy: int): (r: Rock)
    ensures |r| == |rock|
    ensures forall i :: 0 <= i < |r| ==> r[i].x - rock[i].x == dx && r[i].y - rock[i].y == dy
  {
    seq(|rock|, i requires 0 <= i < |rock| => Point(rock[i].x + dx, rock[i].y + dy))
  }

  /** Moving back by the opposite offset restores the rock. */
  lemma WithOffsetInverse(rock: Rock, dx: int, dy: int)
    ensures WithOffset(WithOffset(rock, dx, dy), -dx, -dy) == rock
  {
    var back := WithOffset(WithOffset(rock, dx, dy), -dx, -dy);
    assert forall i :: 0 <= i < |rock| ==> back[i] == rock[i];
  }

  /** The shapes standing on the floor, in the order they fall (src/Day17.kt:31-37): a
      horizontal bar, a plus (whose centre cell is left out), a mirrored L, a vertical bar
      and a square. */
  const KnownRocksAtFloor: seq<Rock> := [
    [Point(3, 1), Point(4, 1), Point(5, 1), Point(6, 1)],
    [Point(4, 1), Point(3, 2), Point(5, 2), Point(4, 3)],
    [Point(3, 1), Point(4, 1), Point(5, 1), Point(5, 2), Point(5, 3)],
    [Point(3, 1), Point(3, 2), Point(3, 3), Point(3, 4)],
    [Point(3, 1), Point(4, 1), Point(3, 2), Point(4, 2)]
  ]

  /** `topY`: the row of the last cell. */
  function TopY(rock: Rock): int
    requires |rock| > 0
  {
    rock[|rock| - 1].y
  }

  /** The last cell is the highest, and no cell lies more than three rows below it. */
  ghost predicate TopIsLast(rock: Rock)
  {
    |rock| > 0 && forall i :: 0 <= i < |rock| ==> rock[i].y <= TopY(rock) <= rock[i].y + 3
  }

  /** A shape on the floor: non-empty, in columns 3..6, no higher than row 4, with its
      highest cell last, which is what `topY` relies on. */
  ghost predicate ShapeAtFloor(rock: Rock)
  {
    TopIsLast(rock) && forall i :: 0 <= i < |rock| ==> 3 <= rock[i].x <= 6 && 1 <= rock[i].y <= 4
  }

  /** Every one of the five shapes is a shape on the floor. */
  lemma ShapesWellFormed()
    ensures |KnownRocksAtFloor| == 5
    ensures forall k :: 0 <= k < |KnownRocksAtFloor| ==> ShapeAtFloor(KnownRocksAtFloor[k])
  {
    forall k | 0 <= k < |KnownRocksAtFloor|
      ensures ShapeAtFloor(KnownRocksAtFloor[k])
    {
      var rock := KnownRocksAtFloor[k];
      assert TopIsLast(rock);
    }
  }

  lemma WithOffsetTopIsLast(rock: Rock, dx: int, dy: int)
    ensures TopIsLast(rock) ==> TopIsLast(WithOffset(rock, dx, dy))
  {
  }

  // ---------------------------------------------------------------------------
  // Legality

  /** Outside columns 1..7 or below the floor (the upper limit `Long.MAX_VALUE` is not
      modelled). */
  predicate IsOutOfBounds(p: Point)
  {
    !(1 <= p.x <= 7) || p.y < 1
  }

  predicate IsLegal(p: Point, blocked: set<Point>)
  {
    !IsOutOfBounds(p) && p !in blocked
  }

  /** A rock is legal when all of its cells are. */
  predicate RockIsLegal(rock: Rock, blocked: set<Point>)
  {
    forall i :: 0 <= i < |rock| ==> IsLegal(rock[i], blocked)
  }

  /** The rock moved one row down is not legal: it rests. */
  predicate Rests(rock: Rock, blocked: set<Point>)
  {
    !RockIsLegal(WithOffset(rock, 0, -1), blocked)
  }

  /** Every blocked cell is inside the chamber and no higher than the tower. */
  ghost predicate BelowTower(blocked: set<Point>, towerHeight: int)
  {
    forall p :: p in blocked ==> !IsOutOfBounds(p) && p.y <= towerHeight
  }

  /** A new rock appears three free rows above the tower. */
  function Spawn(shape: Rock, towerHeight: int): (r: Rock)
    ensures TopIsLast(shape) ==> TopIsLast(r)
  {
    WithOffsetTopIsLast(shape, 0, towerHeight + 3);
    WithOffset(shape, 0, towerHeight + 3)
  }

  /** The new rock overlaps nothing: the three rows above the tower are free. */
  lemma SpawnIsLegal(shape: Rock, towerHeight: int, blocked: set<Point>)
    requires ShapeAtFloor(shape)
    requires towerHeight >= 0 && BelowTower(blocked, towerHeight)
    ensures RockIsLegal(Spawn(shape, towerHeight), blocked)
  {
  }

  // ---------------------------------------------------------------------------
  // One falling rock

  /** The sideways shift of a jet: `<` left, `>` right, anything else an error. */
  function WindShift(c: char): (r: Option<int>)
    ensures r.Some? <==> c == '<' || c == '>'
    ensures r == Some(-1) <==> c == '<'
  {
    if c == '<' then Some(-1) else if c == '>' then Some(1) else None
  }

  /** `(offset + 1) % size` for an offset in `0..size - 1`: the next position, wrapping
      round to 0 after the last. */
  function NextOffset(offset: int, size: int): (r: int)
    requires 0 <= offset < size
    ensures 0 <= r < size && r == (offset + 1) % size
  {
    if offset + 1 == size then 0 else offset + 1
  }

  predicate ValidWind(windPattern: string)
  {
    |windPattern| > 0 && forall i :: 0 <= i < |windPattern| ==> WindShift(windPattern[i]).Some?
  }

  /**
   * The inner loop: a jet pushes the rock when the pushed rock is legal, then the rock falls
   * one row when that is legal and rests otherwise. The result is the resting rock and the
   * next jet position, or nothing on an unknown jet character.
   */
  function Fall(windPattern: string, blocked: set<Point>, rock: Rock, windOffset: int): (r: Option<(Rock, int)>)
    requires 0 <= windOffset < |windPattern| && |rock| > 0
    ensures ValidWind(windPattern) ==> r.Some?
    ensures r.Some? ==> |r.value.0| == |rock| && 0 <= r.value.1 < |windPattern|
    decreases if rock[0].y < 0 then 0 else rock[0].y
  {
    match WindShift(windPattern[windOffset])
    case None => None
    case Some(dx) =>
      var next := NextOffset(windOffset, |windPattern|);
      var windMoved := WithOffset(rock, dx, 0);
      var pushed := if RockIsLegal(windMoved, blocked) then windMoved else rock;
      var gravityMoved := WithOffset(pushed, 0, -1);
      if RockIsLegal(gravityMoved, blocked) then Fall(windPattern, blocked, gravityMoved, next)
      else Some((pushed, next))
  }

  /** The rock `Fall` returns rests, is legal when the falling rock was, and keeps its
      highest cell last. */
  lemma {:induction false} FallRests(windPattern: string, blocked: set<Point>, rock: Rock, windOffset: int)
    requires 0 <= windOffset < |windPattern| && |rock| > 0
    requires RockIsLegal(rock, blocked) && TopIsLast(rock)
    ensures var r := Fall(windPattern, blocked, rock, windOffset);
      r.Some? ==> Rests(r.value.0, blocked) && RockIsLegal(r.value.0, blocked) && TopIsLast(r.value.0)
    decreases if rock[0].y < 0 then 0 else rock[0].y
  {
    match WindShift(windPattern[windOffset])
    case None =>
    case Some(dx) =>
      var next := NextOffset(windOffset, |windPattern|);
      var windMoved := WithOffset(rock, dx, 0);
      var pushed := if RockIsLegal(windMoved, blocked) then windMoved else rock;
      WithOffsetTopIsLast(rock, dx, 0);
      var gravityMoved := WithOffset(pushed, 0, -1);
      if RockIsLegal(gravityMoved, blocked) {
        WithOffsetTopIsLast(pushed, 0, -1);
        FallRests(windPattern, blocked, gravityMoved, next);
      }
  }

  /** The inner loop of src/Day17.kt:124-147, which computes `Fall`. */
  method FallingRock(windPattern: string, blocked: set<Point>, rock: Rock, windOffset: int)
    returns (rested: Option<(Rock, int)>)
    requires 0 <= windOffset < |windPattern| && |rock| > 0
    ensures rested == Fall(windPattern, blocked, rock, windOffset)
  {
    var newRock := rock;
    var offset := windOffset;
    while true
      invariant 0 <= offset < |windPattern| && |newRock| > 0
      invariant Fall(windPattern, blocked, newRock, offset) == Fall(windPattern, blocked, rock, windOffset)
      decreases if newRock[0].y < 0 then 0 else newRock[0].y
    {
      var windDirection := windPattern[offset];
      offset := NextOffset(offset, |windPattern|);
      var dx := WindShift(windDirection);
      if dx.None? {
        return None;
      }
      var windMoved := WithOffset(newRock, dx.value, 0);
      if RockIsLegal(windMoved, blocked) {
        newRock := windMoved;
      }
      var gravityMoved := WithOffset(newRock, 0, -1);
      if RockIsLegal(gravityMoved, blocked) {
        newRock := gravityMoved;
        continue;
      }
      return Some((newRock, offset));
    }
  }

  /** A legal resting rock touches the tower or the floor, so it ends at most four rows above
      the tower. */
  lemma RestingRockTop(rock: Rock, blocked: set<Point>, towerHeight: int)
    requires TopIsLast(rock) && towerHeight >= 0 && BelowTower(blocked, towerHeight)
    requires RockIsLegal(rock, blocked) && Rests(rock, blocked)
    ensures 1 <= TopY(rock) <= towerHeight + 4
  {
    var down := WithOffset(rock, 0, -1);
    var i :| 0 <= i < |down| && !IsLegal(down[i], blocked);
    assert IsLegal(rock[i], blocked);
    assert rock[i].y <= towerHeight + 1;
  }

  /**
   * The rock that spawns above the tower comes to rest at most four rows above it, and the
   * blocked cells with the rock added and then pruned stay below the new height.
   */
  lemma PlacedRockBelowTower(windPattern: string, blocked: set<Point>, shape: Rock, towerHeight: int,
                             windOffset: int, followOuterWall: set<Point> -> set<Point>)
    requires ShapeAtFloor(shape) && 0 <= windOffset < |windPattern|
    requires towerHeight >= 0 && BelowTower(blocked, towerHeight)
    requires forall s :: followOuterWall(s) <= s
    ensures var fallen := Fall(windPattern, blocked, Spawn(shape, towerHeight), windOffset);
      fallen.Some? ==>
        var top := TopY(fallen.value.0);
        1 <= top <= towerHeight + 4 &&
        BelowTower(followOuterWall(blocked + Cells(fallen.value.0)), Max2(towerHeight, top))
  {
    var rock := Spawn(shape, towerHeight);
    SpawnIsLegal(shape, towerHeight, blocked);
    FallRests(windPattern, blocked, rock, windOffset);
    var fallen := Fall(windPattern, blocked, rock, windOffset);
    if fallen.Some? {
      PrunedBelowTower(blocked, fallen.value.0, towerHeight, followOuterWall);
    }
  }

  /** A legal resting rock ends at most four rows above the tower, and the blocked cells with
      its cells added and then pruned stay below the new height. */
  lemma PrunedBelowTower(blocked: set<Point>, rock: Rock, towerHeight: int, followOuterWall: set<Point> -> set<Point>)
    requires TopIsLast(rock) && towerHeight >= 0 && BelowTower(blocked, towerHeight)
    requires RockIsLegal(rock, blocked) && Rests(rock, blocked)
    requires forall s :: followOuterWall(s) <= s
    ensures 1 <= TopY(rock) <= towerHeight + 4
    ensures BelowTower(followOuterWall(blocked + Cells(rock)), Max2(towerHeight, TopY(rock)))
  {
    RestingRockTop(rock, blocked, towerHeight);
    AddRockBelowTower(blocked, rock, towerHeight);
    assert followOuterWall(blocked + Cells(rock)) <= blocked + Cells(rock);
  }

  /** The cells of a rock, as a set. */
  function Cells(rock: Rock): set<Point>
  {
    set i | 0 <= i < |rock| :: rock[i]
  }

  /** Adding a legal resting rock keeps every blocked cell inside the chamber and below the
      new tower height. */
  lemma AddRockBelowTower(blocked: set<Point>, rock: Rock, towerHeight: int)
    requires TopIsLast(rock) && BelowTower(blocked, towerHeight) && RockIsLegal(rock, blocked)
    ensures BelowTower(blocked + Cells(rock), Max2(towerHeight, TopY(rock)))
  {
  }

  // ---------------------------------------------------------------------------
  // Pattern keys and the shift of a skip

  /** Every cell moved `dy` rows. */
  function Shift(blocked: set<Point>, dy: int): set<Point>
  {
    set p | p in blocked :: Point(p.x, p.y + dy)
  }

  /** A cell is in the shifted set exactly when the cell `dy` rows below it was in the set. */
  lemma InShift(blocked: set<Point>, dy: int, q: Point)
    ensures q in Shift(blocked, dy) <==> Point(q.x, q.y - dy) in blocked
  {
    if Point(q.x, q.y - dy) in blocked {
      assert q == Point(Point(q.x, q.y - dy).x, Point(q.x, q.y - dy).y + dy);
    }
  }

  /** `normalized`: the blocked cells relative to the top of the tower. */
  function Normalized(blocked: set<Point>, towerHeight: int): set<Point>
  {
    Shift(blocked, -towerHeight)
  }

  /** Raising the cells and the tower by the same amount leaves the normalized cells, and so
      the pattern key, unchanged. */
  lemma NormalizedAfterShift(blocked: set<Point>, towerHeight: int, dy: int)
    ensures Normalized(Shift(blocked, dy), towerHeight + dy) == Normalized(blocked, towerHeight)
  {
    var a := Normalized(Shift(blocked, dy), towerHeight + dy);
    var b := Normalized(blocked, towerHeight);
    forall q
      ensures q in a <==> q in b
    {
      InShift(Shift(blocked, dy), -(towerHeight + dy), q);
      InShift(blocked, dy, Point(q.x, q.y + towerHeight + dy));
      InShift(blocked, -towerHeight, q);
    }
  }

  /** A shift upwards keeps the cells inside the chamber and below the raised tower. */
  lemma ShiftBelowTower(blocked: set<Point>, towerHeight: int, dy: int)
    requires BelowTower(blocked, towerHeight) && dy >= 0
    ensures BelowTower(Shift(blocked, dy), towerHeight + dy)
  {
    forall q | q in Shift(blocked, dy)
      ensures !IsOutOfBounds(q) && q.y <= towerHeight + dy
    {
      InShift(blocked, dy, q);
    }
  }

  /** The jet position, the next shape and the normalized top of the tower. */
  datatype PatternKey = PatternKey(windOffset: int, rockOffset: int, top: set<Point>)

  /** What was recorded for a key: the rocks placed and the tower height at the time. */
  datatype Seen = Seen(rocks: int, height: int)

  /** A recorded state lies behind the current one, and its tower grew by at most four rows
      per rock since. */
  predicate Behind(seen: Seen, placedRocks: int, towerHeight: int)
  {
    0 <= seen.rocks <= placedRocks && 0 <= seen.height <= towerHeight &&
    towerHeight - seen.height <= 4 * (placedRocks - seen.rocks)
  }

  ghost predicate AllBehind(knownPatterns: map<PatternKey, Seen>, placedRocks: int, towerHeight: int)
  {
    forall k :: k in knownPatterns ==> Behind(knownPatterns[k], placedRocks, towerHeight)
  }

  /** One more rock, raising the tower by at most four rows, keeps every record behind. */
  lemma AllBehindAfterRock(knownPatterns: map<PatternKey, Seen>, placedRocks: int, towerHeight: int, newHeight: int)
    requires AllBehind(knownPatterns, placedRocks, towerHeight)
    requires towerHeight <= newHeight <= towerHeight + 4
    ensures AllBehind(knownPatterns, placedRocks + 1, newHeight)
  {
  }

  /** Recording the current state keeps every record behind. */
  lemma RecordStaysBehind(knownPatterns: map<PatternKey, Seen>, placedRocks: int, towerHeight: int, key: PatternKey)
    requires AllBehind(knownPatterns, placedRocks, towerHeight) && 0 <= placedRocks && 0 <= towerHeight
    ensures AllBehind(knownPatterns[key := Seen(placedRocks, towerHeight)], placedRocks, towerHeight)
  {
  }

  /** Raising the rock count by `step` and the tower by at most four rows per rock keeps
      every record behind. */
  lemma AllBehindAfterSkip(knownPatterns: map<PatternKey, Seen>, placedRocks: int, towerHeight: int, step: int, rise: int)
    requires AllBehind(knownPatterns, placedRocks, towerHeight)
    requires 0 <= rise <= 4 * step
    ensures AllBehind(knownPatterns, placedRocks + step, towerHeight + rise)
  {
  }

  /**
   * Skipping whole repetitions of the cycle since `seen` never goes past `numRocks`, and
   * raises the tower by at most four rows per skipped rock.
   */
  lemma SkipBounds(placedRocks: int, towerHeight: int, seen: Seen, numRocks: int)
    requires Behind(seen, placedRocks, towerHeight) && seen.rocks < placedRocks <= numRocks
    ensures var rocksInPattern := placedRocks - seen.rocks;
      var repetitions := (numRocks - placedRocks) / rocksInPattern;
      var rise := (towerHeight - seen.height) * repetitions;
      repetitions >= 0 && 0 <= rise <= 4 * (rocksInPattern * repetitions) &&
      placedRocks + rocksInPattern * repetitions <= numRocks
  {
    var rocksInPattern := placedRocks - seen.rocks;
    var remaining := numRocks - placedRocks;
    var repetitions := remaining / rocksInPattern;
    assert remaining == rocksInPattern * repetitions + remaining % rocksInPattern;
    MulMonotone(towerHeight - seen.height, 4 * rocksInPattern, repetitions);
    MulMonotone(0, towerHeight - seen.height, repetitions);
  }

  // ---------------------------------------------------------------------------
  // Dropping every rock, without skips

  /** What the simulation carries from one rock to the next, apart from the records. */
  datatype Tower = Tower(blocked: set<Point>, height: int, windOffset: int, rockOffset: int)

  /** The pattern key of a tower. */
  function TowerKey(t: Tower): PatternKey
  {
    PatternKey(t.windOffset, t.rockOffset, Normalized(t.blocked, t.height))
  }

  /**
   * One rock of src/Day17.kt:122-148: the next shape spawns above the tower and falls to
   * rest; its cells join the blocked ones, pruned by `followOuterWall`, and the tower rises
   * to the rock's top if that is higher.
   */
  function DropOnce(windPattern: string, followOuterWall: set<Point> -> set<Point>, t: Tower): (r: Option<Tower>)
    requires 0 <= t.windOffset < |windPattern| && 0 <= t.rockOffset < |KnownRocksAtFloor|
    ensures r.Some? ==> 0 <= r.value.windOffset < |windPattern| && 0 <= r.value.rockOffset < |KnownRocksAtFloor|
    ensures ValidWind(windPattern) ==> r.Some?
    ensures r.Some? ==> r.value.rockOffset == NextOffset(t.rockOffset, |KnownRocksAtFloor|)
  {
    var rock := Spawn(KnownRocksAtFloor[t.rockOffset], t.height);
    match Fall(windPattern, t.blocked, rock, t.windOffset)
    case None => None
    case Some((rested, next)) =>
      Some(Tower(followOuterWall(t.blocked + Cells(rested)), Max2(t.height, TopY(rested)), next,
        NextOffset(t.rockOffset, |KnownRocksAtFloor|)))
  }

  /** `n` rocks dropped one by one into the empty chamber; an empty pattern fails on the first rock. */
  function Drops(windPattern: string, followOuterWall: set<Point> -> set<Point>, n: nat): (r: Option<Tower>)
    ensures r.Some? && n > 0 ==> |windPattern| > 0
    ensures r.Some? && |windPattern| > 0 ==>
      0 <= r.value.windOffset < |windPattern| && 0 <= r.value.rockOffset < |KnownRocksAtFloor|
  {
    if n == 0 then Some(Tower({}, 0, 0, 0))
    else if |windPattern| == 0 then None
    else
      match Drops(windPattern, followOuterWall, n - 1)
      case None => None
      case Some(t) => DropOnce(windPattern, followOuterWall, t)
  }

  /** The tower height after `n` rocks dropped one by one. */
  function HeightAfter(windPattern: string, followOuterWall: set<Point> -> set<Point>, n: nat): Option<int>
  {
    match Drops(windPattern, followOuterWall, n)
    case None => None
    case Some(t) => Some(t.height)
  }

  /** One rock raises the tower by at most four rows, to at least row 1, and keeps the cells below it. */
  lemma DropOnceBounds(windPattern: string, followOuterWall: set<Point> -> set<Point>, t: Tower)
    requires forall s :: followOuterWall(s) <= s
    requires 0 <= t.windOffset < |windPattern| && 0 <= t.rockOffset < |KnownRocksAtFloor|
    requires t.height >= 0 && BelowTower(t.blocked, t.height)
    ensures var r := DropOnce(windPattern, followOuterWall, t);
      r.Some? ==> (t.height <= r.value.height <= t.height + 4 && r.value.height >= 1 &&
        BelowTower(r.value.blocked, r.value.height))
  {
    ShapesWellFormed();
    PlacedRockBelowTower(windPattern, t.blocked, KnownRocksAtFloor[t.rockOffset], t.height, t.windOffset, followOuterWall);
  }

  /** Dropping rocks one by one fails only on a pattern with a character other than `<` and `>`. */
  lemma {:induction false} DropsSucceed(windPattern: string, followOuterWall: set<Point> -> set<Point>, n: nat)
    requires ValidWind(windPattern)
    ensures Drops(windPattern, followOuterWall, n).Some?
  {
    if n != 0 {
      var m: nat := n - 1;
      DropsSucceed(windPattern, followOuterWall, m);
      NextDropSucceeds(windPattern, followOuterWall, m);
      assert m + 1 == n;
    }
  }

  lemma NextDropSucceeds(windPattern: string, followOuterWall: set<Point> -> set<Point>, m: nat)
    requires ValidWind(windPattern) && Drops(windPattern, followOuterWall, m).Some?
    ensures Drops(windPattern, followOuterWall, m + 1).Some?
  {
  }

  /**
   * Each rock dropped raises the tower by at most four rows, the tower is at least one row
   * high after the first rock, and every blocked cell lies inside the chamber and below the
   * tower.
   */
  lemma {:induction false} DropsBounds(windPattern: string, followOuterWall: set<Point> -> set<Point>, n: nat)
    requires forall s :: followOuterWall(s) <= s
    ensures var r := Drops(windPattern, followOuterWall, n);
      r.Some? ==> (0 <= r.value.height <= 4 * n && (n > 0 ==> r.value.height >= 1) &&
        BelowTower(r.value.blocked, r.value.height))
  {
    if n != 0 {
      var m: nat := n - 1;
      DropsBounds(windPattern, followOuterWall, m);
      NextDropBounds(windPattern, followOuterWall, m);
      assert m + 1 == n;
    }
  }

  /** The step of `DropsBounds`: the rock after `m` rocks, through `DropOnceBounds`. */
  lemma NextDropBounds(windPattern: string, followOuterWall: set<Point> -> set<Point>, m: nat)
    requires forall s :: followOuterWall(s) <= s
    requires var r := Drops(windPattern, followOuterWall, m);
      r.Some? ==> (0 <= r.value.height <= 4 * m && BelowTower(r.value.blocked, r.value.height))
    ensures var r := Drops(windPattern, followOuterWall, m + 1);
      r.Some? ==> (0 <= r.value.height <= 4 * (m + 1) && r.value.height >= 1 &&
        BelowTower(r.value.blocked, r.value.height))
  {
    var before := Drops(windPattern, followOuterWall, m);
    if |windPattern| > 0 && before.Some? {
      DropOnceBounds(windPattern, followOuterWall, before.value);
    }
  }

  /** Once a rock fails to drop, every later count fails too. */
  lemma {:induction false} DropsFailureStays(windPattern: string, followOuterWall: set<Point> -> set<Point>, k: nat, n: nat)
    requires k <= n && Drops(windPattern, followOuterWall, k).None?
    ensures Drops(windPattern, followOuterWall, n).None?
    decreases n - k
  {
    if k < n {
      DropsFailureStays(windPattern, followOuterWall, k + 1, n);
    }
  }

  /** No two of the towers after rocks `1 .. n`, dropped one by one, have the same key. */
  ghost predicate NoRepeat(windPattern: string, followOuterWall: set<Point> -> set<Point>, n: nat)
  {
    forall i, j ::
      (1 <= i < j <= n && Drops(windPattern, followOuterWall, i).Some? && Drops(windPattern, followOuterWall, j).Some?) ==>
      TowerKey(Drops(windPattern, followOuterWall, i).value) != TowerKey(Drops(windPattern, followOuterWall, j).value)
  }

  // ---------------------------------------------------------------------------
  // The simulation

  /** The state of `simulateFallingRocks`. `followOuterWall`, which prunes cells that can no
      longer be reached, is a parameter known only to return a subset of its input. */
  class Chamber {
    const knownRocksAtFloor: seq<Rock>
    const windPattern: string
    const numRocks: int
    const followOuterWall: set<Point> -> set<Point>
    var towerHeight: int
    var blocked: set<Point>
    var windOffset: int
    var rockOffset: int
    var placedRocks: int
    var knownPatterns: map<PatternKey, Seen>

    ghost predicate Valid()
      reads this
    {
      knownRocksAtFloor == KnownRocksAtFloor &&
      (forall k :: 0 <= k < |knownRocksAtFloor| ==> ShapeAtFloor(knownRocksAtFloor[k])) &&
      |windPattern| > 0 &&
      (forall s :: followOuterWall(s) <= s) &&
      0 <= rockOffset < |knownRocksAtFloor| && 0 <= windOffset < |windPattern| &&
      0 <= placedRocks <= numRocks &&
      0 <= towerHeight <= 4 * placedRocks && (placedRocks > 0 ==> towerHeight >= 1) &&
      BelowTower(blocked, towerHeight) &&
      AllBehind(knownPatterns, placedRocks, towerHeight)
    }

    /** The state carried from one rock to the next, apart from the records. */
    ghost function State(): Tower
      reads this
    {
      Tower(blocked, towerHeight, windOffset, rockOffset)
    }

    /** The key of the current state. */
    ghost function Key(): PatternKey
      reads this
    {
      PatternKey(windOffset, rockOffset, Normalized(blocked, towerHeight))
    }

    constructor (windPattern: string, numRocks: int, followOuterWall: set<Point> -> set<Point>)
      requires |windPattern| > 0 && numRocks >= 0
      requires forall s :: followOuterWall(s) <= s
      ensures Valid() && knownRocksAtFloor == KnownRocksAtFloor
      ensures this.windPattern == windPattern && this.numRocks == numRocks
      ensures this.followOuterWall == followOuterWall
      ensures towerHeight == 0 && blocked == {} && windOffset == 0 && rockOffset == 0
      ensures placedRocks == 0 && knownPatterns == map[]
    {
      ShapesWellFormed();
      knownRocksAtFloor := KnownRocksAtFloor;
      this.windPattern := windPattern;
      this.numRocks := numRocks;
      this.followOuterWall := followOuterWall;
      towerHeight := 0;
      blocked := {};
      windOffset := 0;
      rockOffset := 0;
      placedRocks := 0;
      knownPatterns := map[];
    }

    /**
     * Drops the next rock (src/Day17.kt:121-148): it rests where `Fall` says, its cells join
     * the blocked ones before the wall pruning, and the tower height becomes the larger of the
     * old height and the rock's top. `ok` is false on an unknown jet character.
     */
    method DropRock() returns (ok: bool)
      requires Valid() && placedRocks < numRocks
      modifies this
      ensures var newRock := Spawn(knownRocksAtFloor[old(rockOffset)], old(towerHeight));
        var fallen := Fall(windPattern, old(blocked), newRock, old(windOffset));
        ok == fallen.Some? &&
        (ok ==>
          blocked == followOuterWall(old(blocked) + Cells(fallen.value.0)) &&
          towerHeight == Max2(old(towerHeight), TopY(fallen.value.0)) &&
          windOffset == fallen.value.1)
      ensures ok ==> Valid() && towerHeight <= old(towerHeight) + 4
      ensures ok ==> rockOffset == NextOffset(old(rockOffset), |knownRocksAtFloor|)
      ensures ok ==> placedRocks == old(placedRocks) + 1 && knownPatterns == old(knownPatterns)
      ensures ok == DropOnce(windPattern, followOuterWall, old(State())).Some?
      ensures ok ==> State() == DropOnce(windPattern, followOuterWall, old(State())).value
    {
      var newRock := Spawn(knownRocksAtFloor[rockOffset], towerHeight);
      var fallen := FallingRock(windPattern, blocked, newRock, windOffset);
      if fallen.None? {
        return false;
      }
      PlacedRockBelowTower(windPattern, blocked, knownRocksAtFloor[rockOffset], towerHeight, windOffset, followOuterWall);
      Place(fallen.value.0, fallen.value.1);
      return true;
    }

    /** The resting rock joins the blocked cells, which `followOuterWall` then prunes, the
        tower height becomes the larger of the old height and the rock's top, the next shape
        is selected and the rock is counted. */
    method Place(rested: Rock, nextWindOffset: int)
      requires Valid() && placedRocks < numRocks && 0 <= nextWindOffset < |windPattern|
      requires |rested| > 0 && 1 <= TopY(rested) <= towerHeight + 4
      requires BelowTower(followOuterWall(blocked + Cells(rested)), Max2(towerHeight, TopY(rested)))
      modifies this
      ensures blocked == followOuterWall(old(blocked) + Cells(rested))
      ensures towerHeight == Max2(old(towerHeight), TopY(rested))
      ensures windOffset == nextWindOffset && rockOffset == NextOffset(old(rockOffset), |knownRocksAtFloor|)
      ensures placedRocks == old(placedRocks) + 1 && knownPatterns == old(knownPatterns)
      ensures Valid()
    {
      AllBehindAfterRock(knownPatterns, placedRocks, towerHeight, Max2(towerHeight, TopY(rested)));
      rockOffset := NextOffset(rockOffset, |knownRocksAtFloor|);
      windOffset := nextWindOffset;
      blocked := followOuterWall(blocked + Cells(rested));
      towerHeight := Max2(towerHeight, TopY(rested));
      placedRocks := placedRocks + 1;
    }

    /**
     * After a rock is placed (src/Day17.kt:150-164): an unseen key is recorded with the
     * current rock count and height; a seen key skips as many whole cycles as still fit,
     * raising the height and the blocked cells by the same amount.
     */
    method RecordOrSkip()
      requires Valid()
      requires forall k :: k in knownPatterns ==> knownPatterns[k].rocks < placedRocks
      modifies this
      ensures Valid() && old(placedRocks) <= placedRocks && old(towerHeight) <= towerHeight
      ensures windOffset == old(windOffset) && rockOffset == old(rockOffset)
      ensures old(Key()) !in old(knownPatterns) ==>
        knownPatterns == old(knownPatterns)[old(Key()) := Seen(old(placedRocks), old(towerHeight))] &&
        placedRocks == old(placedRocks) && towerHeight == old(towerHeight) && blocked == old(blocked)
      ensures old(Key()) in old(knownPatterns) ==>
        var seen := old(knownPatterns)[old(Key())];
        var rocksInPattern := old(placedRocks) - seen.rocks;
        var repetitions := (numRocks - old(placedRocks)) / rocksInPattern;
        var rise := (old(towerHeight) - seen.height) * repetitions;
        placedRocks == old(placedRocks) + rocksInPattern * repetitions &&
        towerHeight == old(towerHeight) + rise &&
        blocked == Shift(old(blocked), rise) &&
        knownPatterns == old(knownPatterns) && Key() == old(Key())
    {
      var patternKey := PatternKey(windOffset, rockOffset, Normalized(blocked, towerHeight));
      if patternKey in knownPatterns {
        var seen := knownPatterns[patternKey];
        var rocksInPattern := placedRocks - seen.rocks;
        var heightInPattern := towerHeight - seen.height;
        var remainingRocks := numRocks - placedRocks;
        var patternRepetitions := remainingRocks / rocksInPattern;
        SkipBounds(placedRocks, towerHeight, seen, numRocks);
        var totalHeightDifference := heightInPattern * patternRepetitions;
        AllBehindAfterSkip(knownPatterns, placedRocks, towerHeight, rocksInPattern * patternRepetitions, totalHeightDifference);
        placedRocks := placedRocks + rocksInPattern * patternRepetitions;
        towerHeight := towerHeight + totalHeightDifference;
        ShiftBelowTower(blocked, old(towerHeight), totalHeightDifference);
        NormalizedAfterShift(blocked, old(towerHeight), totalHeightDifference);
        blocked := Shift(blocked, totalHeightDifference);
      } else {
        RecordStaysBehind(knownPatterns, placedRocks, towerHeight, patternKey);
        knownPatterns := knownPatterns[patternKey := Seen(placedRocks, towerHeight)];
      }
    }
  }

  /** Rock `q` is dropped onto the tower left by rock `p`, the one before it. */
  lemma DropsNext(windPattern: string, followOuterWall: set<Point> -> set<Point>, p: nat, q: nat)
    requires q == p + 1 && |windPattern| > 0 && Drops(windPattern, followOuterWall, p).Some?
    ensures Drops(windPattern, followOuterWall, q) == DropOnce(windPattern, followOuterWall, Drops(windPattern, followOuterWall, p).value)
  {
  }

  /** Every key of `known` is the key of the tower after one of the first `p` rocks. */
  ghost predicate KnownFrom(windPattern: string, followOuterWall: set<Point> -> set<Point>, p: nat, known: map<PatternKey, Seen>)
  {
    forall k :: k in known ==>
      exists i :: 1 <= i <= p && Drops(windPattern, followOuterWall, i).Some? && TowerKey(Drops(windPattern, followOuterWall, i).value) == k
  }

  /**
   * When no key repeats among the first `n` rocks, the key after rock `q` is none of
   * those seen after the rocks before it.
   */
  lemma NewKeyUnseen(windPattern: string, followOuterWall: set<Point> -> set<Point>, n: nat, p: nat, q: nat,
                     known: map<PatternKey, Seen>)
    requires NoRepeat(windPattern, followOuterWall, n) && q == p + 1 && q <= n
    requires Drops(windPattern, followOuterWall, q).Some? && KnownFrom(windPattern, followOuterWall, p, known)
    ensures TowerKey(Drops(windPattern, followOuterWall, q).value) !in known
  {
    forall k | k in known
      ensures k != TowerKey(Drops(windPattern, followOuterWall, q).value)
    {
      var i :| 1 <= i <= p && Drops(windPattern, followOuterWall, i).Some? &&
        TowerKey(Drops(windPattern, followOuterWall, i).value) == k;
    }
  }

  /** Recording the key after rock `q` keeps every recorded key one of a dropped tower. */
  lemma KnownFromRecord(windPattern: string, followOuterWall: set<Point> -> set<Point>, p: nat, q: nat,
                        known: map<PatternKey, Seen>, seen: Seen)
    requires q == p + 1 && Drops(windPattern, followOuterWall, q).Some? && KnownFrom(windPattern, followOuterWall, p, known)
    ensures KnownFrom(windPattern, followOuterWall, q, known[TowerKey(Drops(windPattern, followOuterWall, q).value) := seen])
  {
  }

  /**
   * `simulateFallingRocks`: the tower height after `numRocks` rocks, or nothing when a jet
   * is read that is not `<` or `>` (an empty pattern fails on its first read). Each rock
   * raises the tower by at most four rows, and the cycle skips never go past `numRocks`.
   * When no pattern key repeats, no skip happens and the height is that of dropping every
   * rock one by one.
   */
  method SimulateFallingRocks(windPattern: string, numRocks: int, followOuterWall: set<Point> -> set<Point>)
    returns (r: Option<int>)
    requires forall s :: followOuterWall(s) <= s
    ensures numRocks <= 0 ==> r == Some(0)
    ensures ValidWind(windPattern) ==> r.Some?
    ensures r.None? ==> numRocks > 0 && !ValidWind(windPattern)
    ensures numRocks > 0 && r.Some? ==> 1 <= r.value <= 4 * numRocks
    ensures numRocks >= 0 && NoRepeat(windPattern, followOuterWall, numRocks) ==>
      r == HeightAfter(windPattern, followOuterWall, numRocks)
  {
    if numRocks <= 0 {
      return Some(0);
    }
    if |windPattern| == 0 {
      return None;
    }
    ghost var noRepeat := NoRepeat(windPattern, followOuterWall, numRocks);
    var chamber := new Chamber(windPattern, numRocks, followOuterWall);
    while chamber.placedRocks < numRocks
      invariant chamber.Valid() && chamber.windPattern == windPattern && chamber.numRocks == numRocks
      invariant chamber.followOuterWall == followOuterWall
      invariant forall k :: k in chamber.knownPatterns ==> chamber.knownPatterns[k].rocks <= chamber.placedRocks
      invariant noRepeat ==> Drops(windPattern, followOuterWall, chamber.placedRocks) == Some(chamber.State())
      invariant noRepeat ==> KnownFrom(windPattern, followOuterWall, chamber.placedRocks, chamber.knownPatterns)
      decreases numRocks - chamber.placedRocks
    {
      ghost var p: nat := chamber.placedRocks;
      ghost var q: nat := p + 1;
      var ok := chamber.DropRock();
      if noRepeat {
        DropsNext(windPattern, followOuterWall, p, q);
      }
      if !ok {
        if noRepeat {
          DropsFailureStays(windPattern, followOuterWall, q, numRocks);
        }
        return None;
      }
      ghost var dropped := chamber.State();
      if noRepeat {
        NewKeyUnseen(windPattern, followOuterWall, numRocks, p, q, chamber.knownPatterns);
        KnownFromRecord(windPattern, followOuterWall, p, q, chamber.knownPatterns, Seen(q, chamber.towerHeight));
        assert chamber.Key() == TowerKey(dropped) && chamber.Key() !in chamber.knownPatterns;
      }
      chamber.RecordOrSkip();
      if noRepeat {
        assert chamber.State() == dropped && chamber.placedRocks == q;
      }
    }
    return Some(chamber.towerHeight);
  }

  /** `part1`: 2022 rocks. */
  method Part1(input: string, followOuterWall: set<Point> -> set<Point>) returns (r: Option<int>)
    requires forall s :: followOuterWall(s) <= s
    ensures ValidWind(input) ==> r.Some? && 1 <= r.value <= 4 * 2022
    ensures NoRepeat(input, followOuterWall, 2022) ==> r == HeightAfter(input, followOuterWall, 2022)
  {
    r := SimulateFallingRocks(input, 2022, followOuterWall);
  }

  /** `part2`: a million million rocks, reachable only through the cycle skips. */
  method Part2(input: string, followOuterWall: set<Point> -> set<Point>) returns (r: Option<int>)
    requires forall s :: followOuterWall(s) <= s
    ensures ValidWind(input) ==> r.Some? && 1 <= r.value <= 4 * 1_000_000_000_000
    ensures NoRepeat(input, followOuterWall, 1_000_000_000_000) ==>
      r == HeightAfter(input, followOuterWall, 1_000_000_000_000)
  {
    r := SimulateFallingRocks(input, 1_000_000_000_000, followOuterWall);
  }
}
