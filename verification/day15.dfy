/**
 * Day 15 (src/Day15.kt): sensors each know their closest beacon by Manhattan
 * distance, so every point at most that far from a sensor cannot hold an unknown
 * beacon. Part 1 counts such points on one row; part 2 searches the square
 * 0..maximum for the one uncovered point and reports its tuning frequency.
 * Readings arrive already parsed (the regular expression is not modelled).
 */
module Day15 {
  import opened Utils

  // ---------------------------------------------------------------------------
  // Points and distance

  datatype Point = Point(x: int, y: int)

  /** `distanceTo`: the taxicab distance. */
  function Distance(p: Point, q: Point): (d: int)
    ensures d >= 0 && (d == 0 <==> p == q)
  {
    Abs(p.x - q.x) + Abs(p.y - q.y)
  }

  /** The distance is a metric on the grid: symmetric, non-negative, zero only on equal points. */
  lemma DistanceMetric(p: Point, q: Point)
    ensures Distance(p, q) == Distance(q, p)
    ensures Distance(p, q) >= 0
    ensures Distance(p, q) == 0 <==> p == q
  {
  }

  /** A parsed input line: a sensor and its closest beacon. */
  datatype Reading = Reading(sensor: Point, beacon: Point)

  /** The sensor's radius. */
  function Radius(r: Reading): int
  {
    Distance(r.sensor, r.beacon)
  }

  /** No beacon other than a known one can sit within some sensor's radius. */
  ghost predicate Covered(readings: seq<Reading>, p: Point)
  {
    exists r :: r in readings && Distance(r.sensor, p) <= Radius(r)
  }

  // ---------------------------------------------------------------------------
  // Ranges by row

  /** An inclusive `IntRange` `first..last`. */
  datatype Range = Range(first: int, last: int)

  predicate Contains(range: Range, x: int)
  {
    range.first <= x <= range.last
  }

  /** One pair yielded by `reachableRangeByRow`: a row and the x-range covered on it. */
  datatype RowRange = RowRange(y: int, range: Range)

  predicate Blocks(e: RowRange, p: Point)
  {
    e.y == p.y && Contains(e.range, p.x)
  }

  predicate Hits(entries: seq<RowRange>, p: Point)
  {
    exists e :: e in entries && Blocks(e, p)
  }

  /**
   * The loop of `reachableRangeByRow` from `offset` down to 0: rows `sensor.y ± offset`
   * with half-width `d - offset`.
   */
  function RowsFrom(sensor: Point, d: int, offset: int): seq<RowRange>
    decreases offset + 1
  {
    if offset < 0 then []
    else
      var range := Range(sensor.x - (d - offset), sensor.x + (d - offset));
      [RowRange(sensor.y + offset, range), RowRange(sensor.y - offset, range)]
      + RowsFrom(sensor, d, offset - 1)
  }

  function ReachableRangeByRow(r: Reading): seq<RowRange>
  {
    RowsFrom(r.sensor, Radius(r), Radius(r))
  }

  lemma {:induction false} RowsFromHits(sensor: Point, d: int, offset: int, p: Point)
    requires offset <= d
    ensures Hits(RowsFrom(sensor, d, offset), p)
        <==> Abs(p.y - sensor.y) <= offset && Distance(sensor, p) <= d
    decreases offset + 1
  {
    if offset >= 0 {
      RowsFromHits(sensor, d, offset - 1, p);
      var rows := RowsFrom(sensor, d, offset);
      var range := Range(sensor.x - (d - offset), sensor.x + (d - offset));
      var head := [RowRange(sensor.y + offset, range), RowRange(sensor.y - offset, range)];
      assert rows == head + RowsFrom(sensor, d, offset - 1);
      if Hits(rows, p) {
        var e :| e in rows && Blocks(e, p);
        if e in head {
          assert Abs(p.y - sensor.y) == offset;
        }
      }
      if Abs(p.y - sensor.y) <= offset && Distance(sensor, p) <= d {
        if Abs(p.y - sensor.y) == offset {
          var e := if p.y >= sensor.y then head[0] else head[1];
          assert e in rows && Blocks(e, p);
        } else {
          var e :| e in RowsFrom(sensor, d, offset - 1) && Blocks(e, p);
          assert e in rows;
        }
      }
    }
  }

  /** A point lies in some yielded range exactly when it is within the sensor's radius. */
  lemma ReachableRangeByRowCovers(r: Reading, p: Point)
    ensures Hits(ReachableRangeByRow(r), p) <==> Distance(r.sensor, p) <= Radius(r)
  {
    RowsFromHits(r.sensor, Radius(r), Radius(r), p);
  }

  /** `readings.asSequence().flatMap { it.reachableRangeByRow() }` */
  function AllRanges(readings: seq<Reading>): seq<RowRange>
  {
    if readings == [] then [] else ReachableRangeByRow(readings[0]) + AllRanges(readings[1..])
  }

  /** The flattened ranges block exactly the covered points. */
  lemma {:induction false} AllRangesCovers(readings: seq<Reading>, p: Point)
    ensures Hits(AllRanges(readings), p) <==> Covered(readings, p)
  {
    if readings != [] {
      AllRangesCovers(readings[1..], p);
      ReachableRangeByRowCovers(readings[0], p);
      var head := ReachableRangeByRow(readings[0]);
      assert AllRanges(readings) == head + AllRanges(readings[1..]);
      if Hits(AllRanges(readings), p) {
        var e :| e in AllRanges(readings) && Blocks(e, p);
        if e in head {
          assert Hits(head, p);
        } else {
          assert Hits(AllRanges(readings[1..]), p);
        }
      }
      if Covered(readings, p) {
        var r :| r in readings && Distance(r.sensor, p) <= Radius(r);
        if r == readings[0] {
          assert Hits(head, p);
          var e :| e in head && Blocks(e, p);
          assert e in AllRanges(readings);
        } else {
          assert r in readings[1..];
          var e :| e in AllRanges(readings[1..]) && Blocks(e, p);
          assert e in AllRanges(readings);
        }
      }
    }
  }

  // ---------------------------------------------------------------------------
  // Part 1

  /** The points of row `measureY` inside some yielded range. */
  function Reachable(readings: seq<Reading>, measureY: int): set<Point>
  {
    set e, x | e in AllRanges(readings) && e.y == measureY && e.range.first <= x <= e.range.last
      :: Point(x, measureY)
  }

  /** The sensors and beacons standing on row `measureY`. */
  function SensorsAndBeaconsOnLine(readings: seq<Reading>, measureY: int): set<Point>
  {
    set r, p | r in readings && p in {r.sensor, r.beacon} && p.y == measureY :: p
  }

  function Part1(readings: seq<Reading>, measureY: int): int
  {
    |Reachable(readings, measureY) - SensorsAndBeaconsOnLine(readings, measureY)|
  }

  /** The reachable set is exactly the covered points of the row. */
  lemma ReachableIsCovered(readings: seq<Reading>, measureY: int, p: Point)
    ensures p in Reachable(readings, measureY) <==> p.y == measureY && Covered(readings, p)
  {
    AllRangesCovers(readings, p);
    if p.y == measureY && Covered(readings, p) {
      var e :| e in AllRanges(readings) && Blocks(e, p);
      assert p == Point(p.x, measureY);
    }
  }

  /**
   * Part 1 counts the covered points of the row that are neither a sensor nor a
   * beacon.
   */
  lemma Part1Counts(readings: seq<Reading>, measureY: int, p: Point)
    ensures p in Reachable(readings, measureY) - SensorsAndBeaconsOnLine(readings, measureY)
        <==> p.y == measureY && Covered(readings, p)
             && forall r :: r in readings ==> p != r.sensor && p != r.beacon
  {
    ReachableIsCovered(readings, measureY, p);
    if p.y == measureY && exists r :: r in readings && (p == r.sensor || p == r.beacon) {
      var r :| r in readings && (p == r.sensor || p == r.beacon);
      assert p in {r.sensor, r.beacon};
    }
  }
  /** Part 1 is the number of points of row `measureY` that some sensor covers and that are
      neither a sensor nor a beacon, for any set holding exactly those points. */
  lemma Part1IsCount(readings: seq<Reading>, measureY: int, counted: set<Point>)
    requires forall p :: p in counted <==>
      (p.y == measureY && Covered(readings, p) && forall r :: r in readings ==> p != r.sensor && p != r.beacon)
    ensures Part1(readings, measureY) == |counted|
  {
    forall p | p in Reachable(readings, measureY) - SensorsAndBeaconsOnLine(readings, measureY)
      ensures p in counted
    {
      Part1Counts(readings, measureY, p);
    }
    forall p | p in counted
      ensures p in Reachable(readings, measureY) - SensorsAndBeaconsOnLine(readings, measureY)
    {
      Part1Counts(readings, measureY, p);
    }
    assert counted == Reachable(readings, measureY) - SensorsAndBeaconsOnLine(readings, measureY);
  }


  // ---------------------------------------------------------------------------
  // Part 2: the rows of the solution space, grouped

  /** `.filter { (y, _) -> y in solutionSpace }` */
  function InSpace(entries: seq<RowRange>, maximum: int): (r: seq<RowRange>)
    ensures forall e :: e in r <==> e in entries && 0 <= e.y <= maximum
  {
    if entries == [] then []
    else if 0 <= entries[0].y <= maximum then [entries[0]] + InSpace(entries[1..], maximum)
    else InSpace(entries[1..], maximum)
  }

  /** The keys of `groupBy`, in the order in which they first appear. */
  function Keys(entries: seq<RowRange>): (keys: seq<int>)
    ensures forall y :: y in keys <==> exists e :: e in entries && e.y == y
  {
    if entries == [] then []
    else
      var init := entries[..|entries| - 1];
      var lastEntry := entries[|entries| - 1];
      assert entries == init + [lastEntry];
      var keys := Keys(init);
      if lastEntry.y in keys then keys else keys + [lastEntry.y]
  }

  /** The values `groupBy` collects under key `y`, in order. */
  function Group(entries: seq<RowRange>, y: int): (ranges: seq<Range>)
    ensures forall range :: range in ranges <==> RowRange(y, range) in entries
  {
    if entries == [] then []
    else if entries[0].y == y then [entries[0].range] + Group(entries[1..], y)
    else Group(entries[1..], y)
  }

  predicate InSome(ranges: seq<Range>, x: int)
  {
    exists range :: range in ranges && Contains(range, x)
  }

  // ---------------------------------------------------------------------------
  // Part 2: the gap search

  /** The index of the first blocked area at or after `i` that contains `x`. */
  function FirstHit(ranges: seq<Range>, x: int, i: nat): (r: Option<nat>)
    ensures r.Some? ==> i <= r.value < |ranges| && Contains(ranges[r.value], x)
                        && forall j :: i <= j < r.value ==> !Contains(ranges[j], x)
    ensures r.None? ==> forall j :: i <= j < |ranges| ==> !Contains(ranges[j], x)
    decreases |ranges| - i
  {
    if i >= |ranges| then None
    else if Contains(ranges[i], x) then Some(i)
    else FirstHit(ranges, x, i + 1)
  }

  /**
   * The `while (solution < limit)` loop over one row: a solution inside a blocked
   * area jumps past its end; one outside every area is the gap. The source's
   * limit is `maximum`.
   */
  function ScanRow(ranges: seq<Range>, solution: int, limit: int): Option<int>
    decreases limit - solution
  {
    if solution >= limit then None
    else match FirstHit(ranges, solution, 0)
      case None => Some(solution)
      case Some(i) => ScanRow(ranges, ranges[i].last + 1, limit)
  }

  /** A gap the scan reports lies at or after its start, below the limit, and in no blocked area. */
  lemma {:induction false} ScanRowSound(ranges: seq<Range>, solution: int, limit: int)
    ensures ScanRow(ranges, solution, limit).Some? ==>
      var x := ScanRow(ranges, solution, limit).value;
      solution <= x < limit && !InSome(ranges, x)
    decreases limit - solution
  {
    if solution < limit {
      match FirstHit(ranges, solution, 0)
      case None =>
      case Some(i) => ScanRowSound(ranges, ranges[i].last + 1, limit);
    }
  }

  /** When the scan finds nothing, every x from its start up to the limit is blocked. */
  lemma {:induction false} ScanRowExhaustive(ranges: seq<Range>, solution: int, limit: int, x: int)
    requires ScanRow(ranges, solution, limit).None?
    requires solution <= x < limit
    ensures InSome(ranges, x)
    decreases limit - solution
  {
    match FirstHit(ranges, solution, 0)
    case None =>
    case Some(i) =>
      if x <= ranges[i].last {
        assert ranges[i] in ranges && Contains(ranges[i], x);
      } else {
        ScanRowExhaustive(ranges, ranges[i].last + 1, limit, x);
      }
  }

  /** The `for ((y, blockedAreas) in ...)` loop: the first row with a gap gives the answer. */
  function SearchRows(rows: seq<int>, entries: seq<RowRange>, limit: int): Option<int>
  {
    if rows == [] then None
    else match ScanRow(Group(entries, rows[0]), 0, limit)
      case Some(x) => Some(x * 4000000 + rows[0])
      case None => SearchRows(rows[1..], entries, limit)
  }

  /** The blocked areas grouped by row, restricted to the solution space `0..maximum`. */
  function BlockedAreas(readings: seq<Reading>, maximum: int): seq<RowRange>
  {
    InSpace(AllRanges(readings), maximum)
  }

  function Search(readings: seq<Reading>, maximum: int, limit: int): Option<int>
  {
    var entries := BlockedAreas(readings, maximum);
    SearchRows(Keys(entries), entries, limit)
  }

  /** `part2` as written: `None` stands for the "Distress signal not found" error. */
  function Part2(readings: seq<Reading>, maximum: int): (r: Option<int>)
    ensures r.Some? ==>
      exists p: Point :: 0 <= p.x < maximum && 0 <= p.y <= maximum && !Covered(readings, p)
        && r.value == p.x * 4000000 + p.y
  {
    SearchSound(readings, maximum, maximum);
    Search(readings, maximum, maximum)
  }

  /** `part2` with the evidently intended guard `solution <= maximum`. */
  function Part2Corrected(readings: seq<Reading>, maximum: int): (r: Option<int>)
    ensures r.Some? ==>
      exists p: Point :: 0 <= p.x <= maximum && 0 <= p.y <= maximum && !Covered(readings, p)
        && r.value == p.x * 4000000 + p.y
  {
    SearchSound(readings, maximum, maximum + 1);
    Search(readings, maximum, maximum + 1)
  }

  /** A point of the solution space is blocked in its row's group exactly when it is covered. */
  lemma GroupCovers(readings: seq<Reading>, maximum: int, p: Point)
    requires 0 <= p.y <= maximum
    ensures InSome(Group(BlockedAreas(readings, maximum), p.y), p.x) <==> Covered(readings, p)
  {
    var entries := BlockedAreas(readings, maximum);
    AllRangesCovers(readings, p);
    if InSome(Group(entries, p.y), p.x) {
      var range :| range in Group(entries, p.y) && Contains(range, p.x);
      assert Blocks(RowRange(p.y, range), p);
    }
    if Covered(readings, p) {
      var e :| e in AllRanges(readings) && Blocks(e, p);
      assert e.range in Group(entries, p.y);
    }
  }

  lemma {:induction false} SearchRowsSound(readings: seq<Reading>, maximum: int, limit: int, rows: seq<int>)
    requires forall y :: y in rows ==> 0 <= y <= maximum
    ensures SearchRows(rows, BlockedAreas(readings, maximum), limit).Some? ==>
      exists p: Point :: 0 <= p.x < limit && 0 <= p.y <= maximum && !Covered(readings, p)
        && SearchRows(rows, BlockedAreas(readings, maximum), limit).value == p.x * 4000000 + p.y
  {
    var entries := BlockedAreas(readings, maximum);
    if rows != [] {
      var ranges := Group(entries, rows[0]);
      assert rows[0] in rows;
      ScanRowSound(ranges, 0, limit);
      match ScanRow(ranges, 0, limit)
      case Some(x) =>
        var p := Point(x, rows[0]);
        GroupCovers(readings, maximum, p);
      case None =>
        assert forall y :: y in rows[1..] ==> y in rows;
        SearchRowsSound(readings, maximum, limit, rows[1..]);
    }
  }

  /**
   * Whatever the guard, a reported answer is `x * 4000000 + y` for a point of the
   * solution space that no sensor covers.
   */
  lemma SearchSound(readings: seq<Reading>, maximum: int, limit: int)
    ensures Search(readings, maximum, limit).Some? ==>
      exists p: Point :: 0 <= p.x < limit && 0 <= p.y <= maximum && !Covered(readings, p)
        && Search(readings, maximum, limit).value == p.x * 4000000 + p.y
  {
    var entries := BlockedAreas(readings, maximum);
    forall y | y in Keys(entries)
      ensures 0 <= y <= maximum
    {
      var e :| e in entries && e.y == y;
    }
    SearchRowsSound(readings, maximum, limit, Keys(entries));
  }

  lemma {:induction false} SearchRowsExhaustive(readings: seq<Reading>, maximum: int, limit: int, rows: seq<int>, p: Point)
    requires SearchRows(rows, BlockedAreas(readings, maximum), limit).None?
    requires p.y in rows && 0 <= p.y <= maximum && 0 <= p.x < limit
    ensures Covered(readings, p)
  {
    var entries := BlockedAreas(readings, maximum);
    var ranges := Group(entries, rows[0]);
    assert ScanRow(ranges, 0, limit).None?;
    if p.y == rows[0] {
      ScanRowExhaustive(ranges, 0, limit, p.x);
      GroupCovers(readings, maximum, p);
    } else {
      SearchRowsExhaustive(readings, maximum, limit, rows[1..], p);
    }
  }

  /**
   * When the search fails, every point left of the limit is covered on each row of
   * the solution space that has any covered point at all (rows with none never
   * become a key of `groupBy`).
   */
  lemma SearchExhaustive(readings: seq<Reading>, maximum: int, limit: int, p: Point, q: Point)
    requires Search(readings, maximum, limit).None?
    requires 0 <= p.x < limit && 0 <= p.y <= maximum
    requires q.y == p.y && Covered(readings, q)
    ensures Covered(readings, p)
  {
    var entries := BlockedAreas(readings, maximum);
    AllRangesCovers(readings, q);
    var e :| e in AllRanges(readings) && Blocks(e, q);
    assert e in entries;
    SearchRowsExhaustive(readings, maximum, limit, Keys(entries), p);
  }

  /** The corrected search succeeds whenever a row with some coverage has a gap in 0..maximum. */
  lemma Part2CorrectedComplete(readings: seq<Reading>, maximum: int, p: Point, q: Point)
    requires 0 <= p.x <= maximum && 0 <= p.y <= maximum && !Covered(readings, p)
    requires q.y == p.y && Covered(readings, q)
    ensures Part2Corrected(readings, maximum).Some?
  {
    if Part2Corrected(readings, maximum).None? {
      SearchExhaustive(readings, maximum, maximum + 1, p, q);
    }
  }

  /** The blocked areas of one sensor at (0, 0) with its beacon at (0, 1), in the square 0..1. */
  lemma ExampleBlockedAreas()
    ensures BlockedAreas([Reading(Point(0, 0), Point(0, 1))], 1)
         == [RowRange(1, Range(0, 0)), RowRange(0, Range(-1, 1)), RowRange(0, Range(-1, 1))]
  {
    var readings := [Reading(Point(0, 0), Point(0, 1))];
    var a := Range(0, 0);
    var b := Range(-1, 1);
    var s := Point(0, 0);
    assert Radius(readings[0]) == 1;
    assert RowsFrom(s, 1, -1) == [];
    assert RowsFrom(s, 1, 0) == [RowRange(0, b), RowRange(0, b)];
    assert RowsFrom(s, 1, 1) == [RowRange(1, a), RowRange(-1, a)] + RowsFrom(s, 1, 0);
    assert AllRanges(readings[1..]) == [];
    assert AllRanges(readings) == [RowRange(1, a), RowRange(-1, a), RowRange(0, b), RowRange(0, b)];
  }

  /** Its rows are grouped as 1 then 0. */
  lemma ExampleGroups()
    ensures var entries := [RowRange(1, Range(0, 0)), RowRange(0, Range(-1, 1)), RowRange(0, Range(-1, 1))];
      Keys(entries) == [1, 0]
      && Group(entries, 1) == [Range(0, 0)] && Group(entries, 0) == [Range(-1, 1), Range(-1, 1)]
  {
    var a := Range(0, 0);
    var b := Range(-1, 1);
    var entries := [RowRange(1, a), RowRange(0, b), RowRange(0, b)];
    assert Keys(entries) == [1, 0] by {
      var one := [RowRange(1, a)];
      var two := [RowRange(1, a), RowRange(0, b)];
      assert one[..0] == [] && Keys(one) == [1];
      assert two[..1] == one && Keys(two) == [1, 0];
      assert entries[..2] == two;
    }
    assert entries[1..] == [RowRange(0, b), RowRange(0, b)];
    assert entries[1..][1..] == [RowRange(0, b)];
    assert entries[1..][1..][1..] == [];
    assert Group(entries[1..][1..][1..], 1) == [] && Group(entries[1..][1..][1..], 0) == [];
    assert Group(entries[1..][1..], 1) == [] && Group(entries[1..][1..], 0) == [b];
    assert Group(entries[1..], 1) == [] && Group(entries[1..], 0) == [b, b];
  }

  /** Only the corrected guard finds the gap at x = 1 on row 1. */
  lemma ExampleSearch(limit: int)
    requires limit == 1 || limit == 2
    ensures var entries := [RowRange(1, Range(0, 0)), RowRange(0, Range(-1, 1)), RowRange(0, Range(-1, 1))];
      SearchRows(Keys(entries), entries, limit) == if limit == 1 then None else Some(4000001)
  {
    var a := Range(0, 0);
    var b := Range(-1, 1);
    ExampleGroups();
    assert FirstHit([a], 0, 0) == Some(0);
    if limit == 1 {
      assert ScanRow([a], 0, 1) == None;
      assert FirstHit([b, b], 0, 0) == Some(0);
      assert ScanRow([b, b], 0, 1) == None;
      assert [1, 0][1..] == [0];
    } else {
      assert FirstHit([a], 1, 0) == None;
      assert ScanRow([a], 0, 2) == Some(1);
    }
  }

  /**
   * As written, the search never tests x = maximum: with one sensor at (0, 0) whose
   * beacon is at (0, 1) and maximum 1, the point (1, 1) is uncovered, yet part 2
   * fails; the corrected guard finds it.
   */
  lemma Part2MissesLastColumn()
    ensures var readings := [Reading(Point(0, 0), Point(0, 1))];
      !Covered(readings, Point(1, 1)) && Covered(readings, Point(0, 1))
      && Part2(readings, 1).None?
      && Part2Corrected(readings, 1) == Some(1 * 4000000 + 1)
  {
    var readings := [Reading(Point(0, 0), Point(0, 1))];
    assert Part2(readings, 1).None? && Part2Corrected(readings, 1) == Some(4000001) by {
      var entries := [RowRange(1, Range(0, 0)), RowRange(0, Range(-1, 1)), RowRange(0, Range(-1, 1))];
      ExampleBlockedAreas();
      ExampleSearch(1);
      ExampleSearch(2);
    }
    ExampleCoverage();
  }

  /** In that example the sensor covers (0, 1) but not (1, 1). */
  lemma ExampleCoverage()
    ensures var readings := [Reading(Point(0, 0), Point(0, 1))];
      !Covered(readings, Point(1, 1)) && Covered(readings, Point(0, 1))
  {
    var readings := [Reading(Point(0, 0), Point(0, 1))];
    assert readings[0] in readings && Distance(Point(0, 0), Point(0, 1)) <= Radius(readings[0]);
    assert Distance(Point(0, 0), Point(1, 1)) == 2;
  }

  // ---------------------------------------------------------------------------
  // Part 2: the loops of the source

  /** The scan of the blocked areas for one candidate: the first area holding it moves the
      candidate just past that area's end. */
  method JumpPastBlockedArea(blockedAreas: seq<Range>, current: int) returns (solution: int, hitBlockedArea: bool)
    ensures hitBlockedArea <==> FirstHit(blockedAreas, current, 0).Some?
    ensures hitBlockedArea ==> solution == blockedAreas[FirstHit(blockedAreas, current, 0).value].last + 1
    ensures !hitBlockedArea ==> solution == current
  {
    solution := current;
    hitBlockedArea := false;
    var i := 0;
    while i < |blockedAreas| && !hitBlockedArea
      invariant 0 <= i <= |blockedAreas|
      invariant !hitBlockedArea ==>
        solution == current && FirstHit(blockedAreas, current, 0) == FirstHit(blockedAreas, current, i)
      invariant hitBlockedArea ==>
        0 < i && FirstHit(blockedAreas, current, 0) == Some(i - 1)
        && solution == blockedAreas[i - 1].last + 1
    {
      if Contains(blockedAreas[i], solution) {
        solution := blockedAreas[i].last + 1;
        hitBlockedArea := true;
      }
      i := i + 1;
    }
  }

  /** The `while (solution < maximum)` loop over one row's blocked areas: the first candidate
      in no blocked area is the gap. */
  method ScanForGap(blockedAreas: seq<Range>, maximum: int) returns (gap: Option<int>)
    ensures gap == ScanRow(blockedAreas, 0, maximum)
  {
    var solution := 0;
    while solution < maximum
      invariant ScanRow(blockedAreas, 0, maximum) == ScanRow(blockedAreas, solution, maximum)
      decreases maximum - solution
    {
      var hitBlockedArea;
      solution, hitBlockedArea := JumpPastBlockedArea(blockedAreas, solution);
      if !hitBlockedArea {
        return Some(solution);
      }
    }
    return None;
  }

  /** `part2`: the first row, in order of first appearance, with a gap gives the tuning frequency. */
  method FindDistressSignal(readings: seq<Reading>, maximum: int) returns (r: Option<int>)
    ensures r == Part2(readings, maximum)
  {
    var entries := BlockedAreas(readings, maximum);
    var rows := Keys(entries);
    var k := 0;
    while k < |rows|
      invariant 0 <= k <= |rows|
      invariant SearchRows(rows, entries, maximum) == SearchRows(rows[k..], entries, maximum)
    {
      var y := rows[k];
      var gap := ScanForGap(Group(entries, y), maximum);
      if gap.Some? {
        return Some(gap.value * 4000000 + y);
      }
      assert rows[k..][1..] == rows[k + 1..];
      k := k + 1;
    }
    return None;
  }
}
