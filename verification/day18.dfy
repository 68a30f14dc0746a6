/**
 * Day 18 (src/Day18.kt): a lava droplet is scanned as unit cubes, one "x,y,z" line each.
 * Part 1 counts the cube faces that do not touch another lava cube; part 2 counts only
 * those faces that water, flooding in from a corner of the droplet's bounding box of air,
 * can reach.
 */
module Day18 {
  import opened Utils
  import opened Text

  datatype Cube = Cube(x: int, y: int, z: int)

  // ---------------------------------------------------------------------------
  // Parsing

  /**
   * `toCube`: all pieces are converted before the first three are taken apart, so a
   * fourth piece that is not a number fails as well, and fewer than three pieces fail.
   */
  function ToCube(line: string): Option<Cube>
  {
    match ParseInts(SplitOn(line, ','))
    case Some(ns) => if |ns| < 3 then None else Some(Cube(ns[0], ns[1], ns[2]))
    case None => None
  }

  /** A line is a cube when it has at least three pieces, all numbers; the first three are its coordinates. */
  lemma ToCubeFields(line: string)
    ensures ToCube(line).Some? <==> (|SplitOn(line, ',')| >= 3
      && forall i :: 0 <= i < |SplitOn(line, ',')| ==> ParseInt(SplitOn(line, ',')[i]).Some?)
    ensures ToCube(line).Some? ==> (var parts := SplitOn(line, ','); var c := ToCube(line).value;
      ParseInt(parts[0]) == Some(c.x) && ParseInt(parts[1]) == Some(c.y) && ParseInt(parts[2]) == Some(c.z))
  {
  }

  /** The scan line of a cube. */
  function CubeText(c: Cube): string
  {
    IntToString(c.x) + "," + IntToString(c.y) + "," + IntToString(c.z)
  }

  /** Every cube reads back from its scan line. */
  lemma ToCubeOfText(c: Cube)
    ensures ToCube(CubeText(c)) == Some(c)
  {
    var parts := [IntToString(c.x), IntToString(c.y), IntToString(c.z)];
    NumberOmits(c.x, ',');
    NumberOmits(c.y, ',');
    NumberOmits(c.z, ',');
    assert Join(parts, [',']) == CubeText(c) by {
      assert parts[1..][1..] == [IntToString(c.z)];
      assert Join(parts[1..], [',']) == IntToString(c.y) + [','] + IntToString(c.z);
    }
    SplitJoin(parts, ',');
    ParseIntToString(c.x);
    ParseIntToString(c.y);
    ParseIntToString(c.z);
  }

  /** `input.mapTo(HashSet()) { it.toCube() }`: a line that is not a cube is an error. */
  function ToCubes(input: seq<string>): (r: Option<seq<Cube>>)
    ensures r.Some? <==> forall i :: 0 <= i < |input| ==> ToCube(input[i]).Some?
    ensures r.Some? ==> |r.value| == |input|
    ensures r.Some? ==> forall i :: 0 <= i < |input| ==> ToCube(input[i]) == Some(r.value[i])
  {
    MapAll(ToCube, input)
  }

  ghost predicate Distinct(s: seq<Cube>)
  {
    forall i, j :: 0 <= i < j < |s| ==> s[i] != s[j]
  }

  /**
   * The order in which the `HashSet` of lava cubes is iterated: each cube once. The model
   * keeps the first occurrences in input order; what is computed from it is a count that
   * `CountFaces` shows to depend on the set alone.
   */
  function Dedup(s: seq<Cube>): (r: seq<Cube>)
    ensures Distinct(r)
    ensures forall c :: c in r <==> c in s
  {
    if s == [] then []
    else
      var d := Dedup(s[..|s| - 1]);
      assert forall c :: c in s <==> c in s[..|s| - 1] || c == s[|s| - 1] by {
        assert s == s[..|s| - 1] + [s[|s| - 1]];
      }
      if s[|s| - 1] in d then d else d + [s[|s| - 1]]
  }

  function AsSet(s: seq<Cube>): (r: set<Cube>)
    ensures forall c :: c in r <==> c in s
  {
    set c | c in s
  }

  // ---------------------------------------------------------------------------
  // Neighbours and faces

  /** Two cubes share a face: they differ by one in exactly one coordinate. */
  predicate Adjacent(a: Cube, b: Cube)
  {
    Abs(a.x - b.x) + Abs(a.y - b.y) + Abs(a.z - b.z) == 1
  }

  /** `neighbors`: the six cubes sharing a face with `c`, each once. */
  function Neighbors(c: Cube): (r: seq<Cube>)
    ensures |r| == 6
    ensures forall i :: 0 <= i < 6 ==> Adjacent(c, r[i])
    ensures forall i, j :: 0 <= i < j < 6 ==> r[i] != r[j]
  {
    [c.(x := c.x + 1), c.(y := c.y + 1), c.(z := c.z + 1),
     c.(x := c.x - 1), c.(y := c.y - 1), c.(z := c.z - 1)]
  }

  /** Every cube sharing a face with `c` is one of its neighbours, and adjacency is symmetric. */
  lemma AdjacentIsNeighbor(c: Cube, n: Cube)
    ensures Adjacent(c, n) <==> n in Neighbors(c)
    ensures Adjacent(c, n) <==> Adjacent(n, c)
  {
    if Adjacent(c, n) {
      if n.x == c.x + 1 {
        assert n == Neighbors(c)[0];
      } else if n.x == c.x - 1 {
        assert n == Neighbors(c)[3];
      } else if n.y == c.y + 1 {
        assert n == Neighbors(c)[1];
      } else if n.y == c.y - 1 {
        assert n == Neighbors(c)[4];
      } else if n.z == c.z + 1 {
        assert n == Neighbors(c)[2];
      } else {
        assert n == Neighbors(c)[5];
      }
    }
  }

  /** `flatMap { it.neighbors() }`: the neighbours of every cube, with repetitions. */
  function PossibleAirCubes(order: seq<Cube>): (r: seq<Cube>)
    ensures |r| == 6 * |order|
  {
    if order == [] then []
    else PossibleAirCubes(order[..|order| - 1]) + Neighbors(order[|order| - 1])
  }

  /** List minus set: the entries not in `lava`, repetitions kept. */
  function Without(s: seq<Cube>, lava: set<Cube>): (r: seq<Cube>)
    ensures |r| <= |s|
    ensures forall c :: c in r <==> c in s && c !in lava
  {
    if s == [] then []
    else
      var w := Without(s[..|s| - 1], lava);
      assert forall c :: c in s <==> c in s[..|s| - 1] || c == s[|s| - 1] by {
        assert s == s[..|s| - 1] + [s[|s| - 1]];
      }
      if s[|s| - 1] in lava then w else w + [s[|s| - 1]]
  }

  /** `filter { it in water }`. */
  function Select(s: seq<Cube>, water: set<Cube>): (r: seq<Cube>)
    ensures |r| <= |s|
    ensures forall c :: c in r <==> c in s && c in water
  {
    if s == [] then []
    else
      var w := Select(s[..|s| - 1], water);
      assert forall c :: c in s <==> c in s[..|s| - 1] || c == s[|s| - 1] by {
        assert s == s[..|s| - 1] + [s[|s| - 1]];
      }
      if s[|s| - 1] in water then w + [s[|s| - 1]] else w
  }

  /**
   * The faces of the cubes in `cubes` that look onto a cube outside `lava` for which
   * `counted` holds, each written as the pair of the cube and the cube it faces.
   */
  ghost function Faces(cubes: set<Cube>, lava: set<Cube>, counted: Cube -> bool): set<(Cube, Cube)>
  {
    set c, n | c in cubes && n in Neighbors(c) && n !in lava && counted(n) :: (c, n)
  }

  /** The exposed surface of the droplet: faces of lava cubes that touch no other lava cube. */
  ghost function SurfaceFaces(lava: set<Cube>): set<(Cube, Cube)>
  {
    Faces(lava, lava, _ => true)
  }

  // ---------------------------------------------------------------------------
  // Part 1

  /** `airCubes`: all neighbours of all lava cubes, less the lava cubes. */
  function AirCubes(cubes: seq<Cube>): seq<Cube>
  {
    Without(PossibleAirCubes(Dedup(cubes)), AsSet(cubes))
  }

  /** `part1`: the number of entries in `airCubes`. */
  function Part1(input: seq<string>): Option<int>
  {
    match ToCubes(input)
    case None => None
    case Some(cubes) => Some(|AirCubes(cubes)|)
  }

  /** Part 1 is the area of the droplet's surface, whatever order the set is iterated in. */
  lemma Part1IsSurfaceArea(input: seq<string>)
    ensures Part1(input).Some? <==> ToCubes(input).Some?
    ensures Part1(input).Some? ==> Part1(input).value == |SurfaceFaces(AsSet(ToCubes(input).value))|
  {
    if ToCubes(input).Some? {
      var cubes := ToCubes(input).value;
      var lava := AsSet(cubes);
      CountFaces(Dedup(cubes), lava, _ => true);
      FilteredEverything(AirCubes(cubes));
      assert AsSet(Dedup(cubes)) == lava;
    }
  }

  /** The entries of `s` for which `counted` holds, in order. */
  ghost function Filtered(s: seq<Cube>, counted: Cube -> bool): seq<Cube>
  {
    if s == [] then []
    else if counted(s[|s| - 1]) then Filtered(s[..|s| - 1], counted) + [s[|s| - 1]]
    else Filtered(s[..|s| - 1], counted)
  }

  lemma {:induction false} FilteredEverything(s: seq<Cube>)
    ensures Filtered(s, _ => true) == s
  {
    if s != [] {
      FilteredEverything(s[..|s| - 1]);
    }
  }

  lemma {:induction false} FilteredConcat(a: seq<Cube>, b: seq<Cube>, counted: Cube -> bool)
    ensures Filtered(a + b, counted) == Filtered(a, counted) + Filtered(b, counted)
  {
    if b != [] {
      assert (a + b)[..|a + b| - 1] == a + b[..|b| - 1];
      FilteredConcat(a, b[..|b| - 1], counted);
    } else {
      assert a + b == a;
    }
  }

  lemma {:induction false} WithoutConcat(a: seq<Cube>, b: seq<Cube>, lava: set<Cube>)
    ensures Without(a + b, lava) == Without(a, lava) + Without(b, lava)
  {
    if b != [] {
      assert (a + b)[..|a + b| - 1] == a + b[..|b| - 1];
      WithoutConcat(a, b[..|b| - 1], lava);
    } else {
      assert a + b == a;
    }
  }

  /** The faces of one cube `c` onto those of the cubes `s` outside `lava` that are counted. */
  ghost function FacesOnto(c: Cube, s: seq<Cube>, lava: set<Cube>, counted: Cube -> bool): set<(Cube, Cube)>
  {
    set n | n in s && n !in lava && counted(n) :: (c, n)
  }

  lemma {:induction false} CountAround(c: Cube, s: seq<Cube>, lava: set<Cube>, counted: Cube -> bool)
    requires Distinct(s)
    ensures |FacesOnto(c, s, lava, counted)| == |Filtered(Without(s, lava), counted)|
  {
    if s != [] {
      var t := s[..|s| - 1];
      var m := s[|s| - 1];
      assert s == t + [m];
      CountAround(c, t, lava, counted);
      AroundStep(c, t, m, lava, counted);
    }
  }

  /** One more cube `m` adds the face onto it exactly when it is counted air. */
  lemma AroundStep(c: Cube, t: seq<Cube>, m: Cube, lava: set<Cube>, counted: Cube -> bool)
    requires m !in t
    ensures m !in lava && counted(m) ==>
      FacesOnto(c, t + [m], lava, counted) == FacesOnto(c, t, lava, counted) + {(c, m)}
      && (c, m) !in FacesOnto(c, t, lava, counted)
      && Filtered(Without(t + [m], lava), counted) == Filtered(Without(t, lava), counted) + [m]
    ensures !(m !in lava && counted(m)) ==>
      FacesOnto(c, t + [m], lava, counted) == FacesOnto(c, t, lava, counted)
      && Filtered(Without(t + [m], lava), counted) == Filtered(Without(t, lava), counted)
  {
    var w := Without(t, lava);
    assert (t + [m])[..|t + [m]| - 1] == t;
    assert (w + [m])[..|w + [m]| - 1] == w;
  }

  /** Counting the air entries for which `counted` holds counts the faces onto them. */
  lemma {:induction false} CountFaces(order: seq<Cube>, lava: set<Cube>, counted: Cube -> bool)
    requires Distinct(order)
    ensures |Filtered(Without(PossibleAirCubes(order), lava), counted)|
      == |Faces(AsSet(order), lava, counted)|
  {
    if order != [] {
      var o := order[..|order| - 1];
      var c := order[|order| - 1];
      assert order == o + [c];
      CountFaces(o, lava, counted);
      WithoutConcat(PossibleAirCubes(o), Neighbors(c), lava);
      FilteredConcat(Without(PossibleAirCubes(o), lava), Without(Neighbors(c), lava), counted);
      CountAround(c, Neighbors(c), lava, counted);
      FacesStep(o, c, lava, counted);
    } else {
      assert Faces(AsSet(order), lava, counted) == {};
    }
  }

  /** One more lava cube `c` adds its own faces, which no earlier cube has. */
  lemma FacesStep(o: seq<Cube>, c: Cube, lava: set<Cube>, counted: Cube -> bool)
    requires c !in o
    ensures Faces(AsSet(o + [c]), lava, counted)
      == Faces(AsSet(o), lava, counted) + FacesOnto(c, Neighbors(c), lava, counted)
    ensures Faces(AsSet(o), lava, counted) * FacesOnto(c, Neighbors(c), lava, counted) == {}
  {
    assert AsSet(o + [c]) == AsSet(o) + {c};
  }

  /** `filter { it in water }` keeps the entries that a predicate agreeing with `water` counts. */
  lemma {:induction false} SelectIsFiltered(s: seq<Cube>, water: set<Cube>, counted: Cube -> bool)
    requires forall n :: counted(n) <==> n in water
    ensures Select(s, water) == Filtered(s, counted)
  {
    if s != [] {
      SelectIsFiltered(s[..|s| - 1], water, counted);
    }
  }

  // ---------------------------------------------------------------------------
  // Part 2: the flood fill

  /** The `IntRange`s `xRange`, `yRange` and `zRange`, as the lowest and the highest corner. */
  datatype Box = Box(low: Cube, high: Cube)

  predicate InBox(box: Box, n: Cube)
  {
    box.low.x <= n.x <= box.high.x && box.low.y <= n.y <= box.high.y && box.low.z <= n.z <= box.high.z
  }

  function BoxCells(box: Box): (r: set<Cube>)
    ensures forall n :: n in r <==> InBox(box, n)
  {
    var r := set x, y, z | box.low.x <= x <= box.high.x && box.low.y <= y <= box.high.y
      && box.low.z <= z <= box.high.z :: Cube(x, y, z);
    assert forall n :: InBox(box, n) ==> n in r by {
      forall n | InBox(box, n) ensures n in r {
        assert n == Cube(n.x, n.y, n.z);
      }
    }
    r
  }

  /** A cube water can fill: inside the box and not lava. */
  predicate Open(lava: set<Cube>, box: Box, n: Cube)
  {
    InBox(box, n) && n !in lava
  }

  /** A walk of at least one step, from face to face, through cubes water can fill. */
  ghost predicate WaterPath(lava: set<Cube>, box: Box, p: seq<Cube>)
  {
    |p| >= 2
    && (forall i :: 0 <= i < |p| - 1 ==> Adjacent(p[i], p[i + 1]))
    && (forall i :: 1 <= i < |p| ==> Open(lava, box, p[i]))
  }

  /** Water entering at `source` reaches `n`. */
  ghost predicate Flooded(lava: set<Cube>, box: Box, source: Cube, n: Cube)
  {
    exists p :: WaterPath(lava, box, p) && p[0] == source && p[|p| - 1] == n
  }

  /** All the cubes water entering at `source` reaches. */
  ghost function WaterReach(lava: set<Cube>, box: Box, source: Cube): set<Cube>
  {
    set n | n in BoxCells(box) && Flooded(lava, box, source, n)
  }

  /** Every open neighbour of `c` is in `water`. */
  ghost predicate Closed(lava: set<Cube>, box: Box, c: Cube, water: set<Cube>)
  {
    forall n :: n in Neighbors(c) && Open(lava, box, n) ==> n in water
  }

  /** Collecting more cubes keeps a cube closed. */
  lemma ClosedGrows(lava: set<Cube>, box: Box, c: Cube, water: set<Cube>, more: set<Cube>)
    requires Closed(lava, box, c, water) && water <= more
    ensures Closed(lava, box, c, more)
  {
  }

  /**
   * Cubes closed before a recursive call stay closed, and the call closes the neighbour it
   * was made for and every cube it collected.
   */
  lemma StillClosed(lava: set<Cube>, box: Box, older: set<Cube>, before: set<Cube>, neighbor: Cube, after: set<Cube>)
    requires older <= before && before + {neighbor} <= after
    requires forall c :: c in before && c !in older ==> Closed(lava, box, c, before)
    requires Closed(lava, box, neighbor, after)
    requires forall c :: c in after && c !in before + {neighbor} ==> Closed(lava, box, c, after)
    ensures forall c :: c in after && c !in older ==> Closed(lava, box, c, after)
  {
    forall c | c in after && c !in older ensures Closed(lava, box, c, after) {
      if c in before {
        ClosedGrows(lava, box, c, before, after);
      }
    }
  }

  /** Water that reaches `cube` also reaches every open cube sharing a face with it. */
  lemma FloodStep(lava: set<Cube>, box: Box, source: Cube, cube: Cube, n: Cube)
    requires cube == source || Flooded(lava, box, source, cube)
    requires Open(lava, box, n) && n in Neighbors(cube)
    ensures Flooded(lava, box, source, n)
  {
    AdjacentIsNeighbor(cube, n);
    if cube == source {
      assert WaterPath(lava, box, [source, n]);
    } else {
      var p :| WaterPath(lava, box, p) && p[0] == source && p[|p| - 1] == cube;
      assert WaterPath(lava, box, p + [n]);
    }
  }

  /** A set closed around the start of a water path contains its end. */
  lemma {:induction false} PathEndsInWater(lava: set<Cube>, box: Box, p: seq<Cube>, water: set<Cube>)
    requires WaterPath(lava, box, p)
    requires Closed(lava, box, p[0], water)
    requires forall c :: c in water ==> Closed(lava, box, c, water)
    ensures p[|p| - 1] in water
    decreases |p|
  {
    AdjacentIsNeighbor(p[0], p[1]);
    assert p[1] in water;
    if |p| > 2 {
      PathEndsInWater(lava, box, p[1..], water);
      assert p[1..][|p| - 2] == p[|p| - 1];
    }
  }

  /**
   * The state `recurseOutside` shares with `part2`: the lava, the box and the growing set
   * `reachableByWater`. `source` is the cube the fill starts from.
   */
  class WaterFill {
    const lava: set<Cube>
    const box: Box
    ghost const source: Cube
    var reachableByWater: set<Cube>

    /** Every cube collected is open and reached from the source. */
    ghost predicate Valid()
      reads this
    {
      forall n :: n in reachableByWater ==> Open(lava, box, n) && Flooded(lava, box, source, n)
    }

    constructor(lava: set<Cube>, box: Box, source: Cube)
      ensures this.lava == lava && this.box == box && this.source == source
      ensures reachableByWater == {} && Valid()
    {
      this.lava := lava;
      this.box := box;
      this.source := source;
      reachableByWater := {};
    }

    /**
     * `recurseOutside`: every open neighbour not collected yet is collected and explored
     * in turn. Afterwards `cube` and every newly collected cube have all their open
     * neighbours collected.
     */
    method RecurseOutside(cube: Cube)
      requires Valid() && (cube == source || Flooded(lava, box, source, cube))
      modifies this
      ensures Valid() && old(reachableByWater) <= reachableByWater
      ensures Closed(lava, box, cube, reachableByWater)
      ensures forall c :: c in reachableByWater && c !in old(reachableByWater) ==>
        Closed(lava, box, c, reachableByWater)
      decreases BoxCells(box) - reachableByWater
    {
      var neighbors := Neighbors(cube);
      for i := 0 to 6
        invariant Valid() && old(reachableByWater) <= reachableByWater
        invariant forall j :: 0 <= j < i && Open(lava, box, neighbors[j]) ==> neighbors[j] in reachableByWater
        invariant forall c :: c in reachableByWater && c !in old(reachableByWater) ==>
          Closed(lava, box, c, reachableByWater)
      {
        var neighbor := neighbors[i];
        if !InBox(box, neighbor) || neighbor in reachableByWater || neighbor in lava {
          continue;
        }
        FloodStep(lava, box, source, cube, neighbor);
        ghost var before := reachableByWater;
        reachableByWater := reachableByWater + {neighbor};
        RecurseOutside(neighbor);
        StillClosed(lava, box, old(reachableByWater), before, neighbor, reachableByWater);
      }
    }
  }

  /** The fill started at the lowest corner collects exactly the cubes water reaches from there. */
  method Flood(lava: set<Cube>, box: Box) returns (water: set<Cube>)
    ensures water == WaterReach(lava, box, box.low)
  {
    var fill := new WaterFill(lava, box, box.low);
    fill.RecurseOutside(box.low);
    water := fill.reachableByWater;
    forall n | n in WaterReach(lava, box, box.low) ensures n in water {
      var p :| WaterPath(lava, box, p) && p[0] == box.low && p[|p| - 1] == n;
      PathEndsInWater(lava, box, p, water);
    }
  }

  /** The ranges of the air cubes' coordinates (`minOf`/`maxOf` throw on an empty list). */
  function AirBox(air: seq<Cube>): (box: Box)
    requires |air| > 0
    ensures forall i :: 0 <= i < |air| ==> InBox(box, air[i])
  {
    var xs := seq(|air|, i requires 0 <= i < |air| => air[i].x);
    var ys := seq(|air|, i requires 0 <= i < |air| => air[i].y);
    var zs := seq(|air|, i requires 0 <= i < |air| => air[i].z);
    var box := Box(Cube(Min(xs), Min(ys), Min(zs)), Cube(Max(xs), Max(ys), Max(zs)));
    assert forall i :: 0 <= i < |air| ==> InBox(box, air[i]) by {
      forall i | 0 <= i < |air| ensures InBox(box, air[i]) {
        assert xs[i] == air[i].x && ys[i] == air[i].y && zs[i] == air[i].z;
      }
    }
    box
  }

  /** A coordinate of `c` along one of the six directions of `Neighbors`, growing in that direction. */
  function Along(c: Cube, i: int): int
    requires 0 <= i < 6
  {
    if i == 0 then c.x else if i == 1 then c.y else if i == 2 then c.z
    else if i == 3 then -c.x else if i == 4 then -c.y else -c.z
  }

  lemma {:induction false} NeighborInPossible(order: seq<Cube>, k: int, i: int)
    requires 0 <= k < |order| && 0 <= i < 6
    ensures Neighbors(order[k])[i] in PossibleAirCubes(order)
    decreases |order|
  {
    var o := order[..|order| - 1];
    if k < |order| - 1 {
      NeighborInPossible(o, k, i);
    }
  }

  /** Beyond the droplet in each of the six directions lies an air cube. */
  lemma AirBeyond(cubes: seq<Cube>, i: int) returns (a: Cube)
    requires |cubes| > 0 && 0 <= i < 6
    ensures a in AirCubes(cubes)
    ensures forall c :: c in cubes ==> Along(c, i) < Along(a, i)
  {
    var d := Dedup(cubes);
    var along := seq(|d|, j requires 0 <= j < |d| => Along(d[j], i));
    var k :| 0 <= k < |d| && along[k] == Max(along);
    a := Neighbors(d[k])[i];
    assert Along(a, i) == Along(d[k], i) + 1;
    forall c | c in cubes ensures Along(c, i) < Along(a, i) {
      var j :| 0 <= j < |d| && d[j] == c;
      assert along[j] <= Max(along);
    }
    NeighborInPossible(d, k, i);
  }

  /**
   * The box has a layer of air all round the droplet: every lava cube lies strictly inside
   * it, so the fill starts outside the droplet, at a corner that is not lava.
   */
  lemma DropletInsideBox(cubes: seq<Cube>)
    requires |cubes| > 0
    ensures |AirCubes(cubes)| > 0
    ensures var box := AirBox(AirCubes(cubes));
      box.low !in cubes
      && forall c :: c in cubes ==>
        (box.low.x < c.x < box.high.x && box.low.y < c.y < box.high.y && box.low.z < c.z < box.high.z)
  {
    var air := AirCubes(cubes);
    var a0 := AirBeyond(cubes, 0);
    var a1 := AirBeyond(cubes, 1);
    var a2 := AirBeyond(cubes, 2);
    var a3 := AirBeyond(cubes, 3);
    var a4 := AirBeyond(cubes, 4);
    var a5 := AirBeyond(cubes, 5);
    var box := AirBox(air);
    assert InBox(box, a0) && InBox(box, a1) && InBox(box, a2);
    assert InBox(box, a3) && InBox(box, a4) && InBox(box, a5);
  }

  /** The faces of the droplet that water flooding the box from its lowest corner touches. */
  ghost function ExteriorFaces(cubes: seq<Cube>): set<(Cube, Cube)>
    requires |cubes| > 0
  {
    DropletInsideBox(cubes);
    var lava := AsSet(cubes);
    var box := AirBox(AirCubes(cubes));
    Faces(lava, lava, n => n in WaterReach(lava, box, box.low))
  }

  /**
   * `part2`: the air entries water reaches. It fails where part 1 fails and also on an empty
   * droplet, whose box is undefined; otherwise it counts the exterior faces, never more
   * than part 1.
   */
  method Part2(input: seq<string>) returns (r: Option<int>)
    ensures r.Some? <==> ToCubes(input).Some? && |ToCubes(input).value| > 0
    ensures r.Some? ==> r.value == |ExteriorFaces(ToCubes(input).value)|
    ensures r.Some? ==> Part1(input).Some? && r.value <= Part1(input).value
  {
    var cubes := ToCubes(input);
    if cubes.None? {
      return None;
    }
    var lava := AsSet(cubes.value);
    var airCubes := AirCubes(cubes.value);
    if |cubes.value| > 0 {
      DropletInsideBox(cubes.value);
    }
    if |airCubes| == 0 {
      return None;
    }
    var box := AirBox(airCubes);
    var reachableByWater := Flood(lava, box);
    var airCubesReachableByWater := Select(airCubes, reachableByWater);
    r := Some(|airCubesReachableByWater|);
    ExteriorCount(cubes.value, reachableByWater);
  }

  /** Counting the air entries water reaches counts the exterior faces. */
  lemma ExteriorCount(cubes: seq<Cube>, water: set<Cube>)
    requires |cubes| > 0 && |AirCubes(cubes)| > 0
    requires var box := AirBox(AirCubes(cubes)); water == WaterReach(AsSet(cubes), box, box.low)
    ensures |Select(AirCubes(cubes), water)| == |ExteriorFaces(cubes)|
  {
    var lava := AsSet(cubes);
    var box := AirBox(AirCubes(cubes));
    var counted := n => n in WaterReach(lava, box, box.low);
    SelectIsFiltered(AirCubes(cubes), water, counted);
    CountFaces(Dedup(cubes), lava, counted);
    assert AsSet(Dedup(cubes)) == lava;
  }
}
