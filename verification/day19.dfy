/**
 * Day 19 (src/Day19.kt): robot factories. A blueprint prices four kinds of robot; each
 * minute every robot collects one unit of its resource and the factory may build one
 * robot from the resources held at the start of the minute. The search finds the most
 * geodes that can be opened in the given minutes, with a cache and pruning rules.
 */
module Day19 {
  import opened Utils

  datatype Blueprint = Blueprint(
    id: int,
    oreRobotOreCost: int,
    clayRobotOreCost: int,
    obsidianRobotOreCost: int,
    obsidianRobotClayCost: int,
    geodeRobotOreCost: int,
    geodeRobotObsidianCost: int)

  datatype RoboterState = RoboterState(
    oreRobots: int, clayRobots: int, obsidianRobots: int, geodeRobots: int,
    ore: int, clay: int, obsidian: int, geode: int)

  /** `RoboterState(oreRobots = 1)`: one ore robot and nothing else. */
  const InitialState := RoboterState(1, 0, 0, 0, 0, 0, 0, 0)

  /** `tick`: every robot collects one unit of its resource. */
  function Tick(s: RoboterState): RoboterState
  {
    s.(ore := s.ore + s.oreRobots, clay := s.clay + s.clayRobots,
       obsidian := s.obsidian + s.obsidianRobots, geode := s.geode + s.geodeRobots)
  }

  // ---------------------------------------------------------------------------
  // The moves of one minute

  predicate CanBuyGeodeRobot(bp: Blueprint, s: RoboterState)
  {
    bp.geodeRobotOreCost <= s.ore && bp.geodeRobotObsidianCost <= s.obsidian
  }

  /** `maxOreCost`: more ore robots than any robot costs in ore would be wasted. */
  function MaxOreCost(bp: Blueprint): (r: int)
    ensures r >= bp.oreRobotOreCost && r >= bp.clayRobotOreCost
    ensures r >= bp.obsidianRobotOreCost && r >= bp.geodeRobotOreCost
    ensures r == bp.oreRobotOreCost || r == bp.clayRobotOreCost
      || r == bp.obsidianRobotOreCost || r == bp.geodeRobotOreCost
  {
    Max2(Max2(Max2(bp.oreRobotOreCost, bp.clayRobotOreCost), bp.obsidianRobotOreCost), bp.geodeRobotOreCost)
  }

  /** `maxClayCost`: clay is spent only on obsidian robots. */
  function MaxClayCost(bp: Blueprint): int
  {
    Max2(bp.clayRobotOreCost, bp.obsidianRobotClayCost)
  }

  predicate BuysOreRobot(bp: Blueprint, s: RoboterState, remainingMinutes: int)
  {
    remainingMinutes > bp.oreRobotOreCost && s.oreRobots < MaxOreCost(bp) && bp.oreRobotOreCost <= s.ore
  }

  predicate BuysClayRobot(bp: Blueprint, s: RoboterState)
  {
    s.clayRobots < MaxClayCost(bp) && bp.clayRobotOreCost <= s.ore
  }

  predicate BuysObsidianRobot(bp: Blueprint, s: RoboterState)
  {
    s.obsidianRobots < bp.geodeRobotObsidianCost
    && bp.obsidianRobotOreCost <= s.ore && bp.obsidianRobotClayCost <= s.clay
  }

  function BoughtGeodeRobot(bp: Blueprint, n: RoboterState): RoboterState
  {
    n.(ore := n.ore - bp.geodeRobotOreCost, obsidian := n.obsidian - bp.geodeRobotObsidianCost,
       geodeRobots := n.geodeRobots + 1)
  }

  function BoughtOreRobot(bp: Blueprint, n: RoboterState): RoboterState
  {
    n.(ore := n.ore - bp.oreRobotOreCost, oreRobots := n.oreRobots + 1)
  }

  function BoughtClayRobot(bp: Blueprint, n: RoboterState): RoboterState
  {
    n.(ore := n.ore - bp.clayRobotOreCost, clayRobots := n.clayRobots + 1)
  }

  function BoughtObsidianRobot(bp: Blueprint, n: RoboterState): RoboterState
  {
    n.(ore := n.ore - bp.obsidianRobotOreCost, clay := n.clay - bp.obsidianRobotClayCost,
       obsidianRobots := n.obsidianRobots + 1)
  }

  /**
   * The states `simulateMinute` explores after `s` with `remainingMinutes` left, in its
   * order: buying a geode robot alone when it is affordable, otherwise waiting and then
   * each other robot the pruning rules allow.
   */
  function Moves(bp: Blueprint, s: RoboterState, remainingMinutes: int): (r: seq<RoboterState>)
    ensures |r| > 0
  {
    if CanBuyGeodeRobot(bp, s) then [BoughtGeodeRobot(bp, Tick(s))]
    else [Tick(s)] + OreMove(bp, s, remainingMinutes) + ClayMove(bp, s) + ObsidianMove(bp, s)
  }

  function OreMove(bp: Blueprint, s: RoboterState, remainingMinutes: int): seq<RoboterState>
  {
    if BuysOreRobot(bp, s, remainingMinutes) then [BoughtOreRobot(bp, Tick(s))] else []
  }

  function ClayMove(bp: Blueprint, s: RoboterState): seq<RoboterState>
  {
    if BuysClayRobot(bp, s) then [BoughtClayRobot(bp, Tick(s))] else []
  }

  function ObsidianMove(bp: Blueprint, s: RoboterState): seq<RoboterState>
  {
    if BuysObsidianRobot(bp, s) then [BoughtObsidianRobot(bp, Tick(s))] else []
  }

  /** `simulateMinute` without the cache: the most geodes opened from `s` in `m` minutes. */
  function Geodes(bp: Blueprint, s: RoboterState, m: nat): int
    decreases m, 0
  {
    if m == 0 then s.geode else BestOf(bp, Moves(bp, s, m), m - 1)
  }

  /**
   * The best result of the search from any of `states` with `m` minutes left, folded
   * from the left as `simulateMinute` raises `maxGeodes` branch by branch.
   */
  function BestOf(bp: Blueprint, states: seq<RoboterState>, m: nat): int
    requires |states| > 0
    decreases m, 1, |states|
  {
    var last := Geodes(bp, states[|states| - 1], m);
    if |states| == 1 then last else Max2(BestOf(bp, states[..|states| - 1], m), last)
  }

  /** No state's result exceeds `BestOf`. */
  lemma {:induction false} BestOfIsUpperBound(bp: Blueprint, states: seq<RoboterState>, m: nat)
    requires |states| > 0
    ensures forall i :: 0 <= i < |states| ==> Geodes(bp, states[i], m) <= BestOf(bp, states, m)
    decreases |states|
  {
    if |states| > 1 {
      var init := states[..|states| - 1];
      BestOfIsUpperBound(bp, init, m);
      assert forall i :: 0 <= i < |init| ==> init[i] == states[i];
    }
  }

  /** Some state attains `BestOf`: the result `k`. */
  lemma {:induction false} BestOfAttained(bp: Blueprint, states: seq<RoboterState>, m: nat) returns (k: nat)
    requires |states| > 0
    ensures k < |states| && Geodes(bp, states[k], m) == BestOf(bp, states, m)
    decreases |states|
  {
    if |states| == 1 {
      k := 0;
    } else {
      var init := states[..|states| - 1];
      var j := BestOfAttained(bp, init, m);
      assert init[j] == states[j];
      k := if BestOf(bp, init, m) >= Geodes(bp, states[|states| - 1], m) then j else |states| - 1;
    }
  }

  /** Exploring one more state folds its result into the best so far. */
  lemma BestOfAppend(bp: Blueprint, states: seq<RoboterState>, next: RoboterState, m: nat)
    requires |states| > 0
    ensures BestOf(bp, states + [next], m) == Max2(BestOf(bp, states, m), Geodes(bp, next, m))
  {
    assert (states + [next])[..|states|] == states;
  }

  /** Without an affordable geode robot the search takes the best of waiting and the allowed purchases. */
  lemma GeodesAfterWaiting(bp: Blueprint, s: RoboterState, m: nat, explored: seq<RoboterState>, best: int)
    requires m > 0 && !CanBuyGeodeRobot(bp, s)
    requires explored == [Tick(s)] + OreMove(bp, s, m) + ClayMove(bp, s) + ObsidianMove(bp, s)
    requires best == BestOf(bp, explored, m - 1)
    ensures best == Geodes(bp, s, m)
  {
  }

  // ---------------------------------------------------------------------------
  // Properties of the moves

  /** No robot count and no resource is negative. */
  predicate NonNegative(s: RoboterState)
  {
    s.oreRobots >= 0 && s.clayRobots >= 0 && s.obsidianRobots >= 0 && s.geodeRobots >= 0
    && s.ore >= 0 && s.clay >= 0 && s.obsidian >= 0 && s.geode >= 0
  }

  /**
   * The rules of one minute: when a geode robot is affordable it is the only move;
   * otherwise waiting comes first. Every move collects with the robots held before it
   * and builds at most one robot, paid from the resources held before the minute.
   */
  lemma MovesFollowRules(bp: Blueprint, s: RoboterState, m: int)
    ensures CanBuyGeodeRobot(bp, s) ==> Moves(bp, s, m) == [BoughtGeodeRobot(bp, Tick(s))]
    ensures !CanBuyGeodeRobot(bp, s) ==> Moves(bp, s, m)[0] == Tick(s)
    ensures forall t :: t in Moves(bp, s, m) ==>
      t.geode == s.geode + s.geodeRobots
      && (t == Tick(s)
        || (t == BoughtGeodeRobot(bp, Tick(s)) && CanBuyGeodeRobot(bp, s))
        || (t == BoughtOreRobot(bp, Tick(s)) && bp.oreRobotOreCost <= s.ore)
        || (t == BoughtClayRobot(bp, Tick(s)) && bp.clayRobotOreCost <= s.ore)
        || (t == BoughtObsidianRobot(bp, Tick(s))
          && bp.obsidianRobotOreCost <= s.ore && bp.obsidianRobotClayCost <= s.clay))
  {
  }

  /** Only affordable robots are built, so resources never go negative. */
  lemma MovesStayNonNegative(bp: Blueprint, s: RoboterState, m: int)
    requires NonNegative(s)
    ensures forall t :: t in Moves(bp, s, m) ==> NonNegative(t)
  {
    MovesFollowRules(bp, s, m);
  }

  /**
   * The saturation caps: an ore robot is built only while fewer ore robots are held than
   * the largest ore price and more minutes remain than it costs; a clay robot only while
   * fewer clay robots are held than the larger of its ore price and the obsidian robot's
   * clay price; an obsidian robot only while fewer are held than the geode robot's
   * obsidian price.
   */
  lemma MovesRespectCaps(bp: Blueprint, s: RoboterState, m: int, t: RoboterState)
    requires t in Moves(bp, s, m)
    ensures t.oreRobots > s.oreRobots ==> m > bp.oreRobotOreCost && s.oreRobots < MaxOreCost(bp)
    ensures t.clayRobots > s.clayRobots ==> s.clayRobots < MaxClayCost(bp)
    ensures t.obsidianRobots > s.obsidianRobots ==> s.obsidianRobots < bp.geodeRobotObsidianCost
    ensures s.geodeRobots <= t.geodeRobots <= s.geodeRobots + 1
    ensures (t.oreRobots - s.oreRobots) + (t.clayRobots - s.clayRobots)
      + (t.obsidianRobots - s.obsidianRobots) + (t.geodeRobots - s.geodeRobots) <= 1
  {
    MovesFollowRules(bp, s, m);
  }

  /**
   * Every move opens one geode per geode robot held before it and builds at most one
   * geode robot.
   */
  lemma MovesCollectGeodes(bp: Blueprint, s: RoboterState, m: int, t: RoboterState)
    requires t in Moves(bp, s, m)
    ensures t.geode == s.geode + s.geodeRobots
    ensures s.geodeRobots <= t.geodeRobots <= s.geodeRobots + 1
  {
    MovesFollowRules(bp, s, m);
  }

  // ---------------------------------------------------------------------------
  // Bounds on the result

  /** Waiting is always a move, so the search does at least as well as after it. */
  lemma FirstMove(bp: Blueprint, s: RoboterState, m: nat) returns (t: RoboterState)
    requires m > 0
    ensures t == Moves(bp, s, m)[0]
    ensures Geodes(bp, t, m - 1) <= Geodes(bp, s, m)
    ensures t.geode == s.geode + s.geodeRobots && t.geodeRobots >= s.geodeRobots
  {
    var moves := Moves(bp, s, m);
    t := moves[0];
    MovesCollectGeodes(bp, s, m, t);
    BestOfIsUpperBound(bp, moves, m - 1);
  }

  /** Some move attains the result of the search. */
  lemma BestMove(bp: Blueprint, s: RoboterState, m: nat) returns (t: RoboterState)
    requires m > 0
    ensures t in Moves(bp, s, m)
    ensures Geodes(bp, t, m - 1) == Geodes(bp, s, m)
    ensures t.geode == s.geode + s.geodeRobots && t.geodeRobots <= s.geodeRobots + 1
  {
    var moves := Moves(bp, s, m);
    var k := BestOfAttained(bp, moves, m - 1);
    t := moves[k];
    MovesCollectGeodes(bp, s, m, t);
  }

  /**
   * The search never does worse than waiting: the geodes held plus what the geode
   * robots already held open in the remaining minutes. With no minutes left that is
   * exactly the geodes held.
   */
  lemma {:induction false} GeodesAtLeastWaiting(bp: Blueprint, s: RoboterState, m: nat)
    ensures Geodes(bp, s, m) >= s.geode + m * s.geodeRobots
    ensures m == 0 ==> Geodes(bp, s, m) == s.geode
    decreases m
  {
    if m > 0 {
      var first := FirstMove(bp, s, m);
      GeodesAtLeastWaiting(bp, first, m - 1);
      OneMinuteWaiting(s, first, m, Geodes(bp, s, m));
    }
  }

  /** The arithmetic of one minute of `GeodesAtLeastWaiting`. */
  lemma OneMinuteWaiting(s: RoboterState, t: RoboterState, m: nat, g: int)
    requires m > 0 && t.geode == s.geode + s.geodeRobots && t.geodeRobots >= s.geodeRobots
    requires g >= t.geode + (m - 1) * t.geodeRobots
    ensures g >= s.geode + m * s.geodeRobots
  {
    MulMonotone(s.geodeRobots, t.geodeRobots, m - 1);
  }

  /** `0 + 1 + ... + (m - 1)`. */
  function Triangle(m: nat): nat
  {
    if m == 0 then 0 else Triangle(m - 1) + (m - 1)
  }

  /**
   * At most one geode robot is built per minute, so in `m` minutes the search opens at
   * most the geodes held, what the robots held open, and `0 + 1 + ... + (m - 1)` more.
   */
  lemma {:induction false} GeodesAtMostOneRobotPerMinute(bp: Blueprint, s: RoboterState, m: nat)
    ensures Geodes(bp, s, m) <= s.geode + m * s.geodeRobots + Triangle(m)
    decreases m
  {
    if m > 0 {
      var t := BestMove(bp, s, m);
      GeodesAtMostOneRobotPerMinute(bp, t, m - 1);
      OneMinuteBound(s, t, m, Geodes(bp, t, m - 1));
    }
  }

  /** The arithmetic of one minute of `GeodesAtMostOneRobotPerMinute`. */
  lemma OneMinuteBound(s: RoboterState, t: RoboterState, m: nat, g: int)
    requires m > 0 && t.geode == s.geode + s.geodeRobots && t.geodeRobots <= s.geodeRobots + 1
    requires g <= t.geode + (m - 1) * t.geodeRobots + Triangle(m - 1)
    ensures g <= s.geode + m * s.geodeRobots + Triangle(m)
  {
    MulMonotone(t.geodeRobots, s.geodeRobots + 1, m - 1);
  }

  // ---------------------------------------------------------------------------
  // The search with its cache

  /**
   * `runSimulation`'s local state: the blueprint and the cache from a state and the
   * minutes left to the result.
   */
  class Simulation {
    const blueprint: Blueprint
    var cache: map<(RoboterState, int), int>

    /** Every cached result is the result of the search without the cache. */
    ghost predicate Valid()
      reads this
    {
      forall key :: key in cache ==> key.1 >= 0 && cache[key] == Geodes(blueprint, key.0, key.1)
    }

    constructor(blueprint: Blueprint)
      ensures this.blueprint == blueprint && cache == map[] && Valid()
    {
      this.blueprint := blueprint;
      cache := map[];
    }

    /** `simulateMinute`: the cached search, equal to the search without the cache. */
    method SimulateMinute(state: RoboterState, remainingMinutes: int) returns (r: int)
      requires Valid() && remainingMinutes >= 0
      modifies this
      ensures Valid() && r == Geodes(blueprint, state, remainingMinutes)
      decreases remainingMinutes
    {
      var cacheKey := (state, remainingMinutes);
      if cacheKey in cache {
        return cache[cacheKey];
      }
      if remainingMinutes == 0 {
        return state.geode;
      }
      var newState := Tick(state);
      if blueprint.geodeRobotOreCost <= state.ore && blueprint.geodeRobotObsidianCost <= state.obsidian {
        var boughtGeodeRobot := BoughtGeodeRobot(blueprint, newState);
        r := SimulateMinute(boughtGeodeRobot, remainingMinutes - 1);
        return;
      }
      r := Explore(state, newState, remainingMinutes);
      cache := cache[cacheKey := r];
    }

    /**
     * The branches of `simulateMinute` after waiting: `maxGeodes` starts at the result of
     * waiting and is raised by each robot the pruning rules allow.
     */
    method Explore(state: RoboterState, newState: RoboterState, remainingMinutes: int) returns (maxGeodes: int)
      requires Valid() && remainingMinutes > 0 && newState == Tick(state)
      requires !CanBuyGeodeRobot(blueprint, state)
      modifies this
      ensures Valid() && maxGeodes == Geodes(blueprint, state, remainingMinutes)
      decreases remainingMinutes, 0
    {
      ghost var m := remainingMinutes - 1;
      maxGeodes := SimulateMinute(newState, remainingMinutes - 1);
      ghost var explored := [newState];

      var maxOreCost := MaxOreCost(blueprint);
      if remainingMinutes > blueprint.oreRobotOreCost && state.oreRobots < maxOreCost
        && blueprint.oreRobotOreCost <= state.ore
      {
        var boughtOreRobot := BoughtOreRobot(blueprint, newState);
        var geodes := SimulateMinute(boughtOreRobot, remainingMinutes - 1);
        Explored(blueprint, explored, OreMove(blueprint, state, remainingMinutes), boughtOreRobot, m, maxGeodes, geodes);
        maxGeodes := Max2(maxGeodes, geodes);
      } else {
        NothingExplored(explored, OreMove(blueprint, state, remainingMinutes));
      }
      explored := explored + OreMove(blueprint, state, remainingMinutes);

      var maxClayCost := MaxClayCost(blueprint);
      if state.clayRobots < maxClayCost && blueprint.clayRobotOreCost <= state.ore {
        var boughtClayRobot := BoughtClayRobot(blueprint, newState);
        var geodes := SimulateMinute(boughtClayRobot, remainingMinutes - 1);
        Explored(blueprint, explored, ClayMove(blueprint, state), boughtClayRobot, m, maxGeodes, geodes);
        maxGeodes := Max2(maxGeodes, geodes);
      } else {
        NothingExplored(explored, ClayMove(blueprint, state));
      }
      explored := explored + ClayMove(blueprint, state);

      var maxObsidianCost := blueprint.geodeRobotObsidianCost;
      if state.obsidianRobots < maxObsidianCost && blueprint.obsidianRobotOreCost <= state.ore
        && blueprint.obsidianRobotClayCost <= state.clay
      {
        var boughtObsidianRobot := BoughtObsidianRobot(blueprint, newState);
        var geodes := SimulateMinute(boughtObsidianRobot, remainingMinutes - 1);
        Explored(blueprint, explored, ObsidianMove(blueprint, state), boughtObsidianRobot, m, maxGeodes, geodes);
        maxGeodes := Max2(maxGeodes, geodes);
      } else {
        NothingExplored(explored, ObsidianMove(blueprint, state));
      }
      explored := explored + ObsidianMove(blueprint, state);
      GeodesAfterWaiting(blueprint, state, remainingMinutes, explored, maxGeodes);
    }
  }

  /** One more explored state folds its result into the best so far. */
  lemma Explored(bp: Blueprint, explored: seq<RoboterState>, more: seq<RoboterState>, next: RoboterState,
                 m: nat, best: int, geodes: int)
    requires |explored| > 0 && best == BestOf(bp, explored, m)
    requires more == [next] && geodes == Geodes(bp, next, m)
    ensures Max2(best, geodes) == BestOf(bp, explored + more, m)
  {
    BestOfAppend(bp, explored, next, m);
  }

  /** A robot the pruning rules skip adds no state. */
  lemma NothingExplored(explored: seq<RoboterState>, more: seq<RoboterState>)
    requires more == []
    ensures explored + more == explored
  {
  }

  /** `runSimulation`: the search from the initial state with a fresh cache. */
  method RunSimulation(blueprint: Blueprint, minutes: int) returns (r: int)
    requires minutes >= 0
    ensures r == Geodes(blueprint, InitialState, minutes)
  {
    var simulation := new Simulation(blueprint);
    r := simulation.SimulateMinute(InitialState, minutes);
  }

  // ---------------------------------------------------------------------------
  // The answers

  /** The quality level of each blueprint: its id times the most geodes in `minutes`. */
  function QualityLevels(blueprints: seq<Blueprint>, minutes: nat): (r: seq<int>)
    ensures |r| == |blueprints|
  {
    seq(|blueprints|, i requires 0 <= i < |blueprints| => QualityLevel(blueprints[i], minutes))
  }

  /** `blueprint.id * maxGeodes`. */
  function QualityLevel(blueprint: Blueprint, minutes: nat): int
  {
    blueprint.id * Geodes(blueprint, InitialState, minutes)
  }

  /** One more blueprint adds its quality level to the sum. */
  lemma QualitySumStep(blueprints: seq<Blueprint>, i: nat, minutes: nat)
    requires i < |blueprints|
    ensures Sum(QualityLevels(blueprints[..i + 1], minutes))
      == Sum(QualityLevels(blueprints[..i], minutes)) + QualityLevel(blueprints[i], minutes)
  {
    var levels := QualityLevels(blueprints[..i + 1], minutes);
    assert levels[..i] == QualityLevels(blueprints[..i], minutes);
  }

  /** The loop of `part1`: the sum of the quality levels after `minutes` minutes. */
  method SumQualityLevels(blueprints: seq<Blueprint>, minutes: nat) returns (r: int)
    ensures r == Sum(QualityLevels(blueprints, minutes))
  {
    r := 0;
    for i := 0 to |blueprints|
      invariant r == Sum(QualityLevels(blueprints[..i], minutes))
    {
      QualitySumStep(blueprints, i, minutes);
      var maxGeodes := RunSimulation(blueprints[i], minutes);
      r := r + blueprints[i].id * maxGeodes;
    }
    assert blueprints[..|blueprints|] == blueprints;
  }

  /** `part1`: the sum of the quality levels after 24 minutes. */
  method Part1(blueprints: seq<Blueprint>) returns (r: int)
    ensures r == Sum(QualityLevels(blueprints, 24))
  {
    r := SumQualityLevels(blueprints, 24);
  }

  /** The most geodes each blueprint opens in `minutes`. */
  function MostGeodes(blueprints: seq<Blueprint>, minutes: nat): (r: seq<int>)
    ensures |r| == |blueprints|
  {
    seq(|blueprints|, i requires 0 <= i < |blueprints| => Geodes(blueprints[i], InitialState, minutes))
  }

  /** One more blueprint appends its result. */
  lemma MostGeodesStep(blueprints: seq<Blueprint>, i: nat, minutes: nat)
    requires i < |blueprints|
    ensures MostGeodes(blueprints[..i + 1], minutes)
      == MostGeodes(blueprints[..i], minutes) + [Geodes(blueprints[i], InitialState, minutes)]
  {
    var results := MostGeodes(blueprints[..i + 1], minutes);
    assert results[..i] == MostGeodes(blueprints[..i], minutes);
    SplitLast(results);
  }

  /** The loop of `part2`: the result of each blueprint after `minutes` minutes. */
  method RunAll(blueprints: seq<Blueprint>, minutes: nat) returns (results: seq<int>)
    ensures results == MostGeodes(blueprints, minutes)
  {
    results := [];
    for i := 0 to |blueprints|
      invariant results == MostGeodes(blueprints[..i], minutes)
    {
      MostGeodesStep(blueprints, i, minutes);
      var maxGeodes := RunSimulation(blueprints[i], minutes);
      results := results + [maxGeodes];
    }
    assert blueprints[..|blueprints|] == blueprints;
  }

  /**
   * `part2`: the product of the results after 32 minutes of the first three blueprints
   * (fewer when there are fewer); `product` of an empty list throws.
   */
  method Part2(blueprints: seq<Blueprint>) returns (r: Option<int>)
    ensures r.None? <==> |blueprints| == 0
    ensures r.Some? ==> r.value == Product(MostGeodes(blueprints[..if |blueprints| < 3 then |blueprints| else 3], 32))
  {
    var first := blueprints[..if |blueprints| < 3 then |blueprints| else 3];
    var results := RunAll(first, 32);
    if |results| == 0 {
      return None;
    }
    r := Some(Product(results));
  }
}
