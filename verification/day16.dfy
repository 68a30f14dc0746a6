/**
 * Day 16 (src/Day16.kt): valves joined by tunnels, some releasing pressure once
 * opened. Part 1 searches the best pressure released in 30 minutes from valve "AA";
 * part 2 lets a human and an elephant work together for 26 minutes. Both searches
 * are recursions over a shared, mutable set of open valves with a cache keyed by
 * (valve ids, minutes, bitmask of the open valves). Lines arrive already parsed
 * (the regular expression is not modelled).
 */
module Day16 {
  import Utils


  // ---------------------------------------------------------------------------
  // Valves and their ids

  /** A parsed input line. Flow rates are digit runs, hence never negative. */
  datatype Row = Row(name: string, flowRate: nat, leadsTo: seq<string>)

  /**
   * A `Long` bitmask is represented by the set of positions of its one bits: ids
   * are only ever combined with `or` and compared, and `or` is the union of the
   * positions.
   */
  type Bits = set<nat>

  datatype Valve = Valve(id: Bits, name: string, flowRate: nat, leadsTo: seq<string>)

  /** `1L shl index`: the JVM takes a `Long` shift distance modulo 64. */
  function IdOf(index: nat): (id: Bits)
    ensures forall b :: b in id ==> b < 64
  {
    {index % 64}
  }

  predicate SingleBit(x: Bits)
  {
    |x| == 1
  }

  /** Below 64 valves, distinct rows get distinct single-bit ids... */
  lemma IdOfInjective(i: nat, j: nat)
    requires i < 64 && j < 64
    ensures SingleBit(IdOf(i))
    ensures IdOf(i) == IdOf(j) <==> i == j
  {
    assert i % 64 in IdOf(i) && j % 64 in IdOf(j);
  }

  /** ...but the 65th valve shares the first one's id. */
  lemma IdsRepeatAfter64()
    ensures IdOf(64) == IdOf(0)
  {
  }

  function ToValve(row: Row, id: Bits): Valve
  {
    Valve(id, row.name, row.flowRate, row.leadsTo)
  }

  /**
   * `toValves`: row `i` gets id `1 shl i`, and `associateBy { it.name }` keeps the
   * last valve of each name.
   */
  function ToValves(rows: seq<Row>): (valves: map<string, Valve>)
    ensures forall n :: n in valves <==> exists i :: 0 <= i < |rows| && rows[i].name == n
    ensures forall n :: n in valves ==>
      valves[n].name == n && exists i :: 0 <= i < |rows| && valves[n] == ToValve(rows[i], IdOf(i))
  {
    if rows == [] then map[]
    else
      var i := |rows| - 1;
      var init := ToValves(rows[..i]);
      assert forall j :: 0 <= j < i ==> rows[..i][j] == rows[j];
      init[rows[i].name := ToValve(rows[i], IdOf(i))]
  }

  /** Every id is a single bit and no two valves share one. */
  ghost predicate DistinctSingleBits(valves: map<string, Valve>)
  {
    && (forall v :: v in valves.Values ==> SingleBit(v.id))
    && (forall v, w :: v in valves.Values && w in valves.Values && v.id == w.id ==> v == w)
  }

  lemma ValveIdsDistinct(rows: seq<Row>)
    requires |rows| <= 64
    ensures DistinctSingleBits(ToValves(rows))
  {
    var valves := ToValves(rows);
    forall v | v in valves.Values
      ensures SingleBit(v.id)
    {
      var n :| n in valves && valves[n] == v;
      var i :| 0 <= i < |rows| && valves[n] == ToValve(rows[i], IdOf(i));
      IdOfInjective(i, i);
    }
    forall v, w | v in valves.Values && w in valves.Values && v.id == w.id
      ensures v == w
    {
      var n :| n in valves && valves[n] == v;
      var m :| m in valves && valves[m] == w;
      var i :| 0 <= i < |rows| && valves[n] == ToValve(rows[i], IdOf(i));
      var j :| 0 <= j < |rows| && valves[m] == ToValve(rows[j], IdOf(j));
      IdOfInjective(i, j);
    }
  }

  /** Every tunnel leads to a known valve and every valve has a tunnel (else `getValue`/`maxOf` throw). */
  ghost predicate WellFormed(valves: map<string, Valve>)
  {
    forall v :: v in valves.Values ==> |v.leadsTo| > 0 && forall t :: t in v.leadsTo ==> t in valves
  }

  // ---------------------------------------------------------------------------
  // Pressure and the open-set bitmask

  /** `releasingPressure`: the total flow rate of a set of valves. */
  ghost function Pressure(open: set<Valve>): int
  {
    if open == {} then 0 else var v :| v in open; v.flowRate + Pressure(open - {v})
  }

  /** The sum does not depend on which valve is taken first. */
  lemma {:induction false} PressureRemove(open: set<Valve>, v: Valve)
    requires v in open
    ensures Pressure(open) == v.flowRate + Pressure(open - {v})
    decreases |open|
  {
    var u :| u in open && Pressure(open) == u.flowRate + Pressure(open - {u});
    if u != v {
      PressureRemove(open - {u}, v);
      PressureRemove(open - {v}, u);
      assert open - {u} - {v} == open - {v} - {u};
    }
  }

  lemma PressureNonNegative(open: set<Valve>)
    ensures Pressure(open) >= 0
    decreases |open|
  {
    if open != {} {
      var v :| v in open;
      PressureRemove(open, v);
      PressureNonNegative(open - {v});
    }
  }

  /** Opening a closed valve adds its flow rate. */
  lemma PressureAdd(open: set<Valve>, v: Valve)
    requires v !in open
    ensures Pressure(open + {v}) == Pressure(open) + v.flowRate
  {
    PressureRemove(open + {v}, v);
    assert open + {v} - {v} == open;
  }

  /** `releasingPressure()` summed valve by valve. */
  method ReleasingPressure(open: set<Valve>) returns (p: int)
    ensures p == Pressure(open)
  {
    p := 0;
    var rest := open;
    while rest != {}
      invariant p + Pressure(rest) == Pressure(open)
      decreases |rest|
    {
      var v :| v in rest;
      PressureRemove(rest, v);
      p := p + v.flowRate;
      rest := rest - {v};
    }
  }

  /** `fold(0L) { acc, v -> acc or v.id }` over the open valves. */
  function MaskOf(open: set<Valve>): Bits
  {
    set v, b | v in open && b in v.id :: b
  }

  method OpenMask(open: set<Valve>) returns (mask: Bits)
    ensures mask == MaskOf(open)
  {
    mask := {};
    var rest := open;
    while rest != {}
      invariant rest <= open
      invariant mask + MaskOf(rest) == MaskOf(open)
      decreases |rest|
    {
      var v :| v in rest;
      assert MaskOf(rest) == v.id + MaskOf(rest - {v});
      mask := mask + v.id;
      rest := rest - {v};
    }
  }

  /** With distinct single-bit ids, the bitmask determines the set of open valves. */
  lemma MaskInjective(valves: map<string, Valve>, s: set<Valve>, t: set<Valve>)
    requires DistinctSingleBits(valves)
    requires s <= valves.Values && t <= valves.Values
    requires MaskOf(s) == MaskOf(t)
    ensures s == t
  {
    forall v | v in s
      ensures v in t
    {
      MaskIncluded(valves, s, t, v);
    }
    forall v | v in t
      ensures v in s
    {
      MaskIncluded(valves, t, s, v);
    }
  }

  lemma MaskIncluded(valves: map<string, Valve>, s: set<Valve>, t: set<Valve>, v: Valve)
    requires DistinctSingleBits(valves)
    requires s <= valves.Values && t <= valves.Values
    requires MaskOf(s) == MaskOf(t) && v in s
    ensures v in t
  {
    var b :| b in v.id;
    assert b in MaskOf(t);
    var w :| w in t && b in w.id;
    SingleBitIs(v.id, b);
    SingleBitIs(w.id, b);
  }

  lemma SingleBitIs(x: Bits, b: nat)
    requires SingleBit(x) && b in x
    ensures x == {b}
  {
    assert |x - {b}| == 0;
  }

  // ---------------------------------------------------------------------------
  // Part 1: the specification of the search

  /**
   * What `countPotentialGain` adds to the pressure released so far, standing at
   * `v` with `remaining` minutes and the valves `open` open: this minute's pressure,
   * then the best of moving on (one minute) or, for a closed valve with flow, of
   * opening it first (one more minute). With one minute left the valve is opened.
   */
  ghost function Gain(valves: map<string, Valve>, v: Valve, remaining: nat, open: set<Valve>): int
    requires WellFormed(valves) && v in valves.Values
    decreases remaining, 0
  {
    var p := Pressure(open);
    if remaining == 0 then p
    else if v.flowRate == 0 || v in open then p + BestNext(valves, v.leadsTo, remaining - 1, open)
    else if remaining == 1 then p + Pressure(open + {v})
    else Utils.Max2(p + BestNext(valves, v.leadsTo, remaining - 1, open),
              p + p + BestNext(valves, v.leadsTo, remaining - 2, open + {v}))
  }

  /** The gain of moving along each tunnel, in order. */
  ghost function NextGains(valves: map<string, Valve>, targets: seq<string>, remaining: nat, open: set<Valve>)
    : (gains: seq<int>)
    requires WellFormed(valves) && forall t :: t in targets ==> t in valves
    ensures |gains| == |targets|
    decreases remaining, 1, |targets|
  {
    if targets == [] then []
    else [Gain(valves, valves[targets[0]], remaining, open)] + NextGains(valves, targets[1..], remaining, open)
  }

  /** Entry `i` of `NextGains` is the gain of tunnel `i`. */
  lemma {:induction false} NextGainsAt(valves: map<string, Valve>, targets: seq<string>, remaining: nat, open: set<Valve>,
                                       i: int)
    requires WellFormed(valves) && forall t :: t in targets ==> t in valves
    requires 0 <= i < |targets|
    ensures NextGains(valves, targets, remaining, open)[i] == Gain(valves, valves[targets[i]], remaining, open)
    decreases i
  {
    if i > 0 {
      NextGainsAt(valves, targets[1..], remaining, open, i - 1);
    }
  }

  /** A tunnel whose gain no other tunnel beats gives the best gain. */
  lemma BestNextAt(valves: map<string, Valve>, targets: seq<string>, remaining: nat, open: set<Valve>, best: int)
    requires WellFormed(valves) && forall t :: t in targets ==> t in valves
    requires 0 <= best < |targets|
    requires forall j :: 0 <= j < |targets| ==>
      NextGains(valves, targets, remaining, open)[j] <= NextGains(valves, targets, remaining, open)[best]
    ensures BestNext(valves, targets, remaining, open) == NextGains(valves, targets, remaining, open)[best]
  {
    Utils.MaxAt(NextGains(valves, targets, remaining, open), best);
  }

  /** `leadsTo.maxOf { ... }`: the best gain over the tunnels. */
  ghost function BestNext(valves: map<string, Valve>, targets: seq<string>, remaining: nat, open: set<Valve>): int
    requires WellFormed(valves) && |targets| > 0 && forall t :: t in targets ==> t in valves
    decreases remaining, 2
  {
    Utils.Max(NextGains(valves, targets, remaining, open))
  }

  /**
   * The search never does worse than standing still: with `remaining` minutes left,
   * at least `remaining + 1` times the current pressure is released.
   */
  lemma {:induction false} GainAtLeastIdle(valves: map<string, Valve>, v: Valve, remaining: nat, open: set<Valve>)
    requires WellFormed(valves) && v in valves.Values
    ensures Gain(valves, v, remaining, open) >= (remaining + 1) * Pressure(open)
    decreases remaining
  {
    var p := Pressure(open);
    if remaining > 0 {
      var k := remaining;
      var t := v.leadsTo[0];
      assert t in v.leadsTo;
      var moving := BestNext(valves, v.leadsTo, k - 1, open);
      assert moving >= k * p by {
        NextGainsAt(valves, v.leadsTo, k - 1, open, 0);
        GainAtLeastIdle(valves, valves[t], k - 1, open);
      }
      assert (k + 1) * p == p + k * p;
      if !(v.flowRate == 0 || v in open) && k == 1 {
        PressureAdd(open, v);
      }
    }
  }

  // ---------------------------------------------------------------------------
  // Part 1: the search as written

  /** The key of the cache: `Triple(valve ids, minutes, open-valve mask)`. */
  datatype CacheKey = CacheKey(ids: Bits, minutes: int, mask: Bits)

  /** Every cached entry is the gain of the state its key stands for. */
  ghost predicate CacheSound(valves: map<string, Valve>, cache: map<CacheKey, int>)
  {
    WellFormed(valves)
    && forall v, m: nat, open {:trigger CacheKey(v.id, m, MaskOf(open))} ::
         v in valves.Values && open <= valves.Values && CacheKey(v.id, m, MaskOf(open)) in cache ==>
         cache[CacheKey(v.id, m, MaskOf(open))] == Gain(valves, v, m, open)
  }

  /** Caching the gain of a state keeps the cache sound, because keys are injective. */
  lemma CacheInsert(valves: map<string, Valve>, cache: map<CacheKey, int>, v: Valve, m: nat, open: set<Valve>)
    requires DistinctSingleBits(valves) && CacheSound(valves, cache)
    requires v in valves.Values && open <= valves.Values
    ensures CacheSound(valves, cache[CacheKey(v.id, m, MaskOf(open)) := Gain(valves, v, m, open)])
  {
    var key := CacheKey(v.id, m, MaskOf(open));
    var updated := cache[key := Gain(valves, v, m, open)];
    forall w, n: nat, other | w in valves.Values && other <= valves.Values
      && CacheKey(w.id, n, MaskOf(other)) in updated
      ensures updated[CacheKey(w.id, n, MaskOf(other))] == Gain(valves, w, n, other)
    {
      if CacheKey(w.id, n, MaskOf(other)) == key {
        MaskInjective(valves, other, open);
      }
    }
  }

  /**
   * The state of `part1`'s closure: the valves, the shared `openValves` set and the
   * cache of gains.
   */
  class PressureSearch {
    const valves: map<string, Valve>
    var openValves: set<Valve>
    var cache: map<CacheKey, int>

    /** Only closed valves with flow are ever opened, and the cache is sound. */
    ghost predicate Valid()
      reads this
    {
      && WellFormed(valves) && DistinctSingleBits(valves)
      && openValves <= valves.Values
      && (forall u :: u in openValves ==> u.flowRate > 0)
      && CacheSound(valves, cache)
    }

    constructor(valves: map<string, Valve>)
      requires WellFormed(valves) && DistinctSingleBits(valves)
      ensures Valid() && this.valves == valves && openValves == {} && cache == map[]
    {
      this.valves := valves;
      openValves := {};
      cache := map[];
    }

    /**
     * `countPotentialGain`: the released pressure plus the gain of the state, which
     * is what makes caching `it - releasedPressure` sound. Every valve opened on the
     * way is closed again before returning.
     */
    method CountPotentialGain(v: Valve, releasedPressure: int, remainingMinutes: nat) returns (r: int)
      requires Valid() && v in valves.Values
      modifies this
      ensures Valid() && openValves == old(openValves)
      ensures r == releasedPressure + Gain(valves, v, remainingMinutes, openValves)
      decreases remainingMinutes, 0
    {
      var pressure := ReleasingPressure(openValves);
      var newPressure := releasedPressure + pressure;
      if remainingMinutes == 0 {
        return newPressure;
      }
      var mask := OpenMask(openValves);
      var cacheKey := CacheKey(v.id, remainingMinutes, mask);
      if cacheKey in cache {
        return releasedPressure + cache[cacheKey];
      }
      ghost var open := openValves;
      ghost var gain := Gain(valves, v, remainingMinutes, open);
      if v.flowRate == 0 || v in openValves {
        r := MaxPotentialGain(v, newPressure, remainingMinutes, 1);
        assert r == releasedPressure + gain;
      } else if remainingMinutes == 1 {
        openValves := openValves + {v};
        var potentialWithThisOpen := ReleasingPressure(openValves);
        r := newPressure + potentialWithThisOpen;
        openValves := openValves - {v};
        assert open + {v} - {v} == open;
        assert r == releasedPressure + gain;
      } else {
        r := OpenOrPass(v, releasedPressure, newPressure, remainingMinutes);
      }
      assert openValves == open;
      CacheInsert(valves, cache, v, remainingMinutes, open);
      cache := cache[cacheKey := r - releasedPressure];
    }

    /**
     * The last branch of `countPotentialGain`: with two minutes or more left at a
     * closed valve with flow, the better of passing it by and opening it.
     */
    method OpenOrPass(v: Valve, releasedPressure: int, newPressure: int, remainingMinutes: nat) returns (r: int)
      requires Valid() && v in valves.Values
      requires v.flowRate != 0 && v !in openValves && remainingMinutes >= 2
      requires newPressure == releasedPressure + Pressure(openValves)
      modifies this
      ensures Valid() && openValves == old(openValves)
      ensures r == releasedPressure + Gain(valves, v, remainingMinutes, openValves)
      decreases remainingMinutes, 0, 0
    {
      ghost var open := openValves;
      var potentialWithThisClosed := MaxPotentialGain(v, newPressure, remainingMinutes, 1);
      var releasedWhileOpening := ReleasingPressure(openValves);
      openValves := openValves + {v};
      var gainAfterOpening := MaxPotentialGain(v, newPressure, remainingMinutes, 2);
      var potentialWithThisOpen := releasedWhileOpening + gainAfterOpening;
      openValves := openValves - {v};
      assert open + {v} - {v} == open;
      r := Utils.Max2(potentialWithThisClosed, potentialWithThisOpen);
    }

    /** The local `maxPotentialGain(timeSpent)`: the best of the tunnels after `timeSpent` minutes. */
    method MaxPotentialGain(v: Valve, newPressure: int, remainingMinutes: nat, timeSpent: nat) returns (r: int)
      requires Valid() && v in valves.Values && timeSpent <= remainingMinutes
      modifies this
      ensures Valid() && openValves == old(openValves)
      ensures r == newPressure + BestNext(valves, v.leadsTo, remainingMinutes - timeSpent, openValves)
      decreases remainingMinutes - timeSpent, 1
    {
      var targets := v.leadsTo;
      var remaining := remainingMinutes - timeSpent;
      assert |targets| > 0 && forall t :: t in targets ==> t in valves;
      ghost var open := openValves;
      ghost var gains := NextGains(valves, targets, remaining, open);
      assert targets[0] in targets;
      r := CountPotentialGain(valves[targets[0]], newPressure, remaining);
      assert r == newPressure + gains[0] by {
        NextGainsAt(valves, targets, remaining, open, 0);
      }
      ghost var best := 0;
      var i := 1;
      while i < |targets|
        invariant 1 <= i <= |targets| && forall t :: t in targets ==> t in valves
        invariant Valid() && openValves == open
        invariant 0 <= best < i && r == newPressure + gains[best]
        invariant forall j :: 0 <= j < i ==> gains[j] <= gains[best]
      {
        assert targets[i] in targets;
        var potential := CountPotentialGain(valves[targets[i]], newPressure, remaining);
        assert potential == newPressure + gains[i] by {
          NextGainsAt(valves, targets, remaining, open, i);
        }
        if potential > r {
          best := i;
        }
        r := Utils.Max2(r, potential);
        i := i + 1;
      }
      BestNextAt(valves, targets, remaining, open, best);
    }
  }

  /** `part1`: the search from "AA" with 30 minutes and nothing open. */
  method Part1(rows: seq<Row>) returns (r: int)
    requires |rows| <= 64
    requires WellFormed(ToValves(rows)) && "AA" in ToValves(rows)
    ensures r == Gain(ToValves(rows), ToValves(rows)["AA"], 30, {})
  {
    var valves := ToValves(rows);
    ValveIdsDistinct(rows);
    var search := new PressureSearch(valves);
    r := search.CountPotentialGain(valves["AA"], 0, 30);
  }

  // ---------------------------------------------------------------------------
  // Part 2: the specification of the search

  /** Both valves of every pair are known. */
  ghost predicate KnownPairs(valves: map<string, Valve>, pairs: seq<(Valve, Valve)>)
  {
    forall i :: 0 <= i < |pairs| ==> pairs[i].0 in valves.Values && pairs[i].1 in valves.Values
  }

  /** The human moves along each tunnel while the elephant stays. */
  function HumanPairs(valves: map<string, Valve>, targets: seq<string>, elephant: Valve): (pairs: seq<(Valve, Valve)>)
    requires forall t :: t in targets ==> t in valves
    ensures |pairs| == |targets|
    ensures forall i :: 0 <= i < |targets| ==> pairs[i] == (valves[targets[i]], elephant)
  {
    if targets == [] then []
    else [(valves[targets[0]], elephant)] + HumanPairs(valves, targets[1..], elephant)
  }

  /** The elephant moves along each tunnel while the human stays. */
  function ElephantPairs(valves: map<string, Valve>, human: Valve, targets: seq<string>): (pairs: seq<(Valve, Valve)>)
    requires forall t :: t in targets ==> t in valves
    ensures |pairs| == |targets|
    ensures forall i :: 0 <= i < |targets| ==> pairs[i] == (human, valves[targets[i]])
  {
    if targets == [] then []
    else [(human, valves[targets[0]])] + ElephantPairs(valves, human, targets[1..])
  }

  /** `cartesianProduct`: every human tunnel with every elephant tunnel, human-major. */
  function CartesianProduct(valves: map<string, Valve>, humanTargets: seq<string>, elephantTargets: seq<string>)
    : (pairs: seq<(Valve, Valve)>)
    requires forall t :: t in humanTargets ==> t in valves
    requires forall t :: t in elephantTargets ==> t in valves
    ensures |humanTargets| > 0 && |elephantTargets| > 0 ==> |pairs| > 0
    ensures KnownPairs(valves, pairs)
  {
    if humanTargets == [] then []
    else
      ElephantPairs(valves, valves[humanTargets[0]], elephantTargets)
      + CartesianProduct(valves, humanTargets[1..], elephantTargets)
  }

  /** The product has one entry per combination of tunnels. */
  lemma {:induction false} ProductLength(valves: map<string, Valve>, humanTargets: seq<string>, elephantTargets: seq<string>)
    requires forall t :: t in humanTargets ==> t in valves
    requires forall t :: t in elephantTargets ==> t in valves
    ensures |CartesianProduct(valves, humanTargets, elephantTargets)| == |humanTargets| * |elephantTargets|
  {
    if humanTargets != [] {
      ProductLength(valves, humanTargets[1..], elephantTargets);
      assert |humanTargets| * |elephantTargets| == |elephantTargets| + (|humanTargets| - 1) * |elephantTargets|;
    }
  }

  /** Every combination of tunnels is in the product... */
  lemma {:induction false} ProductHas(valves: map<string, Valve>, humanTargets: seq<string>, elephantTargets: seq<string>,
                                      i: nat, j: nat)
    returns (k: nat)
    requires forall t :: t in humanTargets ==> t in valves
    requires forall t :: t in elephantTargets ==> t in valves
    requires i < |humanTargets| && j < |elephantTargets|
    ensures k < |CartesianProduct(valves, humanTargets, elephantTargets)|
    ensures CartesianProduct(valves, humanTargets, elephantTargets)[k]
         == (valves[humanTargets[i]], valves[elephantTargets[j]])
  {
    var first := ElephantPairs(valves, valves[humanTargets[0]], elephantTargets);
    var rest := CartesianProduct(valves, humanTargets[1..], elephantTargets);
    assert CartesianProduct(valves, humanTargets, elephantTargets) == first + rest;
    if i == 0 {
      k := j;
      assert (first + rest)[k] == first[j];
    } else {
      var k' := ProductHas(valves, humanTargets[1..], elephantTargets, i - 1, j);
      k := |first| + k';
      assert (first + rest)[k] == rest[k'];
      assert humanTargets[1..][i - 1] == humanTargets[i];
    }
  }

  /** ...and nothing else is. */
  lemma {:induction false} ProductOnly(valves: map<string, Valve>, humanTargets: seq<string>, elephantTargets: seq<string>,
                                       k: nat)
    returns (i: nat, j: nat)
    requires forall t :: t in humanTargets ==> t in valves
    requires forall t :: t in elephantTargets ==> t in valves
    requires k < |CartesianProduct(valves, humanTargets, elephantTargets)|
    ensures i < |humanTargets| && j < |elephantTargets|
    ensures CartesianProduct(valves, humanTargets, elephantTargets)[k]
         == (valves[humanTargets[i]], valves[elephantTargets[j]])
  {
    var first := ElephantPairs(valves, valves[humanTargets[0]], elephantTargets);
    var rest := CartesianProduct(valves, humanTargets[1..], elephantTargets);
    assert CartesianProduct(valves, humanTargets, elephantTargets) == first + rest;
    if k < |first| {
      i, j := 0, k;
      assert (first + rest)[k] == first[k];
    } else {
      var i', j' := ProductOnly(valves, humanTargets[1..], elephantTargets, k - |first|);
      i, j := i' + 1, j';
      assert (first + rest)[k] == rest[k - |first|];
      assert humanTargets[1..][i'] == humanTargets[i];
    }
  }

  /**
   * The gain of `part2`'s `countPotentialGain` for the human at `h` and the elephant
   * at `e` at `minute` (counted from 1; 25 is the last step): the pressure the open
   * valves release now, plus what lies ahead.
   */
  ghost function Gain2(valves: map<string, Valve>, h: Valve, e: Valve, minute: int, open: set<Valve>): int
    requires WellFormed(valves) && h in valves.Values && e in valves.Values && minute < 26
    decreases 26 - minute, 1
  {
    Pressure(open) + Ahead(valves, h, e, minute, open)
  }

  /**
   * What lies ahead of the pair after the pressure of `minute`. At minute 25 both
   * valves are opened; before, each of them that is closed with flow may be opened
   * while the other one moves, or both opened at once; when both stand at the same
   * valve only the human opens it. Kotlin adds the pressure released so far to every
   * alternative before taking the maximum, which is the same as adding it after.
   */
  ghost function Ahead(valves: map<string, Valve>, h: Valve, e: Valve, minute: int, open: set<Valve>): int
    requires WellFormed(valves) && h in valves.Values && e in valves.Values && minute < 26
    decreases 26 - minute, 0
  {
    if minute == 25 then Pressure(open + {h, e})
    else
      var humanCanOpen := h.flowRate != 0 && h !in open;
      var elephantCanOpen := e.flowRate != 0 && e !in open;
      var neither := IfBothMove(valves, h, e, minute, open);
      if !humanCanOpen && !elephantCanOpen then neither
      else if !humanCanOpen then Utils.Max2(neither, IfHumanMoves(valves, h, e, minute, open + {e}))
      else if !elephantCanOpen then Utils.Max2(neither, IfElephantMoves(valves, h, e, minute, open + {h}))
      else if h == e then Utils.Max2(neither, IfElephantMoves(valves, h, e, minute, open + {h}))
      else
        var humanOpening := IfElephantMoves(valves, h, e, minute, open + {h});
        var elephantOpening := IfHumanMoves(valves, h, e, minute, open + {e});
        var bothOpening := Gain2(valves, h, e, minute + 1, open + {h, e});
        Utils.Max2(neither, Utils.Max2(Utils.Max2(humanOpening, elephantOpening), bothOpening))
  }

  /** `maxPotentialGainIfHumanMoves`, less the pressure released so far. */
  ghost function IfHumanMoves(valves: map<string, Valve>, h: Valve, e: Valve, minute: int, open: set<Valve>): int
    requires WellFormed(valves) && h in valves.Values && e in valves.Values && minute < 25
    decreases 25 - minute, 4
  {
    BestPair(valves, HumanPairs(valves, h.leadsTo, e), minute + 1, open)
  }

  /** `maxPotentialGainIfElephantMoves`, less the pressure released so far. */
  ghost function IfElephantMoves(valves: map<string, Valve>, h: Valve, e: Valve, minute: int, open: set<Valve>): int
    requires WellFormed(valves) && h in valves.Values && e in valves.Values && minute < 25
    decreases 25 - minute, 4
  {
    BestPair(valves, ElephantPairs(valves, h, e.leadsTo), minute + 1, open)
  }

  /** `maxPotentialGainIfBothMove`, less the pressure released so far. */
  ghost function IfBothMove(valves: map<string, Valve>, h: Valve, e: Valve, minute: int, open: set<Valve>): int
    requires WellFormed(valves) && h in valves.Values && e in valves.Values && minute < 25
    decreases 25 - minute, 4
  {
    BestPair(valves, CartesianProduct(valves, h.leadsTo, e.leadsTo), minute + 1, open)
  }

  /** The gain of every (human, elephant) position of a list, in order. */
  ghost function Gains(valves: map<string, Valve>, pairs: seq<(Valve, Valve)>, minute: int, open: set<Valve>)
    : (gains: seq<int>)
    requires WellFormed(valves) && KnownPairs(valves, pairs) && minute < 26
    ensures |gains| == |pairs|
    decreases 26 - minute, 2, |pairs|
  {
    if pairs == [] then []
    else [Gain2(valves, pairs[0].0, pairs[0].1, minute, open)] + Gains(valves, pairs[1..], minute, open)
  }

  /** Entry `i` of `Gains` is the gain of pair `i`. */
  lemma {:induction false} GainsAt(valves: map<string, Valve>, pairs: seq<(Valve, Valve)>, minute: int, open: set<Valve>,
                                   i: int)
    requires WellFormed(valves) && KnownPairs(valves, pairs) && minute < 26
    requires 0 <= i < |pairs|
    ensures Gains(valves, pairs, minute, open)[i] == Gain2(valves, pairs[i].0, pairs[i].1, minute, open)
    decreases i
  {
    if i > 0 {
      GainsAt(valves, pairs[1..], minute, open, i - 1);
    }
  }

  /** `maxOf` over a list of (human, elephant) positions. */
  ghost function BestPair(valves: map<string, Valve>, pairs: seq<(Valve, Valve)>, minute: int, open: set<Valve>): int
    requires WellFormed(valves) && |pairs| > 0 && KnownPairs(valves, pairs) && minute < 26
    decreases 26 - minute, 3
  {
    Utils.Max(Gains(valves, pairs, minute, open))
  }

  /** Gains at `minute` do not depend on who is where. */
  ghost predicate SymmetricAt(valves: map<string, Valve>, minute: int)
    requires WellFormed(valves) && minute < 26
  {
    forall a, b, open {:trigger Positions(a, b, open)} :: a in valves.Values && b in valves.Values ==>
      Gain2(valves, a, b, minute, open) == Gain2(valves, b, a, minute, open)
  }

  /**
   * Who stands where, with which valves open. `SymmetricAt` is stated for these so
   * that a proof applies it only where it names the positions.
   */
  ghost function Positions(a: Valve, b: Valve, open: set<Valve>): (Valve, Valve, set<Valve>)
  {
    (a, b, open)
  }

  /** Applies `SymmetricAt` to one state. */
  lemma Symmetric(valves: map<string, Valve>, a: Valve, b: Valve, minute: int, open: set<Valve>)
    requires WellFormed(valves) && minute < 26 && SymmetricAt(valves, minute)
    requires a in valves.Values && b in valves.Values
    ensures Gain2(valves, a, b, minute, open) == Gain2(valves, b, a, minute, open)
  {
    assert Positions(a, b, open) == (a, b, open);
  }

  /** The same two positions with the human and the elephant exchanged. */
  function Swap(pair: (Valve, Valve)): (swapped: (Valve, Valve))
    ensures swapped.0 == pair.1 && swapped.1 == pair.0
  {
    (pair.1, pair.0)
  }

  /** Swapping every pair of a list leaves its best gain unchanged when gains are symmetric. */
  lemma BestPairSwapped(valves: map<string, Valve>, pairs: seq<(Valve, Valve)>, swapped: seq<(Valve, Valve)>,
                        minute: int, open: set<Valve>)
    requires WellFormed(valves) && minute < 26 && SymmetricAt(valves, minute)
    requires |pairs| > 0 && KnownPairs(valves, pairs) && |swapped| > 0 && KnownPairs(valves, swapped)
    requires forall p :: p in pairs ==> Swap(p) in swapped
    requires forall p :: p in swapped ==> Swap(p) in pairs
    ensures BestPair(valves, pairs, minute, open) == BestPair(valves, swapped, minute, open)
  {
    var gains := Gains(valves, pairs, minute, open);
    var mirrorGains := Gains(valves, swapped, minute, open);
    var k :| 0 <= k < |gains| && gains[k] == Utils.Max(gains);
    var l :| 0 <= l < |mirrorGains| && mirrorGains[l] == Utils.Max(mirrorGains);
    assert Swap(pairs[k]) in swapped;
    var j :| 0 <= j < |swapped| && swapped[j] == Swap(pairs[k]);
    assert Swap(swapped[l]) in pairs;
    var i :| 0 <= i < |pairs| && pairs[i] == Swap(swapped[l]);
    Symmetric(valves, pairs[k].0, pairs[k].1, minute, open);
    Symmetric(valves, swapped[l].0, swapped[l].1, minute, open);
    GainsAt(valves, pairs, minute, open, k);
    GainsAt(valves, pairs, minute, open, i);
    GainsAt(valves, swapped, minute, open, l);
    GainsAt(valves, swapped, minute, open, j);
  }

  /** Both moving is the same for (h, e) and (e, h). */
  lemma BothMoveSwapped(valves: map<string, Valve>, h: Valve, e: Valve, minute: int, open: set<Valve>)
    requires WellFormed(valves) && h in valves.Values && e in valves.Values && minute < 25
    requires SymmetricAt(valves, minute + 1)
    ensures IfBothMove(valves, h, e, minute, open) == IfBothMove(valves, e, h, minute, open)
  {
    var product := CartesianProduct(valves, h.leadsTo, e.leadsTo);
    var mirrored := CartesianProduct(valves, e.leadsTo, h.leadsTo);
    forall p | p in product
      ensures Swap(p) in mirrored
    {
      var k :| 0 <= k < |product| && product[k] == p;
      var i, j := ProductOnly(valves, h.leadsTo, e.leadsTo, k);
      var l := ProductHas(valves, e.leadsTo, h.leadsTo, j, i);
      assert mirrored[l] == Swap(p);
    }
    forall p | p in mirrored
      ensures Swap(p) in product
    {
      var l :| 0 <= l < |mirrored| && mirrored[l] == p;
      var j, i := ProductOnly(valves, e.leadsTo, h.leadsTo, l);
      var k := ProductHas(valves, h.leadsTo, e.leadsTo, i, j);
      assert product[k] == Swap(p);
    }
    BestPairSwapped(valves, product, mirrored, minute + 1, open);
  }

  /** The human moving from (h, e) is the elephant moving from (e, h). */
  lemma MovesSwapped(valves: map<string, Valve>, h: Valve, e: Valve, minute: int, open: set<Valve>)
    requires WellFormed(valves) && h in valves.Values && e in valves.Values && minute < 25
    requires SymmetricAt(valves, minute + 1)
    ensures IfHumanMoves(valves, h, e, minute, open) == IfElephantMoves(valves, e, h, minute, open)
  {
    var moving := HumanPairs(valves, h.leadsTo, e);
    var mirrored := ElephantPairs(valves, e, h.leadsTo);
    forall p | p in moving
      ensures Swap(p) in mirrored
    {
      var i :| 0 <= i < |moving| && moving[i] == p;
      assert mirrored[i] == Swap(p);
    }
    forall p | p in mirrored
      ensures Swap(p) in moving
    {
      var i :| 0 <= i < |mirrored| && mirrored[i] == p;
      assert moving[i] == Swap(p);
    }
    BestPairSwapped(valves, moving, mirrored, minute + 1, open);
  }

  /**
   * The gain is symmetric in the human and the elephant, which is what lets
   * `part2` key its cache on `human.id or elephant.id`.
   */
  lemma {:induction false} Gain2Symmetric(valves: map<string, Valve>, h: Valve, e: Valve, minute: int, open: set<Valve>)
    requires WellFormed(valves) && h in valves.Values && e in valves.Values && minute < 26
    ensures Gain2(valves, h, e, minute, open) == Gain2(valves, e, h, minute, open)
    decreases 26 - minute
  {
    if minute == 25 {
      assert open + {h, e} == open + {e, h};
    } else if h != e {
      var next := minute + 1;
      forall a, b, o | a in valves.Values && b in valves.Values
        ensures Gain2(valves, a, b, next, o) == Gain2(valves, b, a, next, o)
      {
        Gain2Symmetric(valves, a, b, next, o);
      }
      Gain2SymmetricStep(valves, h, e, minute, open);
    }
  }

  /** One step of `Gain2Symmetric`: symmetry at the next minute gives symmetry now. */
  lemma Gain2SymmetricStep(valves: map<string, Valve>, h: Valve, e: Valve, minute: int, open: set<Valve>)
    requires WellFormed(valves) && h in valves.Values && e in valves.Values && minute < 25
    requires SymmetricAt(valves, minute + 1)
    ensures Ahead(valves, h, e, minute, open) == Ahead(valves, e, h, minute, open)
  {
    var humanCanOpen := h.flowRate != 0 && h !in open;
    var elephantCanOpen := e.flowRate != 0 && e !in open;
    if h == e {
    } else if humanCanOpen && elephantCanOpen {
      BothMoveSwapped(valves, h, e, minute, open);
      EitherOpeningSymmetric(valves, h, e, minute, open);
      Symmetric(valves, h, e, minute + 1, open + {h, e});
      BothCanOpenSymmetric(valves, h, e, minute, open);
    } else if elephantCanOpen {
      OneCanOpenSymmetric(valves, h, e, minute, open);
    } else if humanCanOpen {
      OneCanOpenSymmetric(valves, e, h, minute, open);
    } else {
      BothMoveSwapped(valves, h, e, minute, open);
    }
  }

  /** `Gain2SymmetricStep` when only the elephant's valve can be opened. */
  lemma OneCanOpenSymmetric(valves: map<string, Valve>, h: Valve, e: Valve, minute: int, open: set<Valve>)
    requires WellFormed(valves) && h in valves.Values && e in valves.Values && minute < 25
    requires SymmetricAt(valves, minute + 1)
    requires !(h.flowRate != 0 && h !in open) && e.flowRate != 0 && e !in open
    ensures Ahead(valves, h, e, minute, open) == Ahead(valves, e, h, minute, open)
  {
    BothMoveSwapped(valves, h, e, minute, open);
    MovesSwapped(valves, h, e, minute, open + {e});
  }

  /** `Gain2SymmetricStep` when both valves can be opened. */
  lemma BothCanOpenSymmetric(valves: map<string, Valve>, h: Valve, e: Valve, minute: int, open: set<Valve>)
    requires WellFormed(valves) && h in valves.Values && e in valves.Values && minute < 25
    requires h != e && h.flowRate != 0 && h !in open && e.flowRate != 0 && e !in open
    requires IfBothMove(valves, h, e, minute, open) == IfBothMove(valves, e, h, minute, open)
    requires Utils.Max2(IfElephantMoves(valves, h, e, minute, open + {h}), IfHumanMoves(valves, h, e, minute, open + {e}))
          == Utils.Max2(IfElephantMoves(valves, e, h, minute, open + {e}), IfHumanMoves(valves, e, h, minute, open + {h}))
    requires Gain2(valves, h, e, minute + 1, open + {h, e}) == Gain2(valves, e, h, minute + 1, open + {h, e})
    ensures Ahead(valves, h, e, minute, open) == Ahead(valves, e, h, minute, open)
  {
    assert open + {h, e} == open + {e, h};
  }

  /** One of two valves opening while the other one's opener moves is the same from (h, e) and (e, h). */
  lemma EitherOpeningSymmetric(valves: map<string, Valve>, h: Valve, e: Valve, minute: int, open: set<Valve>)
    requires WellFormed(valves) && h in valves.Values && e in valves.Values && minute < 25
    requires SymmetricAt(valves, minute + 1)
    ensures Utils.Max2(IfElephantMoves(valves, h, e, minute, open + {h}), IfHumanMoves(valves, h, e, minute, open + {e}))
         == Utils.Max2(IfElephantMoves(valves, e, h, minute, open + {e}), IfHumanMoves(valves, e, h, minute, open + {h}))
  {
    MovesSwapped(valves, h, e, minute, open + {e});
    MovesSwapped(valves, e, h, minute, open + {h});
  }

  // ---------------------------------------------------------------------------
  // Part 2: the search with a shared cache

  /** `human.id or elephant.id`: the bits of both positions. */
  function PairKey(h: Valve, e: Valve): Bits
  {
    h.id + e.id
  }

  /** The key names the two positions up to who stands where. */
  lemma PairKeyDetermines(valves: map<string, Valve>, h: Valve, e: Valve, h': Valve, e': Valve)
    requires DistinctSingleBits(valves)
    requires h in valves.Values && e in valves.Values && h' in valves.Values && e' in valves.Values
    ensures PairKey(h, e) == PairKey(h', e') <==> (h == h' && e == e') || (h == e' && e == h')
  {
    if PairKey(h, e) == PairKey(h', e') {
      var a :| a in h.id;
      var b :| b in e.id;
      var c :| c in h'.id;
      var d :| d in e'.id;
      SingleBitIs(h.id, a);
      SingleBitIs(e.id, b);
      SingleBitIs(h'.id, c);
      SingleBitIs(e'.id, d);
      assert {a, b} == {c, d};
      assert c in {a, b} && d in {a, b} && a in {c, d} && b in {c, d};
    }
  }

  /** Every cached entry of `part2` is the gain of a state its key stands for. */
  ghost predicate CacheSound2(valves: map<string, Valve>, cache: map<CacheKey, int>)
  {
    WellFormed(valves)
    && forall h, e, m, open {:trigger CacheKey(PairKey(h, e), m, MaskOf(open))} ::
         h in valves.Values && e in valves.Values && open <= valves.Values && m < 26
         && CacheKey(PairKey(h, e), m, MaskOf(open)) in cache ==>
         cache[CacheKey(PairKey(h, e), m, MaskOf(open))] == Gain2(valves, h, e, m, open)
  }

  /**
   * Caching a gain keeps the cache sound: a key determines the open valves and the
   * two positions up to a swap, and the gain does not see the swap.
   */
  lemma CacheInsert2(valves: map<string, Valve>, cache: map<CacheKey, int>, h: Valve, e: Valve, m: int,
                     open: set<Valve>)
    requires DistinctSingleBits(valves) && CacheSound2(valves, cache)
    requires h in valves.Values && e in valves.Values && open <= valves.Values && m < 26
    ensures CacheSound2(valves, cache[CacheKey(PairKey(h, e), m, MaskOf(open)) := Gain2(valves, h, e, m, open)])
  {
    var key := CacheKey(PairKey(h, e), m, MaskOf(open));
    var updated := cache[key := Gain2(valves, h, e, m, open)];
    forall h', e', n, other | h' in valves.Values && e' in valves.Values && other <= valves.Values && n < 26
      && CacheKey(PairKey(h', e'), n, MaskOf(other)) in updated
      ensures updated[CacheKey(PairKey(h', e'), n, MaskOf(other))] == Gain2(valves, h', e', n, other)
    {
      if CacheKey(PairKey(h', e'), n, MaskOf(other)) == key {
        MaskInjective(valves, other, open);
        PairKeyDetermines(valves, h, e, h', e');
        Gain2Symmetric(valves, h, e, m, open);
      }
    }
  }

  /** The state of `part2`'s closure: the valves, the shared `openValves` set and the cache. */
  class ElephantSearch {
    const valves: map<string, Valve>
    var openValves: set<Valve>
    var cache: map<CacheKey, int>

    /** The open valves are known valves and the cache is sound. */
    ghost predicate Valid()
      reads this
    {
      && WellFormed(valves) && DistinctSingleBits(valves)
      && openValves <= valves.Values
      && CacheSound2(valves, cache)
    }

    constructor(valves: map<string, Valve>)
      requires WellFormed(valves) && DistinctSingleBits(valves)
      ensures Valid() && this.valves == valves && openValves == {} && cache == map[]
    {
      this.valves := valves;
      openValves := {};
      cache := map[];
    }

    /**
     * `Pair<Valve, Valve>.countPotentialGain`: the released pressure plus the gain of
     * the state. `check(minute < 26)` is the precondition on `minute`. Every valve
     * opened on the way is closed again before returning.
     */
    method CountPotentialGain(h: Valve, e: Valve, releasedPressure: int, minute: int) returns (r: int)
      requires Valid() && h in valves.Values && e in valves.Values && minute < 26
      modifies this
      ensures Valid() && openValves == old(openValves)
      ensures r == releasedPressure + Gain2(valves, h, e, minute, openValves)
      decreases 26 - minute, 0
    {
      var pressure := ReleasingPressure(openValves);
      var newPressure := releasedPressure + pressure;
      var mask := OpenMask(openValves);
      var cacheKey := CacheKey(PairKey(h, e), minute, mask);
      if cacheKey in cache {
        return releasedPressure + cache[cacheKey];
      }
      ghost var open := openValves;
      if minute == 25 {
        r := LastMinute(h, e, newPressure);
      } else {
        r := BeforeLastMinute(h, e, newPressure, minute);
      }
      assert r == releasedPressure + Gain2(valves, h, e, minute, open);
      CacheInsert2(valves, cache, h, e, minute, open);
      cache := cache[cacheKey := r - releasedPressure];
    }

    /** The `minute == 25` branch: open both valves for the last minute, then close them again. */
    method LastMinute(h: Valve, e: Valve, newPressure: int) returns (r: int)
      requires Valid() && h in valves.Values && e in valves.Values
      modifies this
      ensures Valid() && openValves == old(openValves)
      ensures r == newPressure + Ahead(valves, h, e, 25, openValves)
    {
      ghost var open := openValves;
      var humanAdded := h !in openValves;
      openValves := openValves + {h};
      var elephantAdded := e !in openValves;
      openValves := openValves + {e};
      assert openValves == open + {h, e};
      var potentialWithBothOpen := ReleasingPressure(openValves);
      r := newPressure + potentialWithBothOpen;
      if elephantAdded {
        openValves := openValves - {e};
      }
      if humanAdded {
        openValves := openValves - {h};
      }
      assert openValves == open;
    }

    /** The branch before the last minute: weigh neither, one or both of the valves opening. */
    method BeforeLastMinute(h: Valve, e: Valve, newPressure: int, minute: int) returns (r: int)
      requires Valid() && h in valves.Values && e in valves.Values && minute < 25
      modifies this
      ensures Valid() && openValves == old(openValves)
      ensures r == newPressure + Ahead(valves, h, e, minute, openValves)
      decreases 26 - minute, 0, 0
    {
      ghost var open := openValves;
      var humanCanOpen := h.flowRate != 0 && h !in openValves;
      var elephantCanOpen := e.flowRate != 0 && e !in openValves;
      var potentialWithNeitherOpening :=
        MaxOverPairs(CartesianProduct(valves, h.leadsTo, e.leadsTo), newPressure, minute + 1);
      if !humanCanOpen && !elephantCanOpen {
        r := potentialWithNeitherOpening;
      } else if !humanCanOpen {
        openValves := openValves + {e};
        var potentialWithElephantOpening := MaxOverPairs(HumanPairs(valves, h.leadsTo, e), newPressure, minute + 1);
        openValves := openValves - {e};
        assert openValves == open;
        r := Utils.Max2(potentialWithNeitherOpening, potentialWithElephantOpening);
      } else if !elephantCanOpen {
        openValves := openValves + {h};
        var potentialWithHumanOpening := MaxOverPairs(ElephantPairs(valves, h, e.leadsTo), newPressure, minute + 1);
        openValves := openValves - {h};
        assert openValves == open;
        r := Utils.Max2(potentialWithNeitherOpening, potentialWithHumanOpening);
      } else {
        r := BothCanOpen(h, e, newPressure, minute, potentialWithNeitherOpening);
      }
    }

    /**
     * The `else` branch of `countPotentialGain` before the last minute, when both
     * valves can be opened: the better of neither opening and the best way of
     * opening one or both of them.
     */
    method BothCanOpen(h: Valve, e: Valve, newPressure: int, minute: int, potentialWithNeitherOpening: int)
      returns (r: int)
      requires Valid() && h in valves.Values && e in valves.Values && minute < 25
      requires h.flowRate != 0 && h !in openValves && e.flowRate != 0 && e !in openValves
      requires potentialWithNeitherOpening == newPressure + IfBothMove(valves, h, e, minute, openValves)
      modifies this
      ensures Valid() && openValves == old(openValves)
      ensures r == newPressure + Ahead(valves, h, e, minute, openValves)
      decreases 26 - minute, 0, 0, 0
    {
      ghost var open := openValves;
      var potentialWithEitherOrBothOpening;
      if h == e {
        openValves := openValves + {h};
        potentialWithEitherOrBothOpening := MaxOverPairs(ElephantPairs(valves, h, e.leadsTo), newPressure, minute + 1);
        openValves := openValves - {h};
      } else {
        potentialWithEitherOrBothOpening := EitherOrBothOpening(h, e, newPressure, minute);
      }
      assert openValves == open;
      r := Utils.Max2(potentialWithNeitherOpening, potentialWithEitherOrBothOpening);
    }

    /**
     * Two different valves that can both be opened: the best of the human opening
     * while the elephant moves, the elephant opening while the human moves, and
     * both opening.
     */
    method EitherOrBothOpening(h: Valve, e: Valve, newPressure: int, minute: int) returns (r: int)
      requires Valid() && h in valves.Values && e in valves.Values && minute < 25
      requires h != e && h !in openValves && e !in openValves
      modifies this
      ensures Valid() && openValves == old(openValves)
      ensures r == newPressure
        + Utils.Max2(Utils.Max2(IfElephantMoves(valves, h, e, minute, openValves + {h}),
                    IfHumanMoves(valves, h, e, minute, openValves + {e})),
               Gain2(valves, h, e, minute + 1, openValves + {h, e}))
      decreases 26 - minute, 0, 0, 0, 0
    {
      ghost var open := openValves;
      openValves := openValves + {e};
      var potentialWithElephantOpening := MaxOverPairs(HumanPairs(valves, h.leadsTo, e), newPressure, minute + 1);
      openValves := openValves - {e};
      assert openValves == open;

      openValves := openValves + {h};
      var potentialWithHumanOpening := MaxOverPairs(ElephantPairs(valves, h, e.leadsTo), newPressure, minute + 1);
      openValves := openValves - {h};
      assert openValves == open;

      openValves := openValves + {h};
      openValves := openValves + {e};
      assert openValves == open + {h, e};
      var potentialWithBothOpening := CountPotentialGain(h, e, newPressure, minute + 1);
      openValves := openValves - {e};
      openValves := openValves - {h};
      assert openValves == open;

      var potentialWithEitherMoving := Utils.Max2(potentialWithHumanOpening, potentialWithElephantOpening);
      r := Utils.Max2(potentialWithEitherMoving, potentialWithBothOpening);
    }

    /** `maxOf` of `countPotentialGain` over a list of positions at `minute`. */
    method MaxOverPairs(pairs: seq<(Valve, Valve)>, newPressure: int, minute: int) returns (r: int)
      requires Valid() && |pairs| > 0 && KnownPairs(valves, pairs) && minute < 26
      modifies this
      ensures Valid() && openValves == old(openValves)
      ensures r == newPressure + BestPair(valves, pairs, minute, openValves)
      decreases 26 - minute, 1
    {
      ghost var gains := Gains(valves, pairs, minute, openValves);
      r := CountPotentialGain(pairs[0].0, pairs[0].1, newPressure, minute);
      assert r == newPressure + gains[0] by {
        GainsAt(valves, pairs, minute, openValves, 0);
      }
      ghost var best := 0;
      var i := 1;
      while i < |pairs|
        invariant 1 <= i <= |pairs|
        invariant Valid() && openValves == old(openValves)
        invariant 0 <= best < i && r == newPressure + gains[best]
        invariant forall j :: 0 <= j < i ==> gains[j] <= gains[best]
      {
        var potential := CountPotentialGain(pairs[i].0, pairs[i].1, newPressure, minute);
        assert potential == newPressure + gains[i] by {
          GainsAt(valves, pairs, minute, openValves, i);
        }
        if potential > r {
          best := i;
        }
        r := Utils.Max2(r, potential);
        i := i + 1;
      }
      Utils.MaxAt(gains, best);
    }
  }

  /** `part2`: the human and the elephant both start at "AA" at minute 1 with nothing open. */
  method Part2(rows: seq<Row>) returns (r: int)
    requires |rows| <= 64
    requires WellFormed(ToValves(rows)) && "AA" in ToValves(rows)
    ensures r == Gain2(ToValves(rows), ToValves(rows)["AA"], ToValves(rows)["AA"], 1, {})
  {
    var valves := ToValves(rows);
    ValveIdsDistinct(rows);
    var search := new ElephantSearch(valves);
    r := search.CountPotentialGain(valves["AA"], valves["AA"], 0, 1);
  }
}
