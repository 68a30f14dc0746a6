/**
 * Day 4 (src/Day04.kt): each line assigns two elves an inclusive range of section
 * numbers, "a-b,c-d". Part 1 counts pairs where one range contains the other, part 2
 * pairs whose ranges share a section.
 */
module Day04 {
  import opened Utils
  import opened Text

  /** Kotlin's `IntRange` `first..last`; it is empty when `first > last`. */
  datatype Range = Range(first: int, last: int)

  ghost predicate InRange(x: int, r: Range)
  {
    r.first <= x <= r.last
  }

  /** `toCleaningRange`: "a-b" with at least two pieces around '-', both numbers. */
  function ToCleaningRange(s: string): (r: Option<Range>)
    ensures r.Some? ==> (|SplitOn(s, '-')| >= 2 &&
      ParseInt(SplitOn(s, '-')[0]) == Some(r.value.first) &&
      ParseInt(SplitOn(s, '-')[1]) == Some(r.value.last))
  {
    var parts := SplitOn(s, '-');
    if |parts| < 2 then None
    else match (ParseInt(parts[0]), ParseInt(parts[1]))
      case (Some(a), Some(b)) => Some(Range(a, b))
      case _ => None
  }

  /** "a-b" with non-negative numbers a and b reads back as the range a..b. */
  lemma ToCleaningRangeOfText(a: nat, b: nat)
    ensures ToCleaningRange(NatToString(a) + "-" + NatToString(b)) == Some(Range(a, b))
  {
    var sa := NatToString(a);
    var sb := NatToString(b);
    assert '-' !in sa by { assert AllDigits(sa); }
    assert '-' !in sb by { assert AllDigits(sb); }
    assert sa + "-" + sb == sa + ['-'] + sb;
    SplitOnTwo(sa, '-', sb);
    ParseIntToString(a);
    ParseIntToString(b);
  }

  /** `toCleaningRanges`: every ','-separated piece must be a range. */
  function ToCleaningRanges(pieces: seq<string>): (r: Option<seq<Range>>)
    ensures r.Some? <==> forall i :: 0 <= i < |pieces| ==> ToCleaningRange(pieces[i]).Some?
    ensures r.Some? ==> |r.value| == |pieces|
    ensures r.Some? ==> forall i :: 0 <= i < |pieces| ==> ToCleaningRange(pieces[i]) == Some(r.value[i])
  {
    MapAll(ToCleaningRange, pieces)
  }

  /** The two elves of a line; fewer than two ranges is an error. */
  function Elves(line: string): Option<(Range, Range)>
  {
    match ToCleaningRanges(SplitOn(line, ','))
    case Some(rs) => if |rs| < 2 then None else Some((rs[0], rs[1]))
    case None => None
  }

  /** `IntRange.contains(IntRange)`: the bounds of `other` lie within those of `r`. */
  predicate Contains(r: Range, other: Range)
  {
    r.first <= other.first && r.last >= other.last
  }

  /** Containment is reflexive and transitive, and for a non-empty range it means every section of `other` is in `r`. */
  lemma ContainsIsPreorder(a: Range, b: Range, c: Range)
    ensures Contains(a, a)
    ensures Contains(a, b) && Contains(b, c) ==> Contains(a, c)
    ensures b.first <= b.last ==> (Contains(a, b) <==> forall x :: InRange(x, b) ==> InRange(x, a))
  {
    if b.first <= b.last && forall x :: InRange(x, b) ==> InRange(x, a) {
      assert InRange(b.first, b) && InRange(b.last, b);
    }
  }

  /** Part 1's test: one of the two ranges contains the other. */
  predicate EitherContains(elf1: Range, elf2: Range)
  {
    Contains(elf2, elf1) || Contains(elf1, elf2)
  }

  /** Part 2's test: `intersect(...).isNotEmpty()`, some section belongs to both ranges. */
  ghost predicate Overlaps(elf1: Range, elf2: Range)
  {
    exists x :: InRange(x, elf1) && InRange(x, elf2)
  }

  function MaxInt(a: int, b: int): int { if a >= b then a else b }

  function MinInt(a: int, b: int): int { if a <= b then a else b }

  /** Two ranges overlap exactly when the larger start is at most the smaller end. */
  lemma OverlapsClosedForm(elf1: Range, elf2: Range)
    ensures Overlaps(elf1, elf2) <==>
      MaxInt(elf1.first, elf2.first) <= MinInt(elf1.last, elf2.last)
  {
    if MaxInt(elf1.first, elf2.first) <= MinInt(elf1.last, elf2.last) {
      var x := MaxInt(elf1.first, elf2.first);
      assert InRange(x, elf1) && InRange(x, elf2);
    }
  }

  /** Part 1's test is symmetric, and for non-empty ranges it implies part 2's. */
  lemma ContainmentImpliesOverlap(elf1: Range, elf2: Range)
    ensures EitherContains(elf1, elf2) == EitherContains(elf2, elf1)
    ensures elf1.first <= elf1.last && elf2.first <= elf2.last && EitherContains(elf1, elf2) ==>
      Overlaps(elf1, elf2)
    ensures Overlaps(elf1, elf2) == Overlaps(elf2, elf1)
  {
    OverlapsClosedForm(elf1, elf2);
    OverlapsClosedForm(elf2, elf1);
  }

  /** The two elves of every line; one line that does not parse is an error. */
  function ParseLines(input: seq<string>): (r: Option<seq<(Range, Range)>>)
    ensures r.Some? <==> forall i :: 0 <= i < |input| ==> Elves(input[i]).Some?
    ensures r.Some? ==> |r.value| == |input|
    ensures r.Some? ==> forall i :: 0 <= i < |input| ==> Elves(input[i]) == Some(r.value[i])
  {
    MapAll(Elves, input)
  }

  /** Part 1's count: pairs where one range contains the other. */
  function CountContaining(pairs: seq<(Range, Range)>): (n: nat)
    ensures n <= |pairs|
  {
    if pairs == [] then 0
    else
      var (elf1, elf2) := pairs[|pairs| - 1];
      CountContaining(pairs[..|pairs| - 1]) + if EitherContains(elf1, elf2) then 1 else 0
  }

  /** Part 2's count: pairs that share a section. */
  ghost function CountOverlapping(pairs: seq<(Range, Range)>): (n: nat)
    ensures n <= |pairs|
  {
    if pairs == [] then 0
    else
      var (elf1, elf2) := pairs[|pairs| - 1];
      CountOverlapping(pairs[..|pairs| - 1]) + if Overlaps(elf1, elf2) then 1 else 0
  }

  function Part1(input: seq<string>): Option<nat>
  {
    match ParseLines(input)
    case Some(pairs) => Some(CountContaining(pairs))
    case None => None
  }

  ghost function Part2(input: seq<string>): Option<nat>
  {
    match ParseLines(input)
    case Some(pairs) => Some(CountOverlapping(pairs))
    case None => None
  }

  ghost predicate NonEmptyRanges(pairs: seq<(Range, Range)>)
  {
    forall i :: 0 <= i < |pairs| ==>
      pairs[i].0.first <= pairs[i].0.last && pairs[i].1.first <= pairs[i].1.last
  }

  /** When every range is non-empty, part 1 counts no more pairs than part 2. */
  lemma {:induction false} ContainingAtMostOverlapping(pairs: seq<(Range, Range)>)
    requires NonEmptyRanges(pairs)
    ensures CountContaining(pairs) <= CountOverlapping(pairs)
  {
    if pairs != [] {
      ContainingAtMostOverlapping(pairs[..|pairs| - 1]);
      var (elf1, elf2) := pairs[|pairs| - 1];
      ContainmentImpliesOverlap(elf1, elf2);
    }
  }

  /** Both parts fail on the same inputs, and part 1 never exceeds part 2 when ranges are non-empty. */
  lemma Part1AtMostPart2(input: seq<string>)
    ensures Part1(input).Some? <==> Part2(input).Some?
    ensures Part1(input).Some? ==> Part1(input).value <= |input| && Part2(input).value <= |input|
    ensures Part1(input).Some? && NonEmptyRanges(ParseLines(input).value) ==>
      Part1(input).value <= Part2(input).value
  {
    if ParseLines(input).Some? && NonEmptyRanges(ParseLines(input).value) {
      ContainingAtMostOverlapping(ParseLines(input).value);
    }
  }

  /** The lines `count` accepts in part 1: those holding two ranges, one containing the other. */
  ghost function ContainingLines(input: seq<string>): set<nat>
  {
    set i: nat | i < |input| && Elves(input[i]).Some? &&
      EitherContains(Elves(input[i]).value.0, Elves(input[i]).value.1)
  }

  /** The lines `count` accepts in part 2: those holding two ranges that share a section. */
  ghost function OverlappingLines(input: seq<string>): set<nat>
  {
    set i: nat | i < |input| && Elves(input[i]).Some? &&
      Overlaps(Elves(input[i]).value.0, Elves(input[i]).value.1)
  }

  /** The positions of the pairs where one range contains the other. */
  ghost function ContainingPairs(pairs: seq<(Range, Range)>): set<nat>
  {
    set i: nat | i < |pairs| && EitherContains(pairs[i].0, pairs[i].1)
  }

  /** The positions of the pairs that share a section. */
  ghost function OverlappingPairs(pairs: seq<(Range, Range)>): set<nat>
  {
    set i: nat | i < |pairs| && Overlaps(pairs[i].0, pairs[i].1)
  }

  lemma {:induction false} CountContainingIsCard(pairs: seq<(Range, Range)>)
    ensures CountContaining(pairs) == |ContainingPairs(pairs)|
  {
    if pairs != [] {
      var n := |pairs| - 1;
      CountContainingIsCard(pairs[..n]);
      var (elf1, elf2) := pairs[n];
      var earlier := ContainingPairs(pairs[..n]);
      assert ContainingPairs(pairs) == earlier + if EitherContains(elf1, elf2) then {n} else {};
    }
  }

  lemma {:induction false} CountOverlappingIsCard(pairs: seq<(Range, Range)>)
    ensures CountOverlapping(pairs) == |OverlappingPairs(pairs)|
  {
    if pairs != [] {
      var n := |pairs| - 1;
      CountOverlappingIsCard(pairs[..n]);
      var (elf1, elf2) := pairs[n];
      var earlier := OverlappingPairs(pairs[..n]);
      assert OverlappingPairs(pairs) == earlier + if Overlaps(elf1, elf2) then {n} else {};
    }
  }

  /** Part 1 fails exactly when a line does not hold two ranges, and otherwise counts the lines
      where one range contains the other. */
  lemma Part1CountsLines(input: seq<string>)
    ensures Part1(input).Some? <==> forall i :: 0 <= i < |input| ==> Elves(input[i]).Some?
    ensures Part1(input).Some? ==> Part1(input).value == |ContainingLines(input)|
  {
    if ParseLines(input).Some? {
      CountContainingIsCard(ParseLines(input).value);
      assert ContainingLines(input) == ContainingPairs(ParseLines(input).value);
    }
  }

  /** Part 2 fails exactly when a line does not hold two ranges, and otherwise counts the lines
      whose ranges share a section. */
  lemma Part2CountsLines(input: seq<string>)
    ensures Part2(input).Some? <==> forall i :: 0 <= i < |input| ==> Elves(input[i]).Some?
    ensures Part2(input).Some? ==> Part2(input).value == |OverlappingLines(input)|
  {
    if ParseLines(input).Some? {
      CountOverlappingIsCard(ParseLines(input).value);
      assert OverlappingLines(input) == OverlappingPairs(ParseLines(input).value);
    }
  }
}
