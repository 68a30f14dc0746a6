/**
 * Day 1 (src/Day01.kt): the input lists calorie counts, one per line, with blank lines
 * between the elves. Part 1 is the largest per-elf total, part 2 the sum of the three
 * largest totals.
 */
module Day01 {
  import opened Utils
  import opened Text

  /** Every non-blank line is a number (`toInt()` throws otherwise). */
  ghost predicate Parses(lines: seq<string>)
  {
    forall i :: 0 <= i < |lines| && !IsBlank(lines[i]) ==> ParseInt(lines[i]).Some?
  }

  /**
   * The groups `splitIntoElves` builds: a blank line closes the current group and
   * opens a new one, a number joins the current group, and the last group is always
   * added at the end.
   */
  ghost function Groups(lines: seq<string>): (g: seq<seq<int>>)
    requires Parses(lines)
    ensures |g| > 0
  {
    if lines == [] then [[]]
    else
      var prev := Groups(lines[..|lines| - 1]);
      var line := lines[|lines| - 1];
      if IsBlank(line) then prev + [[]]
      else prev[..|prev| - 1] + [prev[|prev| - 1] + [ParseInt(line).value]]
  }

  /** The number of blank lines. */
  function BlankCount(lines: seq<string>): nat
  {
    if lines == [] then 0
    else BlankCount(lines[..|lines| - 1]) + (if IsBlank(lines[|lines| - 1]) then 1 else 0)
  }

  /** The non-blank lines read as numbers, in input order. */
  ghost function Numbers(lines: seq<string>): seq<int>
    requires Parses(lines)
  {
    if lines == [] then []
    else if IsBlank(lines[|lines| - 1]) then Numbers(lines[..|lines| - 1])
    else Numbers(lines[..|lines| - 1]) + [ParseInt(lines[|lines| - 1]).value]
  }

  /** `splitIntoElves`: one pass over the lines with a reassigned `elf` accumulator. */
  method SplitIntoElves(lines: seq<string>) returns (r: Option<seq<seq<int>>>)
    ensures r.Some? <==> Parses(lines)
    ensures r.Some? ==> r.value == Groups(lines)
  {
    var elves: seq<seq<int>> := [];
    var elf: seq<int> := [];
    var i := 0;
    while i < |lines|
      invariant 0 <= i <= |lines|
      invariant Parses(lines[..i])
      invariant elves + [elf] == Groups(lines[..i])
    {
      var line := lines[i];
      if IsBlank(line) {
        GroupsStep(lines, i, elves, elf);
        elves := elves + [elf];
        elf := [];
      } else {
        var n := ParseInt(line);
        if n.None? {
          assert !Parses(lines) by {
            LineFails(lines, i);
          }
          return None;
        }
        GroupsStep(lines, i, elves, elf);
        elf := elf + [n.value];
      }
      i := i + 1;
    }
    assert lines[..i] == lines;
    r := Some(elves + [elf]);
  }

  /** One more line: a blank closes the current group, a number joins it. */
  lemma GroupsStep(lines: seq<string>, i: nat, elves: seq<seq<int>>, elf: seq<int>)
    requires i < |lines| && Parses(lines[..i]) && elves + [elf] == Groups(lines[..i])
    requires IsBlank(lines[i]) || ParseInt(lines[i]).Some?
    ensures Parses(lines[..i + 1])
    ensures IsBlank(lines[i]) ==> elves + [elf] + [[]] == Groups(lines[..i + 1])
    ensures !IsBlank(lines[i]) ==> elves + [elf + [ParseInt(lines[i]).value]] == Groups(lines[..i + 1])
  {
    assert lines[..i + 1][..i] == lines[..i];
    var prev := Groups(lines[..i]);
    assert prev[..|prev| - 1] == elves;
  }

  /** A non-blank line that is not a number makes the whole input fail. */
  lemma LineFails(lines: seq<string>, i: nat)
    requires i < |lines| && !IsBlank(lines[i]) && ParseInt(lines[i]).None?
    ensures !Parses(lines)
  {
  }

  /** There is one group more than there are blank lines. */
  lemma {:induction false} GroupCount(lines: seq<string>)
    requires Parses(lines)
    ensures |Groups(lines)| == BlankCount(lines) + 1
  {
    if lines != [] {
      assert Parses(lines[..|lines| - 1]);
      GroupCount(lines[..|lines| - 1]);
    }
  }

  /** Flattening the groups gives back the numbers, in input order. */
  lemma {:induction false} GroupsFlatten(lines: seq<string>)
    requires Parses(lines)
    ensures Concat(Groups(lines)) == Numbers(lines)
  {
    if lines == [] {
      var empty: seq<seq<int>> := [[]];
      assert Concat(empty) == [] + Concat(empty[1..]);
    } else {
      var init := lines[..|lines| - 1];
      assert Parses(init);
      GroupsFlatten(init);
      var prev := Groups(init);
      ConcatAppend(prev[..|prev| - 1], prev[|prev| - 1]);
      assert prev == prev[..|prev| - 1] + [prev[|prev| - 1]];
      if IsBlank(lines[|lines| - 1]) {
        ConcatAppend(prev, []);
      } else {
        ConcatAppend(prev[..|prev| - 1], prev[|prev| - 1] + [ParseInt(lines[|lines| - 1]).value]);
      }
    }
  }

  /** Two blank lines in a row leave an empty group, whose total is 0. */
  lemma BlankLinesMakeEmptyGroup(lines: seq<string>, b1: string, b2: string)
    requires Parses(lines) && IsBlank(b1) && IsBlank(b2)
    ensures Parses(lines + [b1, b2])
    ensures var g := Groups(lines + [b1, b2]);
      |g| >= 2 && g[|g| - 2] == [] && Sum(g[|g| - 2]) == 0
  {
    var l := lines + [b1, b2];
    assert l[..|l| - 1] == lines + [b1];
    assert (lines + [b1])[..|lines|] == lines;
  }

  function Totals(elves: seq<seq<int>>): (t: seq<int>)
    ensures |t| == |elves|
    ensures forall i :: 0 <= i < |elves| ==> t[i] == Sum(elves[i])
  {
    if elves == [] then [] else Totals(elves[..|elves| - 1]) + [Sum(elves[|elves| - 1])]
  }

  /** `part1` after the split: the largest group total (`maxOf`). */
  function MostCalories(elves: seq<seq<int>>): (r: int)
    requires |elves| > 0
    ensures forall i :: 0 <= i < |elves| ==> Sum(elves[i]) <= r
    ensures exists i :: 0 <= i < |elves| && Sum(elves[i]) == r
  {
    var t := Totals(elves);
    assert forall i :: 0 <= i < |elves| ==> t[i] == Sum(elves[i]);
    Max(t)
  }

  /** `part2` after the split: the sum of the first three totals in descending order. */
  function TopThreeCalories(elves: seq<seq<int>>): int
  {
    var sorted := SortDescending(Totals(elves));
    Sum(sorted[..if |sorted| < 3 then |sorted| else 3])
  }

  /** The largest total is one summand of `part2`, the other (at most two) are no larger. */
  lemma TopThreeIncludesMost(elves: seq<seq<int>>)
    requires |elves| > 0
    ensures var sorted := SortDescending(Totals(elves));
      |sorted| == |elves| && sorted[0] == MostCalories(elves) &&
      TopThreeCalories(elves) == Sum(sorted[..if |sorted| < 3 then |sorted| else 3]) &&
      forall i :: 0 < i < |sorted| ==> sorted[i] <= sorted[0]
  {
    var t := Totals(elves);
    var sorted := SortDescending(t);
    assert |sorted| == |multiset(sorted)| == |multiset(t)| == |t|;
    DescendingHeadIsMax(t, sorted);
    var i :| 0 <= i < |elves| && Sum(elves[i]) == MostCalories(elves);
    var j :| 0 <= j < |t| && t[j] == Max(t);
    assert MostCalories(elves) == Max(t) by {
      assert t[i] <= Max(t);
      assert Sum(elves[j]) <= MostCalories(elves);
    }
  }

  method Part1(lines: seq<string>) returns (r: Option<int>)
    ensures r.Some? <==> Parses(lines)
    ensures r.Some? ==> r.value == MostCalories(Groups(lines))
  {
    var elves := SplitIntoElves(lines);
    if elves.None? {
      return None;
    }
    r := Some(MostCalories(elves.value));
  }

  method Part2(lines: seq<string>) returns (r: Option<int>)
    ensures r.Some? <==> Parses(lines)
    ensures r.Some? ==> r.value == TopThreeCalories(Groups(lines))
  {
    var elves := SplitIntoElves(lines);
    if elves.None? {
      return None;
    }
    r := Some(TopThreeCalories(elves.value));
  }
}
