/**
 * Day 3 (src/Day03.kt): rucksack items are letters with priorities 1..52. Part 1
 * finds the one item both compartments of a rucksack share, part 2 the one item
 * (the badge) every rucksack of a group of three shares.
 */
module Day03 {
  import opened Utils
  import opened Text

  predicate IsLower(c: char)
  {
    'a' <= c <= 'z'
  }

  predicate IsUpper(c: char)
  {
    'A' <= c <= 'Z'
  }

  /** `priority`: lower-case letters first, then upper-case letters (ASCII `isLowerCase`). */
  function Priority(c: char): (p: int)
    ensures IsLower(c) ==> 1 <= p <= 26
    ensures IsUpper(c) ==> 27 <= p <= 52
  {
    if IsLower(c) then 1 + (c as int - 'a' as int) else 27 + (c as int - 'A' as int)
  }

  /** The letter that carries a priority between 1 and 52. */
  function ItemOfPriority(p: int): (c: char)
    requires 1 <= p <= 52
    ensures IsLower(c) || IsUpper(c)
  {
    if p <= 26 then ('a' as int + p - 1) as char else ('A' as int + p - 27) as char
  }

  /** Priorities number the 52 letters one to one: every letter is the item of its priority,
      and every priority 1..52 is the priority of its item. */
  lemma PriorityRoundTrip(c: char, p: int)
    ensures IsLower(c) || IsUpper(c) ==> ItemOfPriority(Priority(c)) == c
    ensures 1 <= p <= 52 ==> Priority(ItemOfPriority(p)) == p
  {
  }

  /** 'a'..'z' take 1..26, 'A'..'Z' take 27..52, and different letters have different priorities. */
  lemma PriorityRanges(c: char, d: char)
    ensures IsLower(c) ==> 1 <= Priority(c) <= 26
    ensures IsUpper(c) ==> 27 <= Priority(c) <= 52
    ensures (IsLower(c) || IsUpper(c)) && (IsLower(d) || IsUpper(d)) && c != d ==>
      Priority(c) != Priority(d)
  {
  }

  /** `single()` on a set: its one element, and an error when it has none or several. */
  ghost function Single(s: set<char>): (r: Option<char>)
    ensures r.Some? <==> |s| == 1
    ensures r.Some? ==> s == {r.value}
  {
    if |s| == 1 then
      var x :| x in s;
      assert s - {x} == {} by {
        assert |s - {x}| == 0;
      }
      Some(x)
    else None
  }

  /** The two compartments: `chunked(length / 2)` and its first two chunks. */
  function Compartments(rucksack: string): (r: Option<(string, string)>)
    ensures r.Some? <==> |rucksack| >= 2
    ensures r.Some? ==> var h := |rucksack| / 2;
      r.value == (rucksack[..h], rucksack[h..2 * h])
  {
    if |rucksack| / 2 == 0 then None
    else
      var chunks := Chunked(rucksack, |rucksack| / 2);
      CompartmentChunks(rucksack);
      Some((chunks[0], chunks[1]))
  }

  /** With a chunk size of half the length, there are at least two chunks: the two halves. */
  lemma CompartmentChunks(rucksack: string)
    requires |rucksack| >= 2
    ensures var h := |rucksack| / 2; var chunks := Chunked(rucksack, h);
      |chunks| >= 2 && chunks[0] == rucksack[..h] && chunks[1] == rucksack[h..2 * h]
  {
    var h := |rucksack| / 2;
    assert |rucksack| > h;
    var rest := rucksack[h..];
    assert Chunked(rucksack, h) == [rucksack[..h]] + Chunked(rest, h);
    assert rest != [] && rest[..h] == rucksack[h..2 * h];
    if |rest| <= h {
      assert |rest| == h;
      assert Chunked(rest, h) == [rest];
    } else {
      assert Chunked(rest, h) == [rest[..h]] + Chunked(rest[h..], h);
    }
  }

  function ItemSet(s: string): set<char>
  {
    set i | 0 <= i < |s| :: s[i]
  }

  /** Part 1 for one rucksack: the priority of the one item both compartments hold. */
  ghost function Misplaced(rucksack: string): (r: Option<char>)
    ensures r.Some? <==> (|rucksack| >= 2 &&
      |ItemSet(rucksack[..|rucksack| / 2]) * ItemSet(rucksack[|rucksack| / 2..2 * (|rucksack| / 2)])| == 1)
    ensures r.Some? ==> var h := |rucksack| / 2;
      r.value in rucksack[..h] && r.value in rucksack[h..2 * h]
  {
    match Compartments(rucksack)
    case None => None
    case Some((first, second)) => Single(ItemSet(first) * ItemSet(second))
  }

  /** The common items of a group: `reduce` with `retainAll` is the intersection of all sets. */
  ghost function CommonItems(group: seq<string>): (r: set<char>)
    requires |group| > 0
    ensures forall c :: c in r <==> forall i :: 0 <= i < |group| ==> c in group[i]
  {
    if |group| == 1 then ItemSet(group[0])
    else CommonItems(group[..|group| - 1]) * ItemSet(group[|group| - 1])
  }

  /** Part 2 for one group: the one item all its rucksacks carry. */
  ghost function Badge(group: seq<string>): (r: Option<char>)
    requires |group| > 0
    ensures r.Some? <==> |CommonItems(group)| == 1
    ensures r.Some? ==> forall i :: 0 <= i < |group| ==> r.value in group[i]
  {
    Single(CommonItems(group))
  }

  function PriorityOf(c: Option<char>): Option<int>
  {
    match c
    case Some(x) => Some(Priority(x))
    case None => None
  }

  ghost predicate Letters(s: string)
  {
    forall i :: 0 <= i < |s| ==> IsLower(s[i]) || IsUpper(s[i])
  }

  ghost function MisplacedPriorities(input: seq<string>): (r: seq<Option<int>>)
    ensures |r| == |input|
    ensures forall i :: 0 <= i < |input| ==> r[i] == PriorityOf(Misplaced(input[i]))
  {
    if input == [] then []
    else MisplacedPriorities(input[..|input| - 1]) + [PriorityOf(Misplaced(input[|input| - 1]))]
  }

  ghost function BadgePriorities(groups: seq<seq<string>>): (r: seq<Option<int>>)
    requires forall i :: 0 <= i < |groups| ==> |groups[i]| > 0
    ensures |r| == |groups|
    ensures forall i :: 0 <= i < |groups| ==> r[i] == PriorityOf(Badge(groups[i]))
  {
    if groups == [] then []
    else BadgePriorities(groups[..|groups| - 1]) + [PriorityOf(Badge(groups[|groups| - 1]))]
  }

  /** Part 1: fails unless every rucksack has exactly one shared item. */
  ghost function Part1(input: seq<string>): (r: Option<int>)
    ensures r.Some? <==> forall i :: 0 <= i < |input| ==> Misplaced(input[i]).Some?
  {
    var scores := MisplacedPriorities(input);
    assert forall i :: 0 <= i < |input| ==> (scores[i].Some? <==> Misplaced(input[i]).Some?);
    SumOptions(scores)
  }

  ghost predicate AllGroupsHaveBadge(groups: seq<seq<string>>)
    requires forall i :: 0 <= i < |groups| ==> |groups[i]| > 0
  {
    forall i :: 0 <= i < |groups| ==> Badge(groups[i]).Some?
  }

  /** Part 2: groups of three lines (the last one possibly shorter). */
  ghost function Part2(input: seq<string>): (r: Option<int>)
    ensures r.Some? <==> AllGroupsHaveBadge(Chunked(input, 3))
  {
    var groups := Chunked(input, 3);
    var scores := BadgePriorities(groups);
    assert forall i :: 0 <= i < |groups| ==> (scores[i].Some? <==> Badge(groups[i]).Some?);
    SumOptions(scores)
  }

  /** On letter-only rucksacks each one contributes between 1 and 52. */
  lemma Part1Bounds(input: seq<string>)
    requires forall i :: 0 <= i < |input| ==> Letters(input[i])
    requires Part1(input).Some?
    ensures |input| <= Part1(input).value <= 52 * |input|
  {
    var scores := MisplacedPriorities(input);
    forall i | 0 <= i < |scores| && scores[i].Some?
      ensures 1 <= scores[i].value <= 52
    {
      var c := Misplaced(input[i]).value;
      assert c in input[i];
      PriorityRanges(c, c);
    }
    SumOptionsBounds(scores, 1, 52);
  }

  /** On letter-only rucksacks each group contributes between 1 and 52. */
  lemma Part2Bounds(input: seq<string>)
    requires forall i :: 0 <= i < |input| ==> Letters(input[i])
    requires Part2(input).Some?
    ensures var groups := |Chunked(input, 3)|;
      groups <= Part2(input).value <= 52 * groups && 3 * groups >= |input|
  {
    var groups := Chunked(input, 3);
    var scores := BadgePriorities(groups);
    forall i | 0 <= i < |scores| && scores[i].Some?
      ensures 1 <= scores[i].value <= 52
    {
      var c := Badge(groups[i]).value;
      assert c in groups[i][0];
      ChunkMember(input, 3, i, 0);
      PriorityRanges(c, c);
    }
    SumOptionsBounds(scores, 1, 52);
    ChunkCount(input, 3);
  }

  /** Every chunk element is an element of the chunked sequence. */
  lemma {:induction false} ChunkMember<T>(s: seq<T>, size: nat, i: nat, j: nat)
    requires size > 0 && i < |Chunked(s, size)| && j < |Chunked(s, size)[i]|
    ensures Chunked(s, size)[i][j] in s
    decreases |s|
  {
    if |s| > size && i > 0 {
      ChunkMember(s[size..], size, i - 1, j);
    }
  }

  /** Parts of at most `size` elements each hold at most `size` times as many elements as there are parts. */
  lemma {:induction false} ConcatBound<T>(parts: seq<seq<T>>, size: nat)
    requires forall i :: 0 <= i < |parts| ==> |parts[i]| <= size
    ensures |Concat(parts)| <= size * |parts|
  {
    if parts != [] {
      ConcatBound(parts[1..], size);
      assert size * |parts| == size * |parts[1..]| + size;
    }
  }

  /** There are at least `|s| / size` chunks, rounded up. */
  lemma ChunkCount<T>(s: seq<T>, size: nat)
    requires size > 0
    ensures size * |Chunked(s, size)| >= |s|
  {
    ConcatBound(Chunked(s, size), size);
  }
}
