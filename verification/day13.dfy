/**
 * Day 13 (src/Day13.kt): distress-signal packets are nested lists of integers. Packets
 * are compared element by element, an integer meeting a list being wrapped in a
 * one-element list; they are parsed by a recursive-descent parser with a cursor.
 * Part 1 sums the indices of the pairs already in order, part 2 sorts every packet
 * together with two divider packets and multiplies the dividers' positions.
 */
module Day13 {
  import opened Utils
  import opened Text

  /** `ListPacket` and `ItemPacket`. */
  datatype Packet = ListPacket(children: seq<Packet>) | ItemPacket(value: int)

  /** The number of packets in `p`, itself included: the measure the comparison recurses on. */
  function Size(p: Packet): (n: nat)
    ensures n >= 1
  {
    match p
    case ItemPacket(_) => 1
    case ListPacket(children) => 1 + SizeAll(children)
  }

  function SizeAll(ps: seq<Packet>): nat
  {
    if ps == [] then 0 else Size(ps[0]) + SizeAll(ps[1..])
  }

  lemma {:induction false} SizeElement(ps: seq<Packet>, i: nat)
    requires i < |ps|
    ensures Size(ps[i]) <= SizeAll(ps)
  {
    if i > 0 {
      SizeElement(ps[1..], i - 1);
    }
  }

  lemma SizeSingle(p: Packet)
    ensures SizeAll([p]) == Size(p)
  {
    assert [p][1..] == [];
  }

  lemma SizeFirst(ps: seq<Packet>)
    requires ps != []
    ensures SizeAll(ps) == Size(ps[0]) + SizeAll(ps[1..]) && Size(ps[0]) >= 1
  {
  }

  // ---------------------------------------------------------------------------
  // compareTo

  /** `Int.compareTo`: the sign of `a - b`. */
  function CompareInts(a: int, b: int): int
  {
    if a < b then -1 else if a > b then 1 else 0
  }

  /**
   * `Packet.compareTo`. Two lists compare element-wise; an item met by a list is
   * wrapped in a one-element list (`ListPacket(listOf(other))`); two items compare
   * their values.
   */
  function Compare(a: Packet, b: Packet): (c: int)
    ensures -1 <= c <= 1
    decreases Size(a) + Size(b), 0
  {
    match (a, b)
    case (ItemPacket(x), ItemPacket(y)) => CompareInts(x, y)
    case (ListPacket(xs), ListPacket(ys)) => CompareLists(xs, ys, 0)
    case (ListPacket(xs), ItemPacket(_)) => SizeSingle(b); CompareLists(xs, [b], 0)
    case (ItemPacket(_), ListPacket(ys)) => SizeSingle(a); CompareLists([a], ys, 0)
  }

  /**
   * The `for (i in 0 until max(...))` loop of `ListPacket.compareTo`, from index `i`:
   * the left list running out gives -1, the right one 1, and the first element
   * comparison that is not 0 decides.
   */
  function CompareLists(xs: seq<Packet>, ys: seq<Packet>, i: nat): (c: int)
    ensures -1 <= c <= 1
    decreases SizeAll(xs) + SizeAll(ys), 1, |xs| + |ys| - i
  {
    if i >= |xs| && i >= |ys| then 0
    else if i >= |xs| then -1
    else if i >= |ys| then 1
    else
      SizeElement(xs, i);
      SizeElement(ys, i);
      var c := Compare(xs[i], ys[i]);
      if c != 0 then c else CompareLists(xs, ys, i + 1)
  }

  /** Two items compare by their values. */
  lemma CompareItems(v: int, w: int)
    ensures Compare(ItemPacket(v), ItemPacket(w)) < 0 <==> v < w
    ensures Compare(ItemPacket(v), ItemPacket(w)) == 0 <==> v == w
  {
  }

  /** An item compares like the one-element list holding it, on either side. */
  lemma WrapItem(list: seq<Packet>, v: int)
    ensures Compare(ListPacket(list), ItemPacket(v)) == Compare(ListPacket(list), ListPacket([ItemPacket(v)]))
    ensures Compare(ItemPacket(v), ListPacket(list)) == Compare(ListPacket([ItemPacket(v)]), ListPacket(list))
  {
  }

  /** Every packet compares equal to itself. */
  lemma {:induction false} CompareSelf(p: Packet)
    ensures Compare(p, p) == 0
    decreases Size(p) + Size(p), 0
  {
    if p.ListPacket? {
      CompareListsSelf(p.children, 0);
    }
  }

  lemma {:induction false} CompareListsSelf(xs: seq<Packet>, i: nat)
    ensures CompareLists(xs, xs, i) == 0
    decreases SizeAll(xs) + SizeAll(xs), 1, |xs| + |xs| - i
  {
    if i < |xs| {
      SizeElement(xs, i);
      CompareSelf(xs[i]);
      CompareListsSelf(xs, i + 1);
    }
  }

  /** Swapping the packets negates the comparison. */
  lemma {:induction false} CompareAntisymmetric(a: Packet, b: Packet)
    ensures Compare(a, b) == -Compare(b, a)
    decreases Size(a) + Size(b), 0
  {
    match (a, b)
    case (ItemPacket(_), ItemPacket(_)) =>
    case (ListPacket(xs), ListPacket(ys)) => CompareListsAntisymmetric(xs, ys, 0);
    case (ListPacket(xs), ItemPacket(_)) => SizeSingle(b); CompareListsAntisymmetric(xs, [b], 0);
    case (ItemPacket(_), ListPacket(ys)) => SizeSingle(a); CompareListsAntisymmetric([a], ys, 0);
  }

  lemma {:induction false} CompareListsAntisymmetric(xs: seq<Packet>, ys: seq<Packet>, i: nat)
    ensures CompareLists(xs, ys, i) == -CompareLists(ys, xs, i)
    decreases SizeAll(xs) + SizeAll(ys), 1, |xs| + |ys| - i
  {
    if i < |xs| && i < |ys| {
      SizeElement(xs, i);
      SizeElement(ys, i);
      CompareAntisymmetric(xs[i], ys[i]);
      CompareListsAntisymmetric(xs, ys, i + 1);
    }
  }

  /** The list an item is wrapped into when it meets a list; a list's own children. */
  function Elements(p: Packet): (ps: seq<Packet>)
    ensures SizeAll(ps) <= Size(p) && (p.ListPacket? ==> SizeAll(ps) < Size(p))
  {
    match p
    case ListPacket(children) => children
    case ItemPacket(_) => SizeSingle(p); [p]
  }

  /** Every comparison is the list comparison of the two packets' element lists. */
  lemma CompareViaLists(a: Packet, b: Packet)
    ensures Compare(a, b) == CompareLists(Elements(a), Elements(b), 0)
  {
    if a.ItemPacket? && b.ItemPacket? {
      SizeSingle(a);
      SizeSingle(b);
      assert CompareLists([a], [b], 1) == 0;
    }
  }

  /**
   * `compareTo` is transitive, so together with the two lemmas above it is a total
   * preorder, the contract `sorted()` relies on.
   */
  lemma {:induction false} CompareTransitive(a: Packet, b: Packet, c: Packet)
    requires Compare(a, b) <= 0 && Compare(b, c) <= 0
    ensures Compare(a, c) <= 0
    decreases Size(a) + Size(b) + Size(c), 0
  {
    if !(a.ItemPacket? && b.ItemPacket? && c.ItemPacket?) {
      CompareViaLists(a, b);
      CompareViaLists(b, c);
      CompareViaLists(a, c);
      CompareListsTransitive(Elements(a), Elements(b), Elements(c), 0);
    }
  }

  lemma {:induction false} CompareListsTransitive(xs: seq<Packet>, ys: seq<Packet>, zs: seq<Packet>, i: nat)
    requires CompareLists(xs, ys, i) <= 0 && CompareLists(ys, zs, i) <= 0
    ensures CompareLists(xs, zs, i) <= 0
    decreases SizeAll(xs) + SizeAll(ys) + SizeAll(zs), 1, |xs| - i
  {
    if i < |xs| && i < |ys| && i < |zs| {
      var x, y, z := xs[i], ys[i], zs[i];
      SizeElement(xs, i);
      SizeElement(ys, i);
      SizeElement(zs, i);
      CompareTransitive(x, y, z);
      if Compare(x, z) == 0 {
        CompareAntisymmetric(x, z);
        CompareAntisymmetric(x, y);
        CompareAntisymmetric(y, z);
        CompareTransitive(y, z, x);
        CompareTransitive(z, x, y);
        CompareListsTransitive(xs, ys, zs, i + 1);
      }
    }
  }

  /** The elements from `i` up to `k` compare equal pairwise. */
  ghost predicate EqualFrom(xs: seq<Packet>, ys: seq<Packet>, i: nat, k: nat)
  {
    forall l :: i <= l < k && l < |xs| && l < |ys| ==> Compare(xs[l], ys[l]) == 0
  }

  /**
   * Lexicographic order: the first pair of elements that does not compare equal
   * decides; when there is none, the shorter list comes first.
   */
  lemma {:induction false} CompareListsLexicographic(xs: seq<Packet>, ys: seq<Packet>, i: nat)
    ensures
      || (exists k :: i <= k < |xs| && k < |ys| && EqualFrom(xs, ys, i, k) && Compare(xs[k], ys[k]) != 0
                      && CompareLists(xs, ys, i) == Compare(xs[k], ys[k]))
      || (EqualFrom(xs, ys, i, |xs| + |ys|) && CompareLists(xs, ys, i) == if i >= |xs| && i >= |ys| then 0 else CompareInts(|xs|, |ys|))
    decreases |xs| + |ys| - i
  {
    if i < |xs| && i < |ys| && Compare(xs[i], ys[i]) == 0 {
      CompareListsLexicographic(xs, ys, i + 1);
    }
  }

  /** The same from the start of both lists. */
  lemma FirstDifferenceDecides(xs: seq<Packet>, ys: seq<Packet>)
    ensures
      || (exists k :: 0 <= k < |xs| && k < |ys| && EqualFrom(xs, ys, 0, k) && Compare(xs[k], ys[k]) != 0
                      && Compare(ListPacket(xs), ListPacket(ys)) == Compare(xs[k], ys[k]))
      || (EqualFrom(xs, ys, 0, |xs| + |ys|) && Compare(ListPacket(xs), ListPacket(ys)) == CompareInts(|xs|, |ys|))
  {
    CompareListsLexicographic(xs, ys, 0);
  }

  // ---------------------------------------------------------------------------
  // PacketParser: what each consume function reads, as functions of the input and
  // the cursor position. `None` stands for the exceptions the source throws: an index
  // past the end of the input (`peek`/`consume`), a failed `check` and `toInt`
  // overflowing Int.

  /** A parsed value and the cursor position after it. */
  datatype Parsed<T> = Parsed(value: T, next: nat)

  /** `Int.MAX_VALUE`: `toInt` throws for larger numbers. */
  const MaxInt: int := 0x7fff_ffff

  /**
   * Where the digit run starting at `i` ends: the first non-digit at or after `i`.
   * `None` when the digits run to the end of the input, where `peek` throws.
   */
  function DigitRunEnd(s: string, i: nat): (r: Option<nat>)
    ensures r.Some? ==> i <= r.value < |s| && AllDigits(s[i..r.value]) && !IsDigit(s[r.value])
    ensures r.None? ==> forall j :: i <= j < |s| ==> IsDigit(s[j])
    decreases |s| - i
  {
    if i >= |s| then None
    else if !IsDigit(s[i]) then Some(i)
    else
      var r := DigitRunEnd(s, i + 1);
      assert r.Some? ==> s[i..r.value] == [s[i]] + s[i + 1..r.value];
      r
  }

  /** The digit run is maximal: it ends at the first non-digit. */
  lemma {:induction false} DigitRunEndIs(s: string, i: nat, j: nat)
    requires i <= j < |s| && AllDigits(s[i..j]) && !IsDigit(s[j])
    ensures DigitRunEnd(s, i) == Some(j)
    decreases j - i
  {
    if i < j {
      assert IsDigit(s[i..j][0]);
      assert s[i + 1..j] == s[i..j][1..];
      DigitRunEndIs(s, i + 1, j);
    }
  }

  /** `consumeNumber`: the maximal digit run at `i` read by `toInt`. */
  function ParseNumber(s: string, i: nat): (r: Option<Parsed<Packet>>)
    ensures r.Some? ==> r.value.next > i && r.value.value.ItemPacket?
  {
    match DigitRunEnd(s, i)
    case None => None
    case Some(j) =>
      if j == i || DigitsValue(s[i..j]) > MaxInt then None
      else Some(Parsed(ItemPacket(DigitsValue(s[i..j])), j))
  }

  /** `consumePacket`: a number when the next character is a digit, a list otherwise. */
  function ParsePacket(s: string, i: nat): (r: Option<Parsed<Packet>>)
    ensures r.Some? ==> r.value.next > i
    decreases |s| - i, 1
  {
    if i >= |s| then None
    else if IsDigit(s[i]) then ParseNumber(s, i)
    else ParseListPacket(s, i)
  }

  /** `consumeListPacket`: `[`, then `]` at once or a list of packets, then `]`. */
  function ParseListPacket(s: string, i: nat): (r: Option<Parsed<Packet>>)
    ensures r.Some? ==> r.value.next > i + 1 && r.value.value.ListPacket?
    ensures r.Some? ==> r.value.next <= |s| && s[i] == '[' && s[r.value.next - 1] == ']'
    decreases |s| - i, 0
  {
    if i >= |s| || s[i] != '[' || i + 1 >= |s| then None
    else
      var content: Option<Parsed<seq<Packet>>> := if s[i + 1] == ']' then Some(Parsed([], i + 1)) else ParseList(s, i + 1);
      match content
      case None => None
      case Some(Parsed(children, k)) =>
        if k >= |s| || s[k] != ']' then None
        else Some(Parsed(ListPacket(children), k + 1))
  }

  /** `consumeList`: one packet, then more for as long as a comma follows. */
  function ParseList(s: string, j: nat): (r: Option<Parsed<seq<Packet>>>)
    ensures r.Some? ==> r.value.next > j && |r.value.value| > 0
    decreases |s| - j, 2
  {
    match ParsePacket(s, j)
    case None => None
    case Some(Parsed(p, k)) => ParseMore(s, k, [p])
  }

  /** The `while (peek() == ',')` loop of `consumeList`, with the packets read so far. */
  function ParseMore(s: string, j: nat, list: seq<Packet>): (r: Option<Parsed<seq<Packet>>>)
    ensures r.Some? ==> r.value.next >= j && |r.value.value| >= |list|
    decreases |s| - j, 3
  {
    if j >= |s| then None
    else if s[j] != ',' then Some(Parsed(list, j))
    else match ParsePacket(s, j + 1)
      case None => None
      case Some(Parsed(p, k)) => ParseMore(s, k, list + [p])
  }

  /** `rootPacket`: one list packet read from the start of the line. */
  function RootPacket(s: string): Option<Packet>
  {
    match ParseListPacket(s, 0)
    case None => None
    case Some(Parsed(p, _)) => Some(p)
  }

  /** A value read by a consume method together with the cursor it leaves behind. */
  function At<T>(r: Option<T>, idx: nat): Option<Parsed<T>>
  {
    match r
    case None => None
    case Some(v) => Some(Parsed(v, idx))
  }

  /**
   * The parser object: the input line, the cursor `idx` and the root packet read when
   * it is constructed. Each consume method is proved to read what the matching
   * function above describes; `None` is the exception that escapes the constructor.
   */
  class PacketParser {
    const input: string
    var idx: nat
    var rootPacket: Option<Packet>

    ghost predicate Valid()
      reads this
    {
      idx <= |input|
    }

    constructor(input: string)
      ensures this.input == input && Valid()
      ensures rootPacket == RootPacket(input)
    {
      this.input := input;
      idx := 0;
      new;
      var r := ConsumeListPacket();
      rootPacket := r;
    }

    method ConsumeNumber() returns (r: Option<Packet>)
      requires Valid()
      modifies this`idx
      ensures Valid()
      ensures At(r, idx) == ParseNumber(input, old(idx))
    {
      var start := idx;
      while idx < |input| && IsDigit(input[idx])
        invariant start <= idx <= |input|
        invariant AllDigits(input[start..idx])
        invariant DigitRunEnd(input, start) == DigitRunEnd(input, idx)
        decreases |input| - idx
      {
        assert input[start..idx + 1] == input[start..idx] + [input[idx]];
        idx := idx + 1;
      }
      if idx >= |input| {
        // `peek` past the end
        return None;
      }
      var digits := input[start..idx];
      if |digits| == 0 || DigitsValue(digits) > MaxInt {
        // `toInt` throws
        return None;
      }
      return Some(ItemPacket(DigitsValue(digits)));
    }

    method ConsumePacket() returns (r: Option<Packet>)
      requires Valid()
      modifies this`idx
      ensures Valid()
      ensures At(r, idx) == ParsePacket(input, old(idx))
      decreases |input| - idx, 1
    {
      if idx >= |input| {
        return None;
      }
      if IsDigit(input[idx]) {
        r := ConsumeNumber();
      } else {
        r := ConsumeListPacket();
      }
    }

    method ConsumeList() returns (r: Option<seq<Packet>>)
      requires Valid()
      modifies this`idx
      ensures Valid()
      ensures At(r, idx) == ParseList(input, old(idx))
      decreases |input| - idx, 2
    {
      var first := ConsumePacket();
      if first.None? {
        return None;
      }
      var list := [first.value];
      while idx < |input| && input[idx] == ','
        invariant Valid() && idx > old(idx)
        invariant ParseList(input, old(idx)) == ParseMore(input, idx, list)
        decreases |input| - idx
      {
        idx := idx + 1;
        var next := ConsumePacket();
        if next.None? {
          return None;
        }
        list := list + [next.value];
      }
      if idx >= |input| {
        return None;
      }
      return Some(list);
    }

    method ConsumeListPacket() returns (r: Option<Packet>)
      requires Valid()
      modifies this`idx
      ensures Valid()
      ensures At(r, idx) == ParseListPacket(input, old(idx))
      decreases |input| - idx, 0
    {
      if idx >= |input| || input[idx] != '[' {
        // `consume` past the end, or `check` fails
        return None;
      }
      idx := idx + 1;
      if idx >= |input| {
        return None;
      }
      var content: seq<Packet>;
      if input[idx] == ']' {
        content := [];
      } else {
        var list := ConsumeList();
        if list.None? {
          return None;
        }
        content := list.value;
      }
      if idx >= |input| || input[idx] != ']' {
        return None;
      }
      idx := idx + 1;
      return Some(ListPacket(content));
    }
  }

  /** `String.toListPacket()`. */
  method ToListPacket(line: string) returns (r: Option<Packet>)
    ensures r == RootPacket(line)
  {
    var parser := new PacketParser(line);
    r := parser.rootPacket;
  }

  // ---------------------------------------------------------------------------
  // Trailing input: a successful parse reads nothing past where it stops, so text
  // appended to the line does not change it.

  lemma ExtendNumber(s: string, t: string, i: nat)
    requires ParseNumber(s, i).Some?
    ensures ParseNumber(s + t, i) == ParseNumber(s, i)
  {
    var j := DigitRunEnd(s, i).value;
    assert (s + t)[i..j] == s[i..j];
    DigitRunEndIs(s + t, i, j);
  }

  lemma {:induction false} ExtendPacket(s: string, t: string, i: nat)
    requires ParsePacket(s, i).Some?
    ensures ParsePacket(s + t, i) == ParsePacket(s, i)
    decreases |s| - i, 1
  {
    if IsDigit(s[i]) {
      ExtendNumber(s, t, i);
    } else {
      ExtendListPacket(s, t, i);
    }
  }

  lemma {:induction false} ExtendListPacket(s: string, t: string, i: nat)
    requires ParseListPacket(s, i).Some?
    ensures ParseListPacket(s + t, i) == ParseListPacket(s, i)
    decreases |s| - i, 0
  {
    if s[i + 1] != ']' {
      ExtendList(s, t, i + 1);
    }
  }

  lemma {:induction false} ExtendList(s: string, t: string, j: nat)
    requires ParseList(s, j).Some?
    ensures ParseList(s + t, j) == ParseList(s, j)
    decreases |s| - j, 2
  {
    ExtendPacket(s, t, j);
    var k := ParsePacket(s, j).value.next;
    ExtendMore(s, t, k, [ParsePacket(s, j).value.value]);
  }

  lemma {:induction false} ExtendMore(s: string, t: string, j: nat, list: seq<Packet>)
    requires ParseMore(s, j, list).Some?
    ensures ParseMore(s + t, j, list) == ParseMore(s, j, list)
    decreases |s| - j, 3
  {
    if s[j] == ',' {
      ExtendPacket(s, t, j + 1);
      var p := ParsePacket(s, j + 1).value;
      ExtendMore(s, t, p.next, list + [p.value]);
    }
  }

  /** The root packet is read from the start of the line; whatever follows it is ignored. */
  lemma TrailingInputIgnored(s: string, t: string)
    requires RootPacket(s).Some?
    ensures RootPacket(s + t) == RootPacket(s)
  {
    ExtendListPacket(s, t, 0);
  }

  // ---------------------------------------------------------------------------
  // A canonical rendering without spaces (`toString` puts ", " between children,
  // which the parser does not accept) and the proof that the parser reads it back.

  /** Packets whose numbers `toInt` can produce. */
  predicate Encodable(p: Packet)
    decreases Size(p), 0
  {
    match p
    case ItemPacket(v) => 0 <= v <= MaxInt
    case ListPacket(children) => AllEncodable(children)
  }

  predicate AllEncodable(ps: seq<Packet>)
    decreases SizeAll(ps), 1
  {
    ps == [] || (Encodable(ps[0]) && AllEncodable(ps[1..]))
  }

  function Encode(p: Packet): (e: string)
    requires Encodable(p)
    ensures |e| > 0 && (IsDigit(e[0]) <==> p.ItemPacket?) && (p.ListPacket? ==> e[0] == '[')
    decreases Size(p), 0
  {
    match p
    case ItemPacket(v) => NatToString(v)
    case ListPacket(children) => "[" + EncodeAll(children) + "]"
  }

  /** The children separated by commas. */
  function EncodeAll(ps: seq<Packet>): (e: string)
    requires AllEncodable(ps)
    ensures ps != [] ==> |e| > 0 && e[0] != ']' && e[0] != ','
    decreases SizeAll(ps), 2
  {
    if ps == [] then "" else Encode(ps[0]) + Tail(ps[1..])
  }

  /** The children after the first, each preceded by a comma. */
  function Tail(ps: seq<Packet>): (e: string)
    requires AllEncodable(ps)
    ensures ps != [] ==> |e| > 0 && e[0] == ','
    decreases SizeAll(ps), 1
  {
    if ps == [] then "" else "," + Encode(ps[0]) + Tail(ps[1..])
  }

  /** `s` holds `e` at position `i`. */
  predicate HoldsAt(s: string, i: nat, e: string)
    decreases |e|
  {
    e == [] || (i < |s| && s[i] == e[0] && HoldsAt(s, i + 1, e[1..]))
  }

  lemma {:induction false} HoldsAtSlice(s: string, i: nat, e: string)
    requires i <= |s|
    ensures HoldsAt(s, i, e) <==> i + |e| <= |s| && s[i..i + |e|] == e
    decreases |e|
  {
    if e != [] && i < |s| {
      HoldsAtSlice(s, i + 1, e[1..]);
      if i + |e| <= |s| {
        assert s[i..i + |e|] == [s[i]] + s[i + 1..i + |e|];
      }
    }
  }

  lemma {:induction false} HoldsAtSplit(s: string, i: nat, a: string, b: string)
    ensures HoldsAt(s, i, a + b) <==> HoldsAt(s, i, a) && HoldsAt(s, i + |a|, b)
    decreases |a|
  {
    if a == [] {
      assert a + b == b;
    } else {
      assert (a + b)[1..] == a[1..] + b;
      HoldsAtSplit(s, i + 1, a[1..], b);
    }
  }

  lemma {:induction false} HoldsAtChar(s: string, i: nat, e: string, k: nat)
    requires HoldsAt(s, i, e) && k < |e|
    ensures i + k < |s| && s[i + k] == e[k]
    decreases k
  {
    if k > 0 {
      HoldsAtChar(s, i + 1, e[1..], k - 1);
    }
  }

  /**
   * Where the rendering of `p` sits at `i` (an item followed by a non-digit), the
   * parser reads `p` back and stops right after it.
   */
  lemma {:induction false} ParseEncoded(s: string, i: nat, p: Packet)
    requires Encodable(p) && HoldsAt(s, i, Encode(p))
    requires p.ItemPacket? ==> i + |Encode(p)| < |s| && !IsDigit(s[i + |Encode(p)|])
    ensures ParsePacket(s, i) == Some(Parsed(p, i + |Encode(p)|))
    decreases Size(p), 0
  {
    var e := Encode(p);
    HoldsAtChar(s, i, e, 0);
    match p
    case ItemPacket(v) =>
      HoldsAtSlice(s, i, e);
      DigitRunEndIs(s, i, i + |e|);
    case ListPacket(children) =>
      var inner := EncodeAll(children);
      HoldsAtSplit(s, i, "[" + inner, "]");
      HoldsAtSplit(s, i, "[", inner);
      HoldsAtChar(s, i + 1 + |inner|, "]", 0);
      if children == [] {
        assert ParseListPacket(s, i) == Some(Parsed(p, i + 2));
      } else {
        HoldsAtChar(s, i + 1, inner, 0);
        ParseEncodedList(s, i + 1, children);
      }
  }

  /** The same for a non-empty list of children followed by `]`. */
  lemma {:induction false} ParseEncodedList(s: string, j: nat, ps: seq<Packet>)
    requires ps != [] && AllEncodable(ps) && HoldsAt(s, j, EncodeAll(ps))
    requires j + |EncodeAll(ps)| < |s| && s[j + |EncodeAll(ps)|] == ']'
    ensures ParseList(s, j) == Some(Parsed(ps, j + |EncodeAll(ps)|))
    decreases SizeAll(ps), 1
  {
    var first, rest := Encode(ps[0]), Tail(ps[1..]);
    HoldsAtSplit(s, j, first, rest);
    var k := j + |first|;
    if ps[1..] != [] {
      HoldsAtChar(s, k, rest, 0);
    }
    ParseEncoded(s, j, ps[0]);
    ParseListStep(s, j, ps[0], k);
    ParseEncodedMore(s, k, [ps[0]], ps[1..]);
    assert [ps[0]] + ps[1..] == ps;
  }

  lemma ParseListStep(s: string, j: nat, p: Packet, k: nat)
    requires ParsePacket(s, j) == Some(Parsed(p, k))
    ensures ParseList(s, j) == ParseMore(s, k, [p])
  {
  }

  lemma ParseMoreStep(s: string, j: nat, list: seq<Packet>, p: Packet, k: nat)
    requires j < |s| && s[j] == ',' && ParsePacket(s, j + 1) == Some(Parsed(p, k))
    ensures ParseMore(s, j, list) == ParseMore(s, k, list + [p])
  {
  }

  /** The comma loop reads the remaining children. */
  lemma {:induction false} ParseEncodedMore(s: string, j: nat, list: seq<Packet>, ps: seq<Packet>)
    requires AllEncodable(ps) && HoldsAt(s, j, Tail(ps))
    requires j + |Tail(ps)| < |s| && s[j + |Tail(ps)|] == ']'
    ensures ParseMore(s, j, list) == Some(Parsed(list + ps, j + |Tail(ps)|))
    decreases SizeAll(ps), 2
  {
    if ps == [] {
      assert list + ps == list;
    } else {
      var first, rest := ps[0], ps[1..];
      var k := TailHead(s, j, ps);
      SizeFirst(ps);
      assert ParsePacket(s, j + 1) == Some(Parsed(first, k)) by {
        EndsBeforeDigit(s, k, rest);
        ParseEncoded(s, j + 1, first);
      }
      assert ParseMore(s, j, list) == ParseMore(s, k, list + [first]) by {
        ParseMoreStep(s, j, list, first, k);
      }
      assert ParseMore(s, k, list + [first]) == Some(Parsed(list + [first] + rest, j + |Tail(ps)|)) by {
        ParseEncodedMore(s, k, list + [first], rest);
      }
      assert list + [first] + rest == list + ps;
    }
  }

  /** The rest of a tail, followed by `]`, starts with a comma or is that `]`. */
  lemma EndsBeforeDigit(s: string, k: nat, rest: seq<Packet>)
    requires AllEncodable(rest) && HoldsAt(s, k, Tail(rest))
    requires k + |Tail(rest)| < |s| && s[k + |Tail(rest)|] == ']'
    ensures k < |s| && !IsDigit(s[k])
  {
    if rest != [] {
      HoldsAtChar(s, k, Tail(rest), 0);
    }
  }

  /** A comma, the first of `ps`, then the rest of the tail, which starts at `k`. */
  lemma TailHead(s: string, j: nat, ps: seq<Packet>) returns (k: nat)
    requires ps != [] && AllEncodable(ps) && HoldsAt(s, j, Tail(ps))
    ensures Encodable(ps[0]) && AllEncodable(ps[1..])
    ensures j < |s| && s[j] == ',' && HoldsAt(s, j + 1, Encode(ps[0]))
    ensures k == j + 1 + |Encode(ps[0])| && HoldsAt(s, k, Tail(ps[1..]))
    ensures k + |Tail(ps[1..])| == j + |Tail(ps)|
  {
    TailUnfold(ps);
    var first, rest := Encode(ps[0]), Tail(ps[1..]);
    k := j + 1 + |first|;
    HoldsAtSplit(s, j, ",", first + rest);
    HoldsAtSplit(s, j + 1, first, rest);
    HoldsAtChar(s, j, ",", 0);
  }

  /** A non-empty tail is a comma, the first packet's text and the rest of the tail. */
  lemma TailUnfold(ps: seq<Packet>)
    requires ps != [] && AllEncodable(ps)
    ensures Encodable(ps[0]) && AllEncodable(ps[1..])
    ensures Tail(ps) == "," + (Encode(ps[0]) + Tail(ps[1..]))
  {
    assert Tail(ps) == "," + Encode(ps[0]) + Tail(ps[1..]);
  }

  /** The root of a rendered list packet is the packet, whatever follows it on the line. */
  lemma RootPacketEncoded(p: Packet, t: string)
    requires p.ListPacket? && Encodable(p)
    ensures RootPacket(Encode(p) + t) == Some(p)
  {
    var s := Encode(p) + t;
    assert s[0..|Encode(p)|] == Encode(p);
    HoldsAtSlice(s, 0, Encode(p));
    ParseEncoded(s, 0, p);
  }

  // ---------------------------------------------------------------------------
  // part1

  /**
   * One group of the `chunked(3)` lines: `(first, second, _)` needs at least two
   * lines (the third, the blank separator, is never read). The pair's 1-based index
   * `k + 1` counts when the first packet is not greater than the second.
   */
  function PairScore(chunk: seq<string>, k: nat): (r: Option<int>)
    ensures r.Some? <==> PairParses(chunk)
  {
    if |chunk| < 2 then None
    else match (RootPacket(chunk[0]), RootPacket(chunk[1]))
      case (Some(left), Some(right)) => Some(if Compare(left, right) <= 0 then k + 1 else 0)
      case _ => None
  }

  /** The group has two lines and both hold a packet. */
  predicate PairParses(chunk: seq<string>)
  {
    |chunk| >= 2 && RootPacket(chunk[0]).Some? && RootPacket(chunk[1]).Some?
  }

  /** Pair `k` parses and is in the right order. */
  predicate InOrder(chunks: seq<seq<string>>, k: nat)
    requires k < |chunks|
  {
    |chunks[k]| >= 2 && RootPacket(chunks[k][0]).Some? && RootPacket(chunks[k][1]).Some?
    && Compare(RootPacket(chunks[k][0]).value, RootPacket(chunks[k][1]).value) <= 0
  }

  /** `withIndex()` then the pair scores, in order. */
  function Scores(chunks: seq<seq<string>>): (r: seq<Option<int>>)
    ensures |r| == |chunks| && forall k :: 0 <= k < |chunks| ==> r[k] == PairScore(chunks[k], k)
  {
    seq(|chunks|, k requires 0 <= k < |chunks| => PairScore(chunks[k], k))
  }

  function Part1(input: seq<string>): Option<int>
  {
    SumOptions(Scores(Chunked(input, 3)))
  }

  /** The 1-based indices of the pairs among the first `n` that are in order. */
  function OrderedIndices(chunks: seq<seq<string>>, n: nat): (r: seq<int>)
    requires n <= |chunks|
    ensures forall v :: v in r ==> 1 <= v <= n && InOrder(chunks, v - 1)
    ensures forall k :: 0 <= k < n && InOrder(chunks, k) ==> k + 1 in r
  {
    if n == 0 then []
    else
      var before := OrderedIndices(chunks, n - 1);
      var r := before + (if InOrder(chunks, n - 1) then [n] else []);
      assert forall v :: v in before ==> v in r;
      r
  }

  /**
   * `part1` fails exactly when some group has fewer than two lines or a line that does
   * not parse; otherwise it is the sum of the indices of the pairs in order.
   */
  lemma Part1IsSumOfOrdered(input: seq<string>)
    ensures var chunks := Chunked(input, 3);
      && (Part1(input).Some? <==> forall k :: 0 <= k < |chunks| ==> PairParses(chunks[k]))
      && (Part1(input).Some? ==> Part1(input).value == Sum(OrderedIndices(chunks, |chunks|)))
  {
    var chunks := Chunked(input, 3);
    var scores := Scores(chunks);
    assert Part1(input) == SumOptions(scores);
    forall k | 0 <= k < |chunks|
      ensures scores[k].Some? <==> PairParses(chunks[k])
    {
      assert scores[k] == PairScore(chunks[k], k);
    }
    if Part1(input).Some? {
      assert scores[..|chunks|] == scores;
      PrefixSum(chunks, scores, |chunks|);
    }
  }

  lemma {:induction false} PrefixSum(chunks: seq<seq<string>>, scores: seq<Option<int>>, n: nat)
    requires |scores| == |chunks| && n <= |chunks|
    requires forall k :: 0 <= k < |chunks| ==> scores[k] == PairScore(chunks[k], k)
    requires SumOptions(scores[..n]).Some?
    ensures SumOptions(scores[..n]).value == Sum(OrderedIndices(chunks, n))
  {
    if n > 0 {
      assert scores[..n][..n - 1] == scores[..n - 1];
      PrefixSum(chunks, scores, n - 1);
      var tail := if InOrder(chunks, n - 1) then [n] else [];
      SumConcat(OrderedIndices(chunks, n - 1), tail);
    }
  }

  // ---------------------------------------------------------------------------
  // part2

  const Divider2: Packet := ListPacket([ListPacket([ItemPacket(2)])])
  const Divider6: Packet := ListPacket([ListPacket([ItemPacket(6)])])

  /** `filter { it.isNotEmpty() }`. */
  function NonEmptyLines(input: seq<string>): (r: seq<string>)
    ensures forall line :: line in r <==> line in input && line != []
  {
    if input == [] then []
    else NonEmptyLines(input[..|input| - 1]) + (if input[|input| - 1] != [] then [input[|input| - 1]] else [])
  }

  /** `map { it.toListPacket() }`: the first line that does not parse throws. */
  function ParseAll(lines: seq<string>): (r: Option<seq<Packet>>)
    ensures r.Some? <==> forall i :: 0 <= i < |lines| ==> RootPacket(lines[i]).Some?
    ensures r.Some? ==> |r.value| == |lines| && forall i :: 0 <= i < |lines| ==> r.value[i] == RootPacket(lines[i]).value
  {
    MapAll(RootPacket, lines)
  }

  /** Every packet is ordered before every later one. */
  ghost predicate Sorted(s: seq<Packet>)
  {
    forall i, j :: 0 <= i < j < |s| ==> Compare(s[i], s[j]) <= 0
  }

  /**
   * Inserts `x` into a sorted list after every element not greater than it, which
   * keeps packets that compare equal in their original order.
   */
  function Insert(x: Packet, s: seq<Packet>): (r: seq<Packet>)
    ensures multiset(r) == multiset(s) + multiset{x}
  {
    if s == [] then [x]
    else
      var last := s[|s| - 1];
      var init := s[..|s| - 1];
      assert s == init + [last];
      if Compare(x, last) < 0 then Insert(x, init) + [last] else s + [x]
  }

  /** Insertion keeps a list sorted. */
  lemma {:induction false} InsertSorted(x: Packet, s: seq<Packet>)
    requires Sorted(s)
    ensures Sorted(Insert(x, s))
  {
    if s != [] {
      var last := s[|s| - 1];
      var init := s[..|s| - 1];
      if Compare(x, last) < 0 {
        InsertSorted(x, init);
        InsertBelow(x, init, last);
      } else {
        CompareAntisymmetric(x, last);
        AppendAbove(s, x);
      }
    }
  }

  lemma AppendAbove(s: seq<Packet>, x: Packet)
    requires Sorted(s) && s != [] && Compare(s[|s| - 1], x) <= 0
    ensures Sorted(s + [x])
  {
    forall i | 0 <= i < |s|
      ensures Compare(s[i], x) <= 0
    {
      if i < |s| - 1 {
        CompareTransitive(s[i], s[|s| - 1], x);
      }
    }
  }

  lemma InsertBelow(x: Packet, init: seq<Packet>, last: Packet)
    requires Sorted(init + [last]) && Sorted(Insert(x, init)) && Compare(x, last) < 0
    ensures Sorted(Insert(x, init) + [last])
  {
    var r := Insert(x, init);
    var s := init + [last];
    forall e | e in r
      ensures Compare(e, last) <= 0
    {
      assert e in multiset(r);
      if e != x {
        assert e in multiset(init);
        var i :| 0 <= i < |init| && init[i] == e;
        assert s[i] == e && s[|init|] == last;
      }
    }
  }

  /** `sorted()`: a stable sort, here an insertion sort taking the packets from the front. */
  function Sort(s: seq<Packet>): (r: seq<Packet>)
    ensures multiset(r) == multiset(s)
  {
    if s == [] then []
    else
      assert s == s[..|s| - 1] + [s[|s| - 1]];
      Insert(s[|s| - 1], Sort(s[..|s| - 1]))
  }

  /** The sorted list is in order. */
  lemma {:induction false} SortSorted(s: seq<Packet>)
    ensures Sorted(Sort(s))
  {
    if s != [] {
      SortSorted(s[..|s| - 1]);
      InsertSorted(s[|s| - 1], Sort(s[..|s| - 1]));
    }
  }

  /**
   * `withIndex().filter { it.value in dividerPackets }.map { it.index + 1 }`, for the
   * two dividers `d2` and `d6`.
   */
  function Positions<T(==)>(s: seq<T>, d2: T, d6: T): seq<int>
  {
    if s == [] then []
    else Positions(s[..|s| - 1], d2, d6) + (if s[|s| - 1] == d2 || s[|s| - 1] == d6 then [|s|] else [])
  }

  /** The positions are increasing and each is the 1-based position of a divider. */
  lemma {:induction false} PositionsSound<T>(s: seq<T>, d2: T, d6: T)
    ensures forall a :: 0 <= a < |Positions(s, d2, d6)| ==> 1 <= Positions(s, d2, d6)[a] <= |s|
    ensures forall a :: 0 <= a < |Positions(s, d2, d6)| ==>
      s[Positions(s, d2, d6)[a] - 1] == d2 || s[Positions(s, d2, d6)[a] - 1] == d6
    ensures forall a, b :: 0 <= a < b < |Positions(s, d2, d6)| ==> Positions(s, d2, d6)[a] < Positions(s, d2, d6)[b]
  {
    if s != [] {
      var init := s[..|s| - 1];
      PositionsSound(init, d2, d6);
      var before := Positions(init, d2, d6);
      var r := Positions(s, d2, d6);
      var tail := if s[|s| - 1] == d2 || s[|s| - 1] == d6 then [|s|] else [];
      assert forall a :: 0 <= a < |before| ==> 1 <= before[a] <= |init|;
      assert r == before + tail;
      forall a | 0 <= a < |r|
        ensures 1 <= r[a] <= |s| && (s[r[a] - 1] == d2 || s[r[a] - 1] == d6)
      {
        if a < |before| {
          assert r[a] == before[a];
          assert s[before[a] - 1] == init[before[a] - 1];
        } else {
          assert r[a] == |s|;
        }
      }
    }
  }

  /** Every divider's position is among them. */
  lemma {:induction false} PositionsComplete<T>(s: seq<T>, d2: T, d6: T, i: nat)
    requires i < |s| && (s[i] == d2 || s[i] == d6)
    ensures i + 1 in Positions(s, d2, d6)
  {
    var init := s[..|s| - 1];
    if i < |init| {
      assert init[i] == s[i];
      PositionsComplete(init, d2, d6, i);
    }
  }

  /** There is one position per divider occurrence. */
  lemma {:induction false} PositionsCount<T>(s: seq<T>, d2: T, d6: T)
    requires d2 != d6
    ensures |Positions(s, d2, d6)| == multiset(s)[d2] + multiset(s)[d6]
  {
    if s != [] {
      var init := s[..|s| - 1];
      assert s == init + [s[|s| - 1]];
      PositionsCount(init, d2, d6);
    }
  }

  lemma DividersOrdered()
    ensures Divider2 != Divider6 && Compare(Divider2, Divider6) == -1
  {
    assert Divider2.children[0] != Divider6.children[0];
  }

  /** The packets and the two dividers, sorted. */
  function WithDividers(packets: seq<Packet>): (sorted: seq<Packet>)
    ensures multiset(sorted) == multiset(packets) + multiset{Divider2, Divider6}
  {
    Sort(packets + [Divider2, Divider6])
  }

  /** The product of the dividers' positions once `packets` are sorted with them. */
  function DecoderKey(packets: seq<Packet>): int
  {
    var sorted := WithDividers(packets);
    var positions := Positions(sorted, Divider2, Divider6);
    assert |positions| >= 2 by {
      DividersOrdered();
      PositionsCount(sorted, Divider2, Divider6);
    }
    Product(positions)
  }

  function Part2(input: seq<string>): Option<int>
  {
    match ParseAll(NonEmptyLines(input))
    case None => None
    case Some(packets) => Some(DecoderKey(packets))
  }

  /**
   * When no packet is itself a divider, the decoder key is the product of the two
   * dividers' 1-based positions in the sorted list, [[2]] coming before [[6]].
   */
  lemma DecoderKeyOfDividers(packets: seq<Packet>) returns (i: nat, j: nat)
    requires Divider2 !in packets && Divider6 !in packets
    ensures var sorted := WithDividers(packets);
      i < j < |sorted| && sorted[i] == Divider2 && sorted[j] == Divider6
      && DecoderKey(packets) == (i + 1) * (j + 1)
  {
    var sorted := WithDividers(packets);
    DividersOnceInOrder(packets);
    i, j := TwoDividers(sorted, Divider2, Divider6);
    var first, second := i + 1, j + 1;
    assert DecoderKey(packets) == Product([first, second]) by {
      DecoderKeyIs(packets);
    }
    ProductPair(first, second);
  }

  /** The sorted list holds each divider once, and never [[6]] before [[2]]. */
  lemma DividersOnceInOrder(packets: seq<Packet>)
    requires Divider2 !in packets && Divider6 !in packets
    ensures var sorted := WithDividers(packets);
      multiset(sorted)[Divider2] == 1 && multiset(sorted)[Divider6] == 1
      && forall a, b :: 0 <= a < b < |sorted| ==> !(sorted[a] == Divider6 && sorted[b] == Divider2)
  {
    var sorted := WithDividers(packets);
    DividersOrdered();
    assert multiset(sorted) == multiset(packets) + multiset{Divider2, Divider6};
    SortSorted(packets + [Divider2, Divider6]);
    DividersInOrder(sorted);
  }

  lemma DecoderKeyIs(packets: seq<Packet>)
    ensures var positions := Positions(WithDividers(packets), Divider2, Divider6);
      |positions| > 0 && DecoderKey(packets) == Product(positions)
  {
    DividersOrdered();
    PositionsCount(WithDividers(packets), Divider2, Divider6);
  }

  /** `part2` fails exactly when a non-empty line does not parse. */
  lemma Part2Fails(input: seq<string>)
    ensures Part2(input).None? <==> exists line :: line in input && line != [] && RootPacket(line).None?
  {
    var lines := NonEmptyLines(input);
    if Part2(input).None? {
      var i :| 0 <= i < |lines| && RootPacket(lines[i]).None?;
      assert lines[i] in lines;
    }
  }

  /** A value occurring once is not found at two positions. */
  lemma OccursOnce<T>(s: seq<T>, i: nat, j: nat)
    requires i < j < |s| && multiset(s)[s[i]] == 1
    ensures s[i] != s[j]
  {
    assert s == s[..j] + s[j..];
    assert multiset(s) == multiset(s[..j]) + multiset(s[j..]);
    assert s[..j][i] == s[i] && s[j..][0] == s[j];
    assert s[i] in multiset(s[..j]) && s[j] in multiset(s[j..]);
  }

  /** In a sorted list no [[6]] comes before a [[2]]. */
  lemma DividersInOrder(sorted: seq<Packet>)
    requires Sorted(sorted)
    ensures forall a, b :: 0 <= a < b < |sorted| ==> !(sorted[a] == Divider6 && sorted[b] == Divider2)
  {
    forall a, b | 0 <= a < b < |sorted|
      ensures !(sorted[a] == Divider6 && sorted[b] == Divider2)
    {
      if sorted[a] == Divider6 && sorted[b] == Divider2 {
        DividersOrdered();
        CompareAntisymmetric(Divider2, Divider6);
      }
    }
  }

  /**
   * A list holding each of two distinct values once, `d6` never before `d2`, has them
   * at two positions, `d2` first.
   */
  lemma TwoDividers<T>(s: seq<T>, d2: T, d6: T) returns (i: nat, j: nat)
    requires d2 != d6 && multiset(s)[d2] == 1 && multiset(s)[d6] == 1
    requires forall a, b :: 0 <= a < b < |s| ==> !(s[a] == d6 && s[b] == d2)
    ensures i < j < |s| && s[i] == d2 && s[j] == d6
    ensures Positions(s, d2, d6) == [i + 1, j + 1]
  {
    var positions := Positions(s, d2, d6);
    assert |positions| == 2 by {
      PositionsCount(s, d2, d6);
    }
    assert 1 <= positions[0] < positions[1] <= |s|
      && (s[positions[0] - 1] == d2 || s[positions[0] - 1] == d6)
      && (s[positions[1] - 1] == d2 || s[positions[1] - 1] == d6) by {
      PositionsSound(s, d2, d6);
    }
    i, j := positions[0] - 1, positions[1] - 1;
    OccursOnce(s, i, j);
    assert positions == [i + 1, j + 1];
  }
}
