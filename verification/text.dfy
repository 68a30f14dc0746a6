/**
 * The Kotlin standard-library text functions the puzzle solvers parse their input with:
 * `split`, `toInt`/`toLong`/`toLongOrNull`, `Long.toString`, `removePrefix`,
 * `removeSuffix`, `startsWith`, `isBlank`, `isDigit` and `chunked`.
 * `isDigit` and `toInt` accept the ASCII digits only, where Kotlin also accepts the
 * other decimal digits of Unicode.
 */
module Text {
  import opened Utils

  predicate IsDigit(c: char)
  {
    '0' <= c <= '9'
  }

  predicate AllDigits(s: string)
  {
    forall i :: 0 <= i < |s| ==> IsDigit(s[i])
  }

  /**
   * Kotlin's `Char.isWhitespace()` on the JVM: `Character.isWhitespace` or
   * `Character.isSpaceChar`, that is the controls U+0009..U+000D and U+001C..U+001F
   * together with the space, line and paragraph separators of Unicode (U+0020, U+00A0,
   * U+1680, U+2000..U+200A, U+2028, U+2029, U+202F, U+205F, U+3000).
   */
  predicate IsWhitespace(c: char)
  {
    ('\U{0009}' <= c <= '\U{000D}') || ('\U{001C}' <= c <= '\U{0020}') || c == '\U{00A0}'
    || c == '\U{1680}' || ('\U{2000}' <= c <= '\U{200A}') || c == '\U{2028}' || c == '\U{2029}'
    || c == '\U{202F}' || c == '\U{205F}' || c == '\U{3000}'
  }

  /** `isBlank`: empty or whitespace only. */
  predicate IsBlank(s: string)
  {
    forall i :: 0 <= i < |s| ==> IsWhitespace(s[i])
  }

  predicate StartsWith(s: string, prefix: string)
  {
    prefix <= s
  }

  function RemovePrefix(s: string, prefix: string): (r: string)
    ensures StartsWith(s, prefix) ==> prefix + r == s
    ensures !StartsWith(s, prefix) ==> r == s
  {
    if prefix <= s then s[|prefix|..] else s
  }

  function RemoveSuffix(s: string, suffix: string): (r: string)
    ensures |suffix| <= |s| && s[|s| - |suffix|..] == suffix ==> r + suffix == s
    ensures !(|suffix| <= |s| && s[|s| - |suffix|..] == suffix) ==> r == s
  {
    if |suffix| <= |s| && s[|s| - |suffix|..] == suffix then s[..|s| - |suffix|] else s
  }

  // ---------------------------------------------------------------------------
  // split

  /** `sep` occurs in `t` at index `i`. */
  predicate OccursAt(t: string, sep: string, i: int)
  {
    0 <= i && i + |sep| <= |t| && t[i..i + |sep|] == sep
  }

  ghost predicate Contains(t: string, sep: string)
  {
    exists i :: OccursAt(t, sep, i)
  }

  /** The leftmost occurrence of `sep` in `t` at or after index `k`. */
  function FirstOccurrence(t: string, sep: string, k: nat): (r: Option<nat>)
    requires |sep| > 0
    ensures r.Some? ==> k <= r.value && OccursAt(t, sep, r.value)
    ensures r.Some? ==> forall j :: k <= j < r.value ==> !OccursAt(t, sep, j)
    ensures r.None? ==> forall j :: k <= j ==> !OccursAt(t, sep, j)
    decreases |t| - k
  {
    if k + |sep| > |t| then None
    else if t[k..k + |sep|] == sep then Some(k)
    else FirstOccurrence(t, sep, k + 1)
  }

  /** The inverse of `Split`: the parts glued back together with `sep`. */
  function Join(parts: seq<string>, sep: string): string
    requires |parts| > 0
  {
    if |parts| == 1 then parts[0] else parts[0] + sep + Join(parts[1..], sep)
  }

  /**
   * `split(sep)`: the pieces between the non-overlapping occurrences of `sep`,
   * scanning left to right, empty pieces included.
   */
  function Split(t: string, sep: string): (parts: seq<string>)
    requires |sep| > 0
    ensures |parts| > 0
    ensures Join(parts, sep) == t
    ensures forall i :: 0 <= i < |parts| ==> !Contains(parts[i], sep)
    decreases |t|
  {
    match FirstOccurrence(t, sep, 0)
    case None => [t]
    case Some(i) =>
      var head := t[..i];
      var rest := Split(t[i + |sep|..], sep);
      assert !Contains(head, sep) by {
        forall j | OccursAt(head, sep, j) ensures false {
          assert t[j..j + |sep|] == head[j..j + |sep|];
          assert OccursAt(t, sep, j);
        }
      }
      assert t == head + sep + t[i + |sep|..];
      [head] + rest
  }

  /** `split(' ')` and the other one-character separators. */
  function SplitOn(t: string, sep: char): (parts: seq<string>)
    ensures |parts| > 0 && Join(parts, [sep]) == t
  {
    Split(t, [sep])
  }

  /** With no separator in the text, `split` returns the text alone. */
  lemma SplitWithoutSeparator(t: string, sep: string)
    requires |sep| > 0 && !Contains(t, sep)
    ensures Split(t, sep) == [t]
  {
  }

  /** Splitting `a + sep + b` where `a` has no separator yields `a` first. */
  lemma SplitAfterFirst(a: string, sep: string, b: string)
    requires |sep| > 0 && !Contains(a, sep)
    requires forall j :: 0 <= j < |a| ==> !OccursAt(a + sep + b, sep, j)
    ensures Split(a + sep + b, sep) == [a] + Split(b, sep)
  {
    var t := a + sep + b;
    assert OccursAt(t, sep, |a|) by { assert t[|a|..|a| + |sep|] == sep; }
    var f := FirstOccurrence(t, sep, 0);
    assert f == Some(|a|);
    assert t[..|a|] == a;
    assert t[|a| + |sep|..] == b;
  }

  /** With a one-character separator that no part contains, `split` undoes `Join`. */
  lemma {:induction false} SplitJoin(parts: seq<string>, c: char)
    requires |parts| > 0
    requires forall i :: 0 <= i < |parts| ==> c !in parts[i]
    ensures SplitOn(Join(parts, [c]), c) == parts
  {
    var a := parts[0];
    assert !Contains(a, [c]) by {
      forall j ensures !OccursAt(a, [c], j) {
        if 0 <= j < |a| {
          assert a[j..j + 1] == [a[j]];
        }
      }
    }
    if |parts| == 1 {
      SplitWithoutSeparator(a, [c]);
    } else {
      var b := Join(parts[1..], [c]);
      var t := a + [c] + b;
      forall j | 0 <= j < |a| ensures !OccursAt(t, [c], j) {
        assert t[j..j + 1] == [a[j]];
      }
      SplitAfterFirst(a, [c], b);
      SplitJoin(parts[1..], c);
      assert parts == [a] + parts[1..];
    }
  }

  /** `split` on a line of two fields. */
  lemma SplitOnTwo(a: string, c: char, b: string)
    requires c !in a && c !in b
    ensures SplitOn(a + [c] + b, c) == [a, b]
  {
    assert Join([a, b], [c]) == a + [c] + b by {
      assert [a, b][1..] == [b];
    }
    SplitJoin([a, b], c);
  }

  // ---------------------------------------------------------------------------
  // numbers

  function DigitValue(c: char): int
  {
    c as int - '0' as int
  }

  /** The value of a run of decimal digits, most significant first. */
  function DigitsValue(s: string): (n: nat)
    requires AllDigits(s)
  {
    if s == [] then 0 else DigitsValue(s[..|s| - 1]) * 10 + DigitValue(s[|s| - 1])
  }

  /**
   * `toInt()`/`toLong()`/`toLongOrNull()`: an optional `+` or `-` sign followed by at
   * least one decimal digit; anything else is rejected (Kotlin throws or returns null).
   * Values are unbounded: the range check of Int and Long is not modelled.
   */
  function ParseInt(s: string): (r: Option<int>)
    ensures r.Some? ==> |s| > 0
    ensures r.Some? <==>
      (AllDigits(s) && |s| > 0) || (|s| > 1 && (s[0] == '-' || s[0] == '+') && AllDigits(s[1..]))
    ensures r.Some? && r.value < 0 ==> s[0] == '-'
  {
    if |s| == 0 then None
    else if s[0] == '-' || s[0] == '+' then
      if |s| == 1 || !AllDigits(s[1..]) then None
      else if s[0] == '-' then Some(-(DigitsValue(s[1..]) as int))
      else Some(DigitsValue(s[1..]))
    else if AllDigits(s) then Some(DigitsValue(s))
    else None
  }

  /** A blank line is never a number: `isBlank` and `toInt` never both succeed. */
  lemma BlankIsNotNumber(s: string)
    requires IsBlank(s)
    ensures ParseInt(s).None?
  {
    if |s| > 0 {
      assert IsWhitespace(s[0]);
      if |s| > 1 {
        assert IsWhitespace(s[1]);
      }
    }
  }

  /** `map { it.toInt() }` (or `toLong`): every piece must be a number. */
  function ParseInts(pieces: seq<string>): (r: Option<seq<int>>)
    ensures r.Some? <==> forall i :: 0 <= i < |pieces| ==> ParseInt(pieces[i]).Some?
    ensures r.Some? ==> |r.value| == |pieces|
    ensures r.Some? ==> forall i :: 0 <= i < |pieces| ==> ParseInt(pieces[i]) == Some(r.value[i])
  {
    MapAll(ParseInt, pieces)
  }

  function DigitChar(d: nat): char
    requires d < 10
  {
    ('0' as int + d) as char
  }

  /** Decimal rendering of a natural number, without leading zeros. */
  function NatToString(n: nat): (s: string)
    ensures |s| > 0 && AllDigits(s) && DigitsValue(s) == n
  {
    if n < 10 then [DigitChar(n)]
    else
      var t := NatToString(n / 10);
      var s := t + [DigitChar(n % 10)];
      assert s[..|s| - 1] == t;
      s
  }

  /** `Long.toString()` (also what `StringBuilder.append(Long)` appends). */
  function IntToString(n: int): (s: string)
    ensures |s| > 0 && (s[0] == '-' <==> n < 0)
    ensures n >= 0 ==> AllDigits(s)
    ensures n < 0 ==> AllDigits(s[1..])
  {
    if n < 0 then "-" + NatToString(-n) else NatToString(n)
  }

  /** A rendered number holds only a sign and digits, so any other character splits it off. */
  lemma NumberOmits(n: int, c: char)
    requires c != '-' && !IsDigit(c)
    ensures c !in IntToString(n)
  {
    if n < 0 {
      assert AllDigits(NatToString(-n));
      assert IntToString(n) == ['-'] + NatToString(-n);
    } else {
      assert AllDigits(NatToString(n));
    }
  }

  /** `toLong()` reads back what `toString()` writes. */
  lemma {:induction false} ParseIntToString(n: int)
    ensures ParseInt(IntToString(n)) == Some(n)
  {
    var s := IntToString(n);
    if n < 0 {
      assert s[1..] == NatToString(-n);
    } else {
      assert IsDigit(NatToString(n)[0]);
    }
  }

  // ---------------------------------------------------------------------------
  // chunked

  function Concat<T>(parts: seq<seq<T>>): seq<T>
  {
    if parts == [] then [] else parts[0] + Concat(parts[1..])
  }

  /** Appending a part appends its elements. */
  lemma {:induction false} ConcatAppend<T>(parts: seq<seq<T>>, last: seq<T>)
    ensures Concat(parts + [last]) == Concat(parts) + last
  {
    if parts == [] {
      assert [] + [last] == [last];
      assert Concat([last]) == last + Concat([]);
    } else {
      assert (parts + [last])[1..] == parts[1..] + [last];
      ConcatAppend(parts[1..], last);
    }
  }

  /** Concatenation distributes over appending lists of parts. */
  lemma {:induction false} ConcatSplit<T>(a: seq<seq<T>>, b: seq<seq<T>>)
    ensures Concat(a + b) == Concat(a) + Concat(b)
  {
    if a == [] {
      assert a + b == b;
    } else {
      assert (a + b)[1..] == a[1..] + b;
      ConcatSplit(a[1..], b);
    }
  }

  lemma {:induction false} ConcatMembership<T>(parts: seq<seq<T>>, x: T)
    ensures x in Concat(parts) <==> exists r :: 0 <= r < |parts| && x in parts[r]
  {
    if parts != [] {
      ConcatMembership(parts[1..], x);
      if x in Concat(parts[1..]) {
        var r :| 0 <= r < |parts[1..]| && x in parts[1..][r];
        assert x in parts[r + 1];
      }
      if exists r :: 0 <= r < |parts| && x in parts[r] {
        var r :| 0 <= r < |parts| && x in parts[r];
        if r > 0 {
          assert x in parts[1..][r - 1];
        }
      }
    }
  }

  /** Element `v` of the concatenation is element `c` of part `r`. */
  lemma {:induction false} Locate<T>(parts: seq<seq<T>>, v: nat) returns (r: nat, c: nat)
    requires v < |Concat(parts)|
    ensures r < |parts| && c < |parts[r]|
    ensures v == |Concat(parts[..r])| + c && Concat(parts)[v] == parts[r][c]
  {
    assert parts != [];
    if v < |parts[0]| {
      r, c := 0, v;
      assert parts[..0] == [];
    } else {
      var r', c' := Locate(parts[1..], v - |parts[0]|);
      r, c := r' + 1, c';
      assert parts[..r][1..] == parts[1..][..r'];
      assert parts[..r] != [] && parts[..r][0] == parts[0];
    }
  }

  /**
   * `chunked(size)`: consecutive windows of `size` elements, the last one possibly
   * shorter. Kotlin throws for a size of zero or less, hence the precondition.
   */
  function Chunked<T>(s: seq<T>, size: nat): (chunks: seq<seq<T>>)
    requires size > 0
    ensures Concat(chunks) == s
    ensures forall i :: 0 <= i < |chunks| ==> 0 < |chunks[i]| <= size
    ensures forall i :: 0 <= i < |chunks| - 1 ==> |chunks[i]| == size
    decreases |s|
  {
    if s == [] then []
    else if |s| <= size then [s]
    else
      var rest := Chunked(s[size..], size);
      assert s == s[..size] + s[size..];
      [s[..size]] + rest
  }
}
