/**
 * Day 5 (src/Day05.kt): a drawing of crate stacks above a line of stack labels, a
 * blank line, then moves "move N from A to B". Part 1 moves crates one at a time
 * (CrateMover 9000), part 2 moves each block at once (CrateMover 9001); the answer is
 * the top crate of every stack. A stack is a sequence whose last element is its top.
 */
module Day05 {
  import opened Utils
  import opened Text

  /** A move with 0-based stack indices. */
  datatype Operation = Operation(amount: int, from: int, to: int)

  type Stacks = seq<seq<char>>

  // ---------------------------------------------------------------------------
  // Parsing the drawing

  /** The crate rows, bottom row first: the drawing reversed, without its label line. */
  function CrateRows(stackLines: seq<string>): seq<string>
    requires |stackLines| > 0
  {
    Reverse(stackLines)[1..]
  }

  /** The number of stacks is read off the label line's length. */
  function StackCount(stackLines: seq<string>): nat
    requires |stackLines| > 0
  {
    (|stackLines[|stackLines| - 1]| + 1) / 4
  }

  /** A row's crates: the character at offset 1 of every 4-character chunk. */
  predicate ChunksOk(chunks: seq<string>, n: nat)
  {
    forall j :: 0 <= j < |chunks| ==> |chunks[j]| >= 2 && (chunks[j][1] != ' ' ==> j < n)
  }

  ghost predicate RowsOk(rows: seq<string>, n: nat)
  {
    forall i :: 0 <= i < |rows| ==> ChunksOk(Chunked(rows[i], 4), n)
  }

  /** What a row adds to stack `k`: its crate in chunk `k`, if there is one. */
  function RowPart(chunks: seq<string>, k: int): seq<char>
  {
    if 0 <= k < |chunks| && |chunks[k]| >= 2 && chunks[k][1] != ' ' then [chunks[k][1]] else []
  }

  /** Stack `k`: the crates of column `k`, bottom first. */
  function Column(rows: seq<string>, k: int): seq<char>
  {
    if rows == [] then []
    else Column(rows[..|rows| - 1], k) + RowPart(Chunked(rows[|rows| - 1], 4), k)
  }

  /** `parseStack` as a function of the drawing; a short chunk or a crate beyond the last label is an error. */
  ghost function StacksOf(stackLines: seq<string>): Option<Stacks>
  {
    if |stackLines| == 0 || !RowsOk(CrateRows(stackLines), StackCount(stackLines)) then None
    else Some(seq(StackCount(stackLines), k => Column(CrateRows(stackLines), k)))
  }

  /** Stacking a column adds each row's crate on top of the previous ones. */
  lemma ColumnTop(rows: seq<string>, k: int)
    requires |rows| > 0 && |RowPart(Chunked(rows[|rows| - 1], 4), k)| > 0
    ensures var c := Column(rows, k); |c| > 0 && c[|c| - 1] == Chunked(rows[|rows| - 1], 4)[k][1]
  {
  }

  /** One more row: it must be well formed, and it adds its crates to the columns. */
  lemma RowsNext(rows: seq<string>, i: nat, n: nat)
    requires i < |rows|
    ensures RowsOk(rows[..i + 1], n) <==> RowsOk(rows[..i], n) && ChunksOk(Chunked(rows[i], 4), n)
    ensures forall k :: Column(rows[..i + 1], k) == Column(rows[..i], k) + RowPart(Chunked(rows[i], 4), k)
  {
    assert rows[..i + 1][..i] == rows[..i];
    assert rows[..i + 1][i] == rows[i];
  }

  /** One row of `parseStack`: `chunked(4).withIndex()`, pushing each non-blank crate. */
  method PushRow(stacks: array<seq<char>>, chunks: seq<string>) returns (ok: bool)
    modifies stacks
    ensures ok <==> ChunksOk(chunks, stacks.Length)
    ensures ok ==> forall k :: 0 <= k < stacks.Length ==> stacks[k] == old(stacks[k]) + RowPart(chunks, k)
  {
    var n := stacks.Length;
    for j := 0 to |chunks|
      invariant ChunksOk(chunks[..j], n)
      invariant forall k :: 0 <= k < n ==> stacks[k] == old(stacks[k]) + RowPart(chunks[..j], k)
    {
      var chunk := chunks[j];
      if |chunk| < 2 {
        return false;
      }
      var crate := chunk[1];
      if crate != ' ' {
        if j >= n {
          return false;
        }
        stacks[j] := stacks[j] + [crate];
      }
      assert forall k :: 0 <= k < n ==>
        RowPart(chunks[..j + 1], k) == (if k == j then RowPart(chunks, j) else RowPart(chunks[..j], k));
    }
    assert chunks[..|chunks|] == chunks;
    ok := true;
  }

  /** `parseStack`: fills the stacks row by row, bottom row first. */
  method ParseStack(stackLines: seq<string>) returns (r: Option<array<seq<char>>>)
    ensures r.Some? <==> StacksOf(stackLines).Some?
    ensures r.Some? ==> fresh(r.value) && r.value[..] == StacksOf(stackLines).value
  {
    if |stackLines| == 0 {
      return None;
    }
    var n := StackCount(stackLines);
    var stacks := new seq<char>[n](_ => []);
    var rows := CrateRows(stackLines);
    for i := 0 to |rows|
      invariant RowsOk(rows[..i], n)
      invariant forall k :: 0 <= k < n ==> stacks[k] == Column(rows[..i], k)
    {
      RowsNext(rows, i, n);
      var ok := PushRow(stacks, Chunked(rows[i], 4));
      if !ok {
        assert !RowsOk(rows, n) by { assert !ChunksOk(Chunked(rows[i], 4), n); }
        return None;
      }
    }
    assert rows[..|rows|] == rows;
    assert stacks[..] == seq(n, k => Column(rows, k));
    r := Some(stacks);
  }

  // ---------------------------------------------------------------------------
  // Parsing the moves

  /** "move N from A to B": at least six space-separated words, the numbers 1-based. */
  function ParseOperation(line: string): (r: Option<Operation>)
    ensures r.Some? ==> var parts := SplitOn(line, ' ');
      |parts| >= 6 && ParseInt(parts[1]) == Some(r.value.amount) &&
      ParseInt(parts[3]) == Some(r.value.from + 1) && ParseInt(parts[5]) == Some(r.value.to + 1)
  {
    var parts := SplitOn(line, ' ');
    if |parts| < 6 then None
    else match (ParseInt(parts[1]), ParseInt(parts[3]), ParseInt(parts[5]))
      case (Some(amount), Some(from), Some(to)) => Some(Operation(amount, from - 1, to - 1))
      case _ => None
  }

  function ParseOperations(lines: seq<string>): (r: Option<seq<Operation>>)
    ensures r.Some? <==> forall i :: 0 <= i < |lines| ==> ParseOperation(lines[i]).Some?
    ensures r.Some? ==> |r.value| == |lines|
    ensures r.Some? ==> forall i :: 0 <= i < |lines| ==> ParseOperation(lines[i]) == Some(r.value[i])
  {
    MapAll(ParseOperation, lines)
  }

  /** `indexOfFirst { it.isEmpty() }`. */
  function FirstEmptyLine(input: seq<string>): (r: Option<nat>)
    ensures r.Some? ==> r.value < |input| && input[r.value] == []
    ensures r.Some? ==> forall i :: 0 <= i < r.value ==> input[i] != []
    ensures r.None? ==> forall i :: 0 <= i < |input| ==> input[i] != []
  {
    if input == [] then None
    else if input[0] == [] then Some(0)
    else match FirstEmptyLine(input[1..])
      case Some(i) => Some(i + 1)
      case None => None
  }

  /**
   * `parseInput`: the drawing is everything before the first empty line and the moves
   * everything after it. Without an empty line `take(-1)` throws.
   */
  function SplitInput(input: seq<string>): (r: Option<(seq<string>, seq<string>)>)
    ensures r.Some? ==> var (drawing, moves) := r.value;
      input == drawing + [""] + moves && forall i :: 0 <= i < |drawing| ==> drawing[i] != []
  {
    match FirstEmptyLine(input)
    case None => None
    case Some(at) =>
      assert input == input[..at] + [input[at]] + input[at + 1..];
      Some((input[..at], input[at + 1..]))
  }

  // ---------------------------------------------------------------------------
  // Moving crates

  ghost function TotalCrates(s: Stacks): nat
  {
    if s == [] then 0 else TotalCrates(s[..|s| - 1]) + |s[|s| - 1]|
  }

  lemma {:induction false} TotalCratesUpdate(s: Stacks, i: nat, x: seq<char>)
    requires i < |s|
    ensures TotalCrates(s[i := x]) == TotalCrates(s) - |s[i]| + |x|
  {
    var n := |s| - 1;
    if i < n {
      TotalCratesUpdate(s[..n], i, x);
      assert s[i := x][..n] == s[..n][i := x];
    } else {
      assert s[i := x][..n] == s[..n];
    }
  }

  predicate ValidIndices(s: Stacks, op: Operation)
  {
    0 <= op.from < |s| && 0 <= op.to < |s|
  }

  /** One `to.addLast(from.removeLast())`. */
  function MoveTop(s: Stacks, from: nat, to: nat): (r: Stacks)
    requires from < |s| && to < |s| && |s[from]| > 0
    ensures |r| == |s|
  {
    var f := s[from];
    var t := s[from := f[..|f| - 1]];
    t[to := t[to] + [f[|f| - 1]]]
  }

  /** `repeat(n) { to.addLast(from.removeLast()) }`; popping an empty stack is an error. */
  function RepeatMoveTop(s: Stacks, from: nat, to: nat, n: nat): (r: Option<Stacks>)
    requires from < |s| && to < |s|
    ensures r.Some? ==> |r.value| == |s|
  {
    if n == 0 then Some(s)
    else match RepeatMoveTop(s, from, to, n - 1)
      case None => None
      case Some(t) => if |t[from]| == 0 then None else Some(MoveTop(t, from, to))
  }

  function Repetitions(amount: int): nat
  {
    if amount < 0 then 0 else amount
  }

  /** Part 1's move: the source loses its top `amount` crates and the target gains them in reverse order. */
  lemma {:induction false} MoveOneByOneClosedForm(s: Stacks, from: nat, to: nat, n: nat)
    requires from < |s| && to < |s| && from != to
    ensures var f := s[from];
      RepeatMoveTop(s, from, to, n) ==
        if |f| < n then None
        else Some(s[from := f[..|f| - n]][to := s[to] + Reverse(f[|f| - n..])])
  {
    var f := s[from];
    if n > 0 {
      MoveOneByOneClosedForm(s, from, to, n - 1);
      if |f| >= n - 1 {
        var t := s[from := f[..|f| - (n - 1)]][to := s[to] + Reverse(f[|f| - (n - 1)..])];
        assert RepeatMoveTop(s, from, to, n - 1) == Some(t);
        assert t[from] == f[..|f| - (n - 1)];
        if |f| >= n {
          assert t[from][..|t[from]| - 1] == f[..|f| - n];
          assert t[from][|t[from]| - 1] == f[|f| - n];
          assert f[|f| - n..][1..] == f[|f| - (n - 1)..];
          assert Reverse(f[|f| - n..]) == Reverse(f[|f| - (n - 1)..]) + [f[|f| - n]];
          var u := MoveTop(t, from, to);
          var v := s[from := f[..|f| - n]][to := s[to] + Reverse(f[|f| - n..])];
          assert |u| == |v|;
          forall k | 0 <= k < |u| ensures u[k] == v[k] {
          }
          assert u == v;
          assert RepeatMoveTop(s, from, to, n) == Some(u);
        } else {
          assert |t[from]| == 0;
          assert RepeatMoveTop(s, from, to, n) == None;
        }
      } else {
        assert RepeatMoveTop(s, from, to, n - 1) == None;
        assert RepeatMoveTop(s, from, to, n) == None;
      }
    } else {
      assert f[..|f|] == f && f[|f|..] == [];
      assert s[to] + Reverse(f[|f|..]) == s[to];
      assert s[from := f[..|f|]][to := s[to] + Reverse(f[|f|..])] == s;
    }
  }

  /** Moving within one stack puts every crate back where it was, as long as the stack is not empty. */
  lemma {:induction false} MoveOneByOneSameStack(s: Stacks, from: nat, n: nat)
    requires from < |s|
    ensures RepeatMoveTop(s, from, from, n) == if n > 0 && |s[from]| == 0 then None else Some(s)
  {
    if n > 0 {
      MoveOneByOneSameStack(s, from, n - 1);
      if |s[from]| > 0 {
        var f := s[from];
        assert f[..|f| - 1] + [f[|f| - 1]] == f;
        assert MoveTop(s, from, from) == s;
      }
    }
  }

  /** Part 1 (CrateMover 9000): indices are looked up before any crate moves. */
  function Move9000(s: Stacks, op: Operation): Option<Stacks>
  {
    if !ValidIndices(s, op) then None
    else RepeatMoveTop(s, op.from, op.to, Repetitions(op.amount))
  }

  /** Part 2 (CrateMover 9001): the top `amount` crates move as one block, keeping their order. */
  function Move9001(s: Stacks, op: Operation): (r: Option<Stacks>)
    ensures r.Some? ==> |r.value| == |s|
  {
    if !ValidIndices(s, op) then None
    else
      var n := Repetitions(op.amount);
      var f := s[op.from];
      if |f| < n then None
      else
        var t := s[op.from := f[..|f| - n]];
        Some(t[op.to := t[op.to] + f[|f| - n..]])
  }

  /** The block move spelled out: it fails exactly when the source is too short. */
  lemma Move9001Block(s: Stacks, op: Operation)
    requires ValidIndices(s, op)
    ensures var n, f := Repetitions(op.amount), s[op.from];
      Move9001(s, op) == if |f| < n then None
        else Some(s[op.from := f[..|f| - n]][op.to := s[op.from := f[..|f| - n]][op.to] + f[|f| - n..]])
  {
  }

  /** Both cranes keep the number of crates. */
  lemma MovesPreserveCrates(s: Stacks, op: Operation)
    ensures Move9001(s, op).Some? ==> TotalCrates(Move9001(s, op).value) == TotalCrates(s)
    ensures Move9000(s, op).Some? ==> TotalCrates(Move9000(s, op).value) == TotalCrates(s)
  {
    if ValidIndices(s, op) {
      var n := Repetitions(op.amount);
      var f := s[op.from];
      if |f| >= n {
        var block := f[|f| - n..];
        var t := s[op.from := f[..|f| - n]];
        TotalCratesUpdate(s, op.from, f[..|f| - n]);
        assert TotalCrates(t) == TotalCrates(s) - n;
        TotalCratesUpdate(t, op.to, t[op.to] + block);
        assert Move9001(s, op).value == t[op.to := t[op.to] + block];
        TotalCratesUpdate(t, op.to, t[op.to] + Reverse(block));
      }
      if op.from != op.to {
        MoveOneByOneClosedForm(s, op.from, op.to, n);
      } else {
        MoveOneByOneSameStack(s, op.from, n);
      }
    }
  }

  /** Between two stacks both cranes move the same crates, in opposite orders, and fail alike. */
  lemma CranesAgree(s: Stacks, op: Operation)
    requires ValidIndices(s, op) && op.from != op.to
    ensures Move9000(s, op).Some? <==> Move9001(s, op).Some?
    ensures Move9001(s, op).Some? ==>
      var a := Move9000(s, op).value; var b := Move9001(s, op).value;
      a[op.from] == b[op.from] &&
      a[op.to] == s[op.to] + Reverse(b[op.to][|s[op.to]|..]) &&
      forall k :: 0 <= k < |s| && k != op.from && k != op.to ==> a[k] == b[k] == s[k]
  {
    var n := Repetitions(op.amount);
    var f := s[op.from];
    MoveOneByOneClosedForm(s, op.from, op.to, n);
    if |f| >= n {
      assert (s[op.to] + f[|f| - n..])[|s[op.to]|..] == f[|f| - n..];
    }
  }

  /** The move of the crane in use. */
  function CraneMove(s: Stacks, op: Operation, crane: nat): Option<Stacks>
  {
    if crane == 9000 then Move9000(s, op) else Move9001(s, op)
  }

  /** The crane applied to every move in order; the first failing move fails all. */
  function Rearrange(s: Stacks, ops: seq<Operation>, crane: nat): (r: Option<Stacks>)
    ensures r.Some? ==> |r.value| == |s|
  {
    if ops == [] then Some(s)
    else match Rearrange(s, ops[..|ops| - 1], crane)
      case None => None
      case Some(t) =>
        var next := CraneMove(t, ops[|ops| - 1], crane);
        if next.Some? && |next.value| == |s| then next else None
  }

  /** A whole rearrangement, with either crane, neither creates nor destroys crates. */
  lemma {:induction false} RearrangeKeepsCrates(s: Stacks, ops: seq<Operation>, crane: nat)
    ensures Rearrange(s, ops, crane).Some? ==> TotalCrates(Rearrange(s, ops, crane).value) == TotalCrates(s)
    decreases |ops|
  {
    if ops != [] && Rearrange(s, ops, crane).Some? {
      var t := Rearrange(s, ops[..|ops| - 1], crane).value;
      RearrangeKeepsCrates(s, ops[..|ops| - 1], crane);
      MovesPreserveCrates(t, ops[|ops| - 1]);
    }
  }

  /** `stacks.map { it.last() }.joinToString("")`: an empty stack is an error. */
  function TopCrates(s: Stacks): (r: Option<string>)
    ensures r.Some? <==> forall i :: 0 <= i < |s| ==> |s[i]| > 0
    ensures r.Some? ==> |r.value| == |s|
    ensures r.Some? ==> forall i :: 0 <= i < |s| ==> r.value[i] == s[i][|s[i]| - 1]
  {
    if s == [] then Some([])
    else match TopCrates(s[..|s| - 1])
      case None => None
      case Some(t) =>
        var last := s[|s| - 1];
        if |last| == 0 then None else Some(t + [last[|last| - 1]])
  }

  ghost function Solve(input: seq<string>, crane: nat): (r: Option<string>)
    ensures r.Some? ==> SplitInput(input).Some? && ParseOperations(SplitInput(input).value.1).Some?
    ensures r.Some? ==> var s := StacksOf(SplitInput(input).value.0);
      s.Some? && |r.value| == |s.value|
  {
    match SplitInput(input)
    case None => None
    case Some((drawing, moves)) =>
      match (StacksOf(drawing), ParseOperations(moves))
      case (Some(s), Some(ops)) =>
        (match Rearrange(s, ops, crane)
         case Some(t) => TopCrates(t)
         case None => None)
      case _ => None
  }

  /** `part1`/`part2`: parse, run every move on the array of stacks in place, read the tops. */
  method Run(input: seq<string>, crane: nat) returns (r: Option<string>)
    requires crane == 9000 || crane == 9001
    ensures r == Solve(input, crane)
  {
    var split := SplitInput(input);
    if split.None? {
      return None;
    }
    var (drawing, moves) := split.value;
    var parsed := ParseStack(drawing);
    var ops := ParseOperations(moves);
    if parsed.None? || ops.None? {
      return None;
    }
    var stacks := parsed.value;
    ghost var s0 := stacks[..];
    for i := 0 to |ops.value|
      invariant Rearrange(s0, ops.value[..i], crane) == Some(stacks[..])
    {
      var op := ops.value[i];
      RearrangeNext(s0, ops.value, i, crane);
      ghost var next := CraneMove(stacks[..], op, crane);
      var ok;
      if crane == 9000 {
        ok := ApplyMove9000(stacks, op);
      } else {
        ok := ApplyMove9001(stacks, op);
      }
      if !ok {
        RearrangeFailed(s0, ops.value, i, crane);
        return None;
      }
      assert next == Some(stacks[..]);
    }
    assert ops.value[..|ops.value|] == ops.value;
    r := TopCrates(stacks[..]);
  }

  /** The rearrangement of one more move is that move on the rearranged stacks. */
  lemma RearrangeNext(s: Stacks, ops: seq<Operation>, i: nat, crane: nat)
    requires i < |ops| && Rearrange(s, ops[..i], crane).Some?
    ensures var next := CraneMove(Rearrange(s, ops[..i], crane).value, ops[i], crane);
      Rearrange(s, ops[..i + 1], crane) == if next.Some? && |next.value| == |s| then next else None
  {
    assert ops[..i + 1][..i] == ops[..i];
    assert ops[..i + 1][i] == ops[i];
  }

  /** Once a move fails, the whole rearrangement fails. */
  lemma {:induction false} RearrangeFailed(s: Stacks, ops: seq<Operation>, i: nat, crane: nat)
    requires i < |ops| && Rearrange(s, ops[..i], crane).Some?
    requires CraneMove(Rearrange(s, ops[..i], crane).value, ops[i], crane).None?
    ensures Rearrange(s, ops, crane).None?
    decreases |ops|
  {
    if i + 1 == |ops| {
      assert ops[..|ops| - 1] == ops[..i];
    } else {
      assert ops[..|ops| - 1][..i] == ops[..i];
      assert ops[..|ops| - 1][i] == ops[i];
      RearrangeFailed(s, ops[..|ops| - 1], i, crane);
    }
  }

  /** One move of part 1: `repeat(amount) { to.addLast(from.removeLast()) }` on the array. */
  method ApplyMove9000(stacks: array<seq<char>>, op: Operation) returns (ok: bool)
    modifies stacks
    ensures ok <==> Move9000(old(stacks[..]), op).Some?
    ensures ok ==> stacks[..] == Move9000(old(stacks[..]), op).value
  {
    if !(0 <= op.from < stacks.Length && 0 <= op.to < stacks.Length) {
      return false;
    }
    ghost var s0 := stacks[..];
    var n := Repetitions(op.amount);
    for i := 0 to n
      invariant stacks.Length == |s0|
      invariant RepeatMoveTop(s0, op.from, op.to, i) == Some(stacks[..])
    {
      if |stacks[op.from]| == 0 {
        RepeatFailed(s0, op.from, op.to, i, n);
        return false;
      }
      var f := stacks[op.from];
      var crate := f[|f| - 1];
      stacks[op.from] := f[..|f| - 1];
      stacks[op.to] := stacks[op.to] + [crate];
    }
    ok := true;
  }

  lemma {:induction false} RepeatFailed(s: Stacks, from: nat, to: nat, i: nat, n: nat)
    requires from < |s| && to < |s| && i < n
    requires RepeatMoveTop(s, from, to, i).Some? && |RepeatMoveTop(s, from, to, i).value[from]| == 0
    ensures RepeatMoveTop(s, from, to, n).None?
    decreases n
  {
    if n > i + 1 {
      RepeatFailed(s, from, to, i, n - 1);
    }
  }

  /** Part 2's first loop: `repeat(amount) { removed += from.removeLast() }`. */
  method PopBlock(stacks: array<seq<char>>, from: nat, n: nat) returns (ok: bool, removed: seq<char>)
    requires from < stacks.Length
    modifies stacks
    ensures ok <==> n <= |old(stacks[from])|
    ensures ok ==> var f := old(stacks[from]);
      removed == Reverse(f[|f| - n..]) && stacks[..] == old(stacks[..])[from := f[..|f| - n]]
    ensures ok ==> var f := old(stacks[from]); Reverse(removed) == f[|f| - n..]
  {
    ghost var f := stacks[from];
    removed := [];
    for i := 0 to n
      invariant i <= |f|
      invariant stacks[from] == f[..|f| - i]
      invariant forall k :: 0 <= k < stacks.Length && k != from ==> stacks[k] == old(stacks[k])
      invariant removed == Reverse(f[|f| - i..])
    {
      if |stacks[from]| == 0 {
        return false, removed;
      }
      var top := stacks[from][|stacks[from]| - 1];
      stacks[from] := stacks[from][..|stacks[from]| - 1];
      assert f[..|f| - i][..|f| - i - 1] == f[..|f| - (i + 1)];
      assert f[|f| - (i + 1)..] == [top] + f[|f| - i..];
      removed := removed + [top];
    }
    ReverseReverse(f[|f| - n..]);
    ok := true;
  }

  /** Part 2's second loop: `removed.reversed().forEach { to.addLast(it) }`. */
  method PushAll(stacks: array<seq<char>>, to: nat, block: seq<char>)
    requires to < stacks.Length
    modifies stacks
    ensures stacks[..] == old(stacks[..])[to := old(stacks[to]) + block]
  {
    for j := 0 to |block|
      invariant stacks[to] == old(stacks[to]) + block[..j]
      invariant forall k :: 0 <= k < stacks.Length && k != to ==> stacks[k] == old(stacks[k])
    {
      stacks[to] := stacks[to] + [block[j]];
      assert block[..j + 1] == block[..j] + [block[j]];
    }
    assert block[..|block|] == block;
  }

  /** One move of part 2: pop `amount` crates into a list, then push that list reversed. */
  method ApplyMove9001(stacks: array<seq<char>>, op: Operation) returns (ok: bool)
    modifies stacks
    ensures ok <==> Move9001(old(stacks[..]), op).Some?
    ensures ok ==> stacks[..] == Move9001(old(stacks[..]), op).value
  {
    if !(0 <= op.from < stacks.Length && 0 <= op.to < stacks.Length) {
      return false;
    }
    ghost var s := stacks[..];
    ghost var f := stacks[op.from];
    var n := Repetitions(op.amount);
    Move9001Block(s, op);
    var removed;
    ok, removed := PopBlock(stacks, op.from, n);
    if !ok {
      return;
    }
    ghost var t := stacks[..];
    var block := Reverse(removed);
    assert stacks[op.to] == t[op.to];
    PushAll(stacks, op.to, block);
  }

  /** `part1`. */
  method Part1(input: seq<string>) returns (r: Option<string>)
    ensures r == Solve(input, 9000)
  {
    r := Run(input, 9000);
  }

  /** `part2`. */
  method Part2(input: seq<string>) returns (r: Option<string>)
    ensures r == Solve(input, 9001)
  {
    r := Run(input, 9001);
  }
}
