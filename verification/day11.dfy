/**
 * Day 11 (src/Day11.kt): monkeys pass items around. On its turn a monkey inspects
 * each of its items in order: the worry level is updated by the monkey's operation,
 * reduced modulo the product of all test divisors (and, in part 1, divided by 3),
 * and the item is thrown to one of two monkeys depending on divisibility. The answer
 * ("monkey business") is the product of the two largest inspection counts.
 */
module Day11 {
  import opened Utils
  import opened Text

  /** `operation`: the operator and the right operand of "new = old <op> <argument>". */
  datatype Operation = Operation(op: string, argument: string)

  /** The fixed part of a monkey: how it changes worry and whom it throws to. */
  datatype Monkey = Monkey(operation: Operation, testDivisibleBy: int, trueTarget: int, falseTarget: int)

  // ---------------------------------------------------------------------------
  // Inspecting one item

  /** `parseToLong`: "old" is the current worry level, anything else must be a number. */
  function Operand(argument: string, level: int): Option<int>
  {
    if argument == "old" then Some(level) else ParseInt(argument)
  }

  /** The new worry level before any reduction: `level + arg` or `level * arg`; other operators fail. */
  function NewWorry(operation: Operation, level: int): (r: Option<int>)
    ensures r.Some? <==> (operation.op == "+" || operation.op == "*") && Operand(operation.argument, level).Some?
    ensures r.Some? && operation.op == "+" ==> r.value - level == Operand(operation.argument, level).value
    ensures r.Some? && operation.op == "*" ==> r.value == level * Operand(operation.argument, level).value
  {
    if operation.op == "+" then
      match Operand(operation.argument, level)
      case Some(v) => Some(level + v)
      case None => None
    else if operation.op == "*" then
      match Operand(operation.argument, level)
      case Some(v) => Some(level * v)
      case None => None
    else None
  }

  /** The monkey to throw to: `trueTarget` exactly when the worry level is divisible by the test. */
  function Route(monkey: Monkey, worry: int): (target: int)
    requires monkey.testDivisibleBy != 0
  {
    if TRem(worry, monkey.testDivisibleBy) == 0 then monkey.trueTarget else monkey.falseTarget
  }

  /** The reduced worry level of an inspected item and the monkey it goes to. */
  datatype Throw = Throw(worry: int, target: int)

  /**
   * One inspection: the new worry level, `%= limitTo`, then `/= reduceBy` when given, then
   * the routing test. Kotlin's `%` and `/` truncate and throw on a zero divisor.
   */
  function Inspect(monkey: Monkey, level: int, limitTo: int, reduceBy: Option<int>): (r: Option<Throw>)
    ensures r.Some? <==> (NewWorry(monkey.operation, level).Some? && limitTo != 0 &&
      (reduceBy.Some? ==> reduceBy.value != 0) && monkey.testDivisibleBy != 0)
    ensures r.Some? ==> r.value.target == Route(monkey, r.value.worry)
    ensures r.Some? && reduceBy.None? ==> r.value.worry == TRem(NewWorry(monkey.operation, level).value, limitTo)
    ensures r.Some? && reduceBy.Some? ==>
      r.value.worry == TDiv(TRem(NewWorry(monkey.operation, level).value, limitTo), reduceBy.value)
  {
    match NewWorry(monkey.operation, level)
    case None => None
    case Some(worry) =>
      if limitTo == 0 then None
      else
        var limited := TRem(worry, limitTo);
        if reduceBy.Some? && reduceBy.value == 0 then None
        else
          var reduced := if reduceBy.Some? then TDiv(limited, reduceBy.value) else limited;
          if monkey.testDivisibleBy == 0 then None
          else Some(Throw(reduced, Route(monkey, reduced)))
  }

  // ---------------------------------------------------------------------------
  // Why reducing modulo the product of the divisors is harmless

  /** A non-zero multiple of `d` is at least `d` in size. */
  lemma {:induction false} MultipleAtLeast(d: nat, k: nat)
    requires k >= 1
    ensures d * k >= d
  {
    if k > 1 {
      MultipleAtLeast(d, k - 1);
      assert d * k == d * (k - 1) + d;
    }
  }

  /** Two ways of writing a number as a multiple of `d` plus a remainder in `0..|d| - 1` agree. */
  lemma RemainderUnique(d: int, q1: int, r1: int, q2: int, r2: int)
    requires d != 0 && 0 <= r1 < Abs(d) && 0 <= r2 < Abs(d)
    requires d * q1 + r1 == d * q2 + r2
    ensures r1 == r2
  {
    if q1 != q2 {
      var k := q1 - q2;
      assert d * q1 - d * q2 == d * k;
      assert Abs(d) * Abs(k) == Abs(d * k);
      MultipleAtLeast(Abs(d), Abs(k));
    }
  }

  /**
   * Subtracting a multiple of `d` without crossing zero leaves Kotlin's remainder by `d`
   * unchanged (the truncating remainder takes the sign of the dividend, so the sign
   * condition is needed).
   */
  lemma TRemShift(x: int, m: int, d: int)
    requires d != 0
    requires (x >= 0 && x - d * m >= 0) || (x < 0 && x - d * m <= 0)
    ensures TRem(x - d * m, d) == TRem(x, d)
  {
    var qy, ry := RemainderFacts(x - d * m, d);
    var qx, rx := RemainderFacts(x, d);
    ShiftedRemainder(x, m, d, qy, ry, qx, rx);
  }

  /** Kotlin's quotient and remainder, named, with what the shift argument needs of them. */
  lemma RemainderFacts(a: int, b: int) returns (q: int, r: int)
    requires b != 0
    ensures q == TDiv(a, b) && r == TRem(a, b)
    ensures a == b * q + r && Abs(r) < Abs(b) && (a >= 0 ==> r >= 0) && (a < 0 ==> r <= 0)
  {
    q := TDiv(a, b);
    r := TRem(a, b);
  }

  /** `TRemShift` on plain numbers: quotients and remainders of `x - d * m` and of `x`. */
  lemma ShiftedRemainder(x: int, m: int, d: int, qy: int, ry: int, qx: int, rx: int)
    requires d != 0
    requires x - d * m == d * qy + ry && x == d * qx + rx
    requires Abs(ry) < Abs(d) && Abs(rx) < Abs(d)
    requires x >= 0 ==> x - d * m >= 0 && ry >= 0 && rx >= 0
    requires x < 0 ==> x - d * m <= 0 && ry <= 0 && rx <= 0
    ensures ry == rx
  {
    assert d * qy + d * m == d * (qy + m);
    if x >= 0 {
      RemainderUnique(d, qy + m, ry, qx, rx);
    } else {
      assert d * (-(qy + m)) == -(d * (qy + m)) && d * (-qx) == -(d * qx);
      RemainderUnique(d, -(qy + m), -ry, -qx, -rx);
    }
  }

  /** `(x % L) % d == x % d` whenever `d` divides `L`. */
  lemma LimitKeepsRemainder(x: int, limit: int, d: int, q: int)
    requires d != 0 && limit != 0 && limit == q * d
    ensures TRem(TRem(x, limit), d) == TRem(x, d)
  {
    var k := TDiv(x, limit);
    assert TRem(x, limit) == x - d * (q * k);
    TRemShift(x, q * k, d);
  }

  /** The test divisors of all monkeys. */
  function Divisors(monkeys: seq<Monkey>): (ds: seq<int>)
    ensures |ds| == |monkeys| && forall i :: 0 <= i < |monkeys| ==> ds[i] == monkeys[i].testDivisibleBy
  {
    seq(|monkeys|, i requires 0 <= i < |monkeys| => monkeys[i].testDivisibleBy)
  }

  /** `calculateLimit`: the product of all test divisors (`product` throws on no monkeys). */
  function Limit(monkeys: seq<Monkey>): int
    requires |monkeys| > 0
  {
    Product(Divisors(monkeys))
  }

  /** Every factor divides a product. */
  lemma {:induction false} ProductMultiple(s: seq<int>, k: nat)
    requires k < |s|
    ensures exists q :: Product(s) == q * s[k]
  {
    if |s| == 1 {
      assert Product(s) == 1 * s[k];
    } else {
      var init := s[..|s| - 1];
      if k < |s| - 1 {
        ProductMultiple(init, k);
        var q :| Product(init) == q * init[k];
        assert Product(s) == (q * s[|s| - 1]) * s[k];
      } else {
        assert Product(s) == Product(init) * s[k];
      }
    }
  }

  /**
   * With no `reduceBy` (part 2), every monkey throws an item where it would throw it
   * without the reduction modulo the limit: the routing is unaffected.
   */
  lemma LimitKeepsRouting(monkeys: seq<Monkey>, k: nat, level: int)
    requires k < |monkeys| && Limit(monkeys) != 0
    requires NewWorry(monkeys[k].operation, level).Some?
    ensures monkeys[k].testDivisibleBy != 0
    ensures Inspect(monkeys[k], level, Limit(monkeys), None).Some?
    ensures Inspect(monkeys[k], level, Limit(monkeys), None).value.target ==
      Route(monkeys[k], NewWorry(monkeys[k].operation, level).value)
  {
    ProductMultiple(Divisors(monkeys), k);
    var q :| Limit(monkeys) == q * monkeys[k].testDivisibleBy;
    LimitKeepsRemainder(NewWorry(monkeys[k].operation, level).value, Limit(monkeys), monkeys[k].testDivisibleBy, q);
  }

  // ---------------------------------------------------------------------------
  // Turns and rounds, as values

  /** The mutable part of the monkeys: each one's queue and inspection count. */
  datatype Troop = Troop(items: seq<seq<int>>, inspected: seq<int>)

  predicate Fits(t: Troop, monkeys: seq<Monkey>)
  {
    |t.items| == |monkeys| && |t.inspected| == |monkeys|
  }

  /** Monkey `m` never throws to itself: then its turn throws each of its items once. */
  predicate ThrowsAway(monkeys: seq<Monkey>, m: nat)
    requires m < |monkeys|
  {
    monkeys[m].trueTarget != m && monkeys[m].falseTarget != m
  }

  /** The number of items held by all monkeys together. */
  function TotalItems(items: seq<seq<int>>): nat
  {
    if items == [] then 0 else TotalItems(items[..|items| - 1]) + |items[|items| - 1]|
  }

  /** Replacing one queue changes the total by the difference in length. */
  lemma {:induction false} TotalItemsUpdate(items: seq<seq<int>>, i: nat, q: seq<int>)
    requires i < |items|
    ensures TotalItems(items[i := q]) + |items[i]| == TotalItems(items) + |q|
  {
    var n := |items| - 1;
    if i < n {
      assert items[i := q][..n] == items[..n][i := q];
      TotalItemsUpdate(items[..n], i, q);
    } else {
      assert items[i := q][..n] == items[..n];
    }
  }

  /**
   * One iteration of `takeTurn`'s loop: the first item of monkey `m` is removed, counted,
   * inspected and appended to its target's queue (which may be `m`'s own); a target
   * outside the list fails.
   */
  function ThrowFirst(monkeys: seq<Monkey>, t: Troop, m: nat, limitTo: int, reduceBy: Option<int>): (r: Option<Troop>)
    requires Fits(t, monkeys) && m < |monkeys| && t.items[m] != []
    ensures r.Some? <==> (Inspect(monkeys[m], t.items[m][0], limitTo, reduceBy).Some? &&
      0 <= Inspect(monkeys[m], t.items[m][0], limitTo, reduceBy).value.target < |monkeys|)
    ensures r.Some? ==> Fits(r.value, monkeys)
    ensures r.Some? ==> var thrown := Inspect(monkeys[m], t.items[m][0], limitTo, reduceBy).value;
      r.value.items[m] == if thrown.target == m then t.items[m][1..] + [thrown.worry] else t.items[m][1..]
    ensures r.Some? ==> r.value.inspected[m] == t.inspected[m] + 1
    ensures r.Some? ==> forall i :: 0 <= i < |monkeys| && i != m ==> r.value.inspected[i] == t.inspected[i]
  {
    var item := t.items[m][0];
    var items := t.items[m := t.items[m][1..]];
    var inspected := t.inspected[m := t.inspected[m] + 1];
    match Inspect(monkeys[m], item, limitTo, reduceBy)
    case None => None
    case Some(thrown) =>
      if 0 <= thrown.target < |monkeys| then
        Some(Troop(items[thrown.target := items[thrown.target] + [thrown.worry]], inspected))
      else None
  }

  /**
   * The thrown item lands at the back of its target's queue, the other queues are
   * untouched, and the number of items is unchanged.
   */
  lemma ThrowFirstMovesOneItem(monkeys: seq<Monkey>, t: Troop, m: nat, limitTo: int, reduceBy: Option<int>)
    requires Fits(t, monkeys) && m < |monkeys| && t.items[m] != []
    requires ThrowFirst(monkeys, t, m, limitTo, reduceBy).Some?
    ensures var thrown := Inspect(monkeys[m], t.items[m][0], limitTo, reduceBy).value;
      var r := ThrowFirst(monkeys, t, m, limitTo, reduceBy).value;
      (thrown.target != m ==> r.items[thrown.target] == t.items[thrown.target] + [thrown.worry]) &&
      (forall i :: 0 <= i < |monkeys| && i != m && i != thrown.target ==> r.items[i] == t.items[i])
    ensures TotalItems(ThrowFirst(monkeys, t, m, limitTo, reduceBy).value.items) == TotalItems(t.items)
  {
    var thrown := Inspect(monkeys[m], t.items[m][0], limitTo, reduceBy).value;
    var items := t.items[m := t.items[m][1..]];
    TotalItemsUpdate(t.items, m, t.items[m][1..]);
    TotalItemsUpdate(items, thrown.target, items[thrown.target] + [thrown.worry]);
  }

  /**
   * `Monkey.takeTurn`: throw items until the monkey's queue is empty. A monkey that
   * throws to itself may never empty its queue, so the turn is cut after `fuel` throws,
   * and then fails like a failed inspection (`Exhausts` tells the two apart).
   */
  function Turn(monkeys: seq<Monkey>, t: Troop, m: nat, fuel: nat, limitTo: int, reduceBy: Option<int>): (r: Option<Troop>)
    requires Fits(t, monkeys) && m < |monkeys|
    ensures r.Some? ==> Fits(r.value, monkeys)
    decreases fuel
  {
    if t.items[m] == [] then Some(t)
    else if fuel == 0 then None
    else
      match ThrowFirst(monkeys, t, m, limitTo, reduceBy)
      case None => None
      case Some(next) => Turn(monkeys, next, m, fuel - 1, limitTo, reduceBy)
  }

  /** The turn is still throwing, with no failed inspection, when its `fuel` runs out. */
  ghost predicate Exhausts(monkeys: seq<Monkey>, t: Troop, m: nat, fuel: nat, limitTo: int, reduceBy: Option<int>)
    requires Fits(t, monkeys) && m < |monkeys|
    decreases fuel
  {
    t.items[m] != [] &&
    (fuel == 0 ||
     (ThrowFirst(monkeys, t, m, limitTo, reduceBy).Some? &&
      Exhausts(monkeys, ThrowFirst(monkeys, t, m, limitTo, reduceBy).value, m, fuel - 1, limitTo, reduceBy)))
  }

  /**
   * The fuel bound is invisible whenever it is not reached: a turn that does not run
   * out of `fuel` gives the same result with any larger allowance, and one that runs
   * out fails.
   */
  lemma {:induction false} TurnFuel(monkeys: seq<Monkey>, t: Troop, m: nat, fuel: nat, more: nat, limitTo: int, reduceBy: Option<int>)
    requires Fits(t, monkeys) && m < |monkeys| && fuel <= more
    ensures Exhausts(monkeys, t, m, fuel, limitTo, reduceBy) ==> Turn(monkeys, t, m, fuel, limitTo, reduceBy).None?
    ensures !Exhausts(monkeys, t, m, fuel, limitTo, reduceBy) ==>
      Turn(monkeys, t, m, more, limitTo, reduceBy) == Turn(monkeys, t, m, fuel, limitTo, reduceBy)
    decreases fuel
  {
    if t.items[m] != [] && fuel > 0 {
      match ThrowFirst(monkeys, t, m, limitTo, reduceBy)
      case None =>
      case Some(next) => TurnFuel(monkeys, next, m, fuel - 1, more - 1, limitTo, reduceBy);
    }
  }

  /** A monkey that never throws to itself needs one unit of fuel per item it holds. */
  lemma {:induction false} ThrowsAwayEnds(monkeys: seq<Monkey>, t: Troop, m: nat, fuel: nat, limitTo: int, reduceBy: Option<int>)
    requires Fits(t, monkeys) && m < |monkeys| && ThrowsAway(monkeys, m) && fuel >= |t.items[m]|
    ensures !Exhausts(monkeys, t, m, fuel, limitTo, reduceBy)
    decreases fuel
  {
    if t.items[m] != [] {
      match ThrowFirst(monkeys, t, m, limitTo, reduceBy)
      case None =>
      case Some(next) => ThrowsAwayEnds(monkeys, next, m, fuel - 1, limitTo, reduceBy);
    }
  }

  /**
   * A turn empties the monkey's queue, raises its inspection count by at least the
   * length of the queue at the start (exactly that when it never throws to itself),
   * leaves the other counts alone and keeps every item.
   */
  lemma {:induction false} TurnFacts(monkeys: seq<Monkey>, t: Troop, m: nat, fuel: nat, limitTo: int, reduceBy: Option<int>)
    requires Fits(t, monkeys) && m < |monkeys|
    requires Turn(monkeys, t, m, fuel, limitTo, reduceBy).Some?
    ensures Turn(monkeys, t, m, fuel, limitTo, reduceBy).value.items[m] == []
    ensures Turn(monkeys, t, m, fuel, limitTo, reduceBy).value.inspected[m] >= t.inspected[m] + |t.items[m]|
    ensures ThrowsAway(monkeys, m) ==>
      Turn(monkeys, t, m, fuel, limitTo, reduceBy).value.inspected[m] == t.inspected[m] + |t.items[m]|
    ensures forall i :: 0 <= i < |monkeys| && i != m ==>
      Turn(monkeys, t, m, fuel, limitTo, reduceBy).value.inspected[i] == t.inspected[i]
    ensures TotalItems(Turn(monkeys, t, m, fuel, limitTo, reduceBy).value.items) == TotalItems(t.items)
    decreases fuel
  {
    if t.items[m] != [] {
      var next := ThrowFirst(monkeys, t, m, limitTo, reduceBy).value;
      ThrowFirstMovesOneItem(monkeys, t, m, limitTo, reduceBy);
      TurnFacts(monkeys, next, m, fuel - 1, limitTo, reduceBy);
    }
  }

  /**
   * A monkey may throw to itself and still finish its turn: with "new = old + 1", a test
   * by 2, itself as the true target and limit 10, the item 1 comes back as 2 and then
   * leaves as 3 after two inspections.
   */
  lemma SelfTargetTurnEnds()
    ensures var monkeys := [Monkey(Operation("+", "1"), 2, 0, 1), Monkey(Operation("+", "1"), 5, 0, 0)];
      Turn(monkeys, Troop([[1], []], [0, 0]), 0, 2, 10, None) == Some(Troop([[], [3]], [2, 0]))
  {
    var monkeys := [Monkey(Operation("+", "1"), 2, 0, 1), Monkey(Operation("+", "1"), 5, 0, 0)];
    var t0, t1, t2 := Troop([[1], []], [0, 0]), Troop([[2], []], [1, 0]), Troop([[], [3]], [2, 0]);
    FirstSelfThrow(monkeys, t0, t1);
    SecondSelfThrow(monkeys, t1, t2);
    TurnStep(monkeys, t0, 0, 2, 10, None, t1);
    TurnStep(monkeys, t1, 0, 1, 10, None, t2);
    assert t2.items[0] == [];
  }

  /** The first throw of `SelfTargetTurnEnds`: item 1 comes back to monkey 0 as 2. */
  lemma FirstSelfThrow(monkeys: seq<Monkey>, t0: Troop, t1: Troop)
    requires monkeys == [Monkey(Operation("+", "1"), 2, 0, 1), Monkey(Operation("+", "1"), 5, 0, 0)]
    requires t0 == Troop([[1], []], [0, 0]) && t1 == Troop([[2], []], [1, 0])
    ensures Fits(t0, monkeys) && ThrowFirst(monkeys, t0, 0, 10, None) == Some(t1)
  {
    PlusOneInspection(monkeys[0], 1, 0);
    ThrowFirstValue(monkeys, t0, 0, 10, None, Throw(2, 0));
    SmallQueues(t0, t1, Troop([[], [3]], [2, 0]));
  }

  /** The second throw of `SelfTargetTurnEnds`: item 2 leaves for monkey 1 as 3. */
  lemma SecondSelfThrow(monkeys: seq<Monkey>, t1: Troop, t2: Troop)
    requires monkeys == [Monkey(Operation("+", "1"), 2, 0, 1), Monkey(Operation("+", "1"), 5, 0, 0)]
    requires t1 == Troop([[2], []], [1, 0]) && t2 == Troop([[], [3]], [2, 0])
    ensures Fits(t1, monkeys) && ThrowFirst(monkeys, t1, 0, 10, None) == Some(t2)
  {
    PlusOneInspection(monkeys[0], 2, 1);
    ThrowFirstValue(monkeys, t1, 0, 10, None, Throw(3, 1));
    SmallQueues(Troop([[1], []], [0, 0]), t1, t2);
  }

  /** A turn that has fuel left and throws successfully goes on from the new troop. */
  lemma TurnStep(monkeys: seq<Monkey>, t: Troop, m: nat, fuel: nat, limitTo: int, reduceBy: Option<int>, next: Troop)
    requires Fits(t, monkeys) && m < |monkeys| && t.items[m] != [] && fuel > 0
    requires ThrowFirst(monkeys, t, m, limitTo, reduceBy) == Some(next)
    ensures Turn(monkeys, t, m, fuel, limitTo, reduceBy) == Turn(monkeys, next, m, fuel - 1, limitTo, reduceBy)
  {
  }

  /** The queues of `SelfTargetTurnEnds` after each throw. */
  lemma SmallQueues(t0: Troop, t1: Troop, t2: Troop)
    requires t0 == Troop([[1], []], [0, 0]) && t1 == Troop([[2], []], [1, 0]) && t2 == Troop([[], [3]], [2, 0])
    ensures var u0 := t0.items[0 := t0.items[0][1..]]; u0[0 := u0[0] + [2]] == t1.items
    ensures var u1 := t1.items[0 := t1.items[0][1..]]; u1[1 := u1[1] + [3]] == t2.items
    ensures t0.inspected[0 := t0.inspected[0] + 1] == t1.inspected
    ensures t1.inspected[0 := t1.inspected[0] + 1] == t2.inspected
  {
    assert t0.inspected[0 := 1][0] == 1 && t1.inspected[0 := 2][1] == 0;
    assert t0.items[0][1..] == [] && t1.items[0][1..] == [];
    assert [] + [2] == [2] && [] + [3] == [3];
    var u0 := t0.items[0 := t0.items[0][1..]];
    var u1 := t1.items[0 := t1.items[0][1..]];
    assert |u0[0 := u0[0] + [2]]| == 2 && u0[0 := u0[0] + [2]][0] == [2] && u0[0 := u0[0] + [2]][1] == [];
    assert |u1[1 := u1[1] + [3]]| == 2 && u1[1 := u1[1] + [3]][0] == [] && u1[1 := u1[1] + [3]][1] == [3];
  }

  /** `ThrowFirst` once the inspection is known. */
  lemma ThrowFirstValue(monkeys: seq<Monkey>, t: Troop, m: nat, limitTo: int, reduceBy: Option<int>, thrown: Throw)
    requires Fits(t, monkeys) && m < |monkeys| && t.items[m] != []
    requires Inspect(monkeys[m], t.items[m][0], limitTo, reduceBy) == Some(thrown) && 0 <= thrown.target < |monkeys|
    ensures var items := t.items[m := t.items[m][1..]];
      ThrowFirst(monkeys, t, m, limitTo, reduceBy) ==
        Some(Troop(items[thrown.target := items[thrown.target] + [thrown.worry]], t.inspected[m := t.inspected[m] + 1]))
  {
  }

  /** The two inspections by the first monkey of `SelfTargetTurnEnds`: 1 becomes 2 and stays, 2 becomes 3 and leaves. */
  lemma PlusOneInspection(monkey: Monkey, level: int, target: int)
    requires monkey == Monkey(Operation("+", "1"), 2, 0, 1)
    requires (level == 1 && target == 0) || (level == 2 && target == 1)
    ensures Inspect(monkey, level, 10, None) == Some(Throw(level + 1, target))
  {
    PlusOneWorry(monkey.operation, level);
    InspectWithoutRelief(monkey, level, 10);
    if level == 1 {
      assert TRem(2, 10) == 2 by { TRemNonNegative(2, 10); }
      assert Route(monkey, 2) == 0 by { TRemNonNegative(2, 2); }
    } else {
      assert TRem(3, 10) == 3 by { TRemNonNegative(3, 10); }
      assert Route(monkey, 3) == 1 by { TRemNonNegative(3, 2); }
    }
  }

  /** `new = old + 1` adds one to every worry level. */
  lemma PlusOneWorry(operation: Operation, level: int)
    requires operation == Operation("+", "1")
    ensures NewWorry(operation, level) == Some(level + 1)
  {
    assert ParseInt("1") == Some(1);
  }

  /** An inspection with no `reduceBy`, spelled out as one value. */
  lemma InspectWithoutRelief(monkey: Monkey, level: int, limitTo: int)
    requires NewWorry(monkey.operation, level).Some? && limitTo != 0 && monkey.testDivisibleBy != 0
    ensures Inspect(monkey, level, limitTo, None) ==
      Some(Throw(TRem(NewWorry(monkey.operation, level).value, limitTo),
        Route(monkey, TRem(NewWorry(monkey.operation, level).value, limitTo))))
  {
  }

  /** The turns of monkeys `0 .. k - 1`, in index order. */
  function TurnsUpTo(monkeys: seq<Monkey>, t: Troop, k: nat, fuel: nat, limitTo: int, reduceBy: Option<int>): (r: Option<Troop>)
    requires Fits(t, monkeys) && k <= |monkeys|
    ensures r.Some? ==> Fits(r.value, monkeys)
  {
    if k == 0 then Some(t)
    else
      match TurnsUpTo(monkeys, t, k - 1, fuel, limitTo, reduceBy)
      case None => None
      case Some(before) => Turn(monkeys, before, k - 1, fuel, limitTo, reduceBy)
  }

  /** `List<Monkey>.takeTurn`: a round, every monkey taking its turn in index order. */
  function Round(monkeys: seq<Monkey>, t: Troop, fuel: nat, limitTo: int, reduceBy: Option<int>): (r: Option<Troop>)
    requires Fits(t, monkeys)
    ensures r.Some? ==> Fits(r.value, monkeys)
  {
    TurnsUpTo(monkeys, t, |monkeys|, fuel, limitTo, reduceBy)
  }

  /** `repeat(count) { takeTurn(...) }`. */
  function Rounds(monkeys: seq<Monkey>, t: Troop, count: nat, fuel: nat, limitTo: int, reduceBy: Option<int>): (r: Option<Troop>)
    requires Fits(t, monkeys)
    ensures r.Some? ==> Fits(r.value, monkeys)
  {
    if count == 0 then Some(t)
    else
      match Rounds(monkeys, t, count - 1, fuel, limitTo, reduceBy)
      case None => None
      case Some(before) => Round(monkeys, before, fuel, limitTo, reduceBy)
  }

  /** No turn, and so no round, creates or loses an item. */
  lemma {:induction false} TurnsKeepItems(monkeys: seq<Monkey>, t: Troop, k: nat, fuel: nat, limitTo: int, reduceBy: Option<int>)
    requires Fits(t, monkeys) && k <= |monkeys|
    requires TurnsUpTo(monkeys, t, k, fuel, limitTo, reduceBy).Some?
    ensures TotalItems(TurnsUpTo(monkeys, t, k, fuel, limitTo, reduceBy).value.items) == TotalItems(t.items)
  {
    if k > 0 {
      TurnsKeepItems(monkeys, t, k - 1, fuel, limitTo, reduceBy);
      var before := TurnsUpTo(monkeys, t, k - 1, fuel, limitTo, reduceBy).value;
      TurnFacts(monkeys, before, k - 1, fuel, limitTo, reduceBy);
    }
  }

  lemma {:induction false} RoundsKeepItems(monkeys: seq<Monkey>, t: Troop, count: nat, fuel: nat, limitTo: int, reduceBy: Option<int>)
    requires Fits(t, monkeys)
    requires Rounds(monkeys, t, count, fuel, limitTo, reduceBy).Some?
    ensures TotalItems(Rounds(monkeys, t, count, fuel, limitTo, reduceBy).value.items) == TotalItems(t.items)
  {
    if count > 0 {
      RoundsKeepItems(monkeys, t, count - 1, fuel, limitTo, reduceBy);
      var before := Rounds(monkeys, t, count - 1, fuel, limitTo, reduceBy).value;
      TurnsKeepItems(monkeys, before, |monkeys|, fuel, limitTo, reduceBy);
    }
  }

  /** Once a turn has failed, the rest of the round fails too. */
  lemma {:induction false} TurnsFailureStays(monkeys: seq<Monkey>, t: Troop, k: nat, n: nat, fuel: nat, limitTo: int, reduceBy: Option<int>)
    requires Fits(t, monkeys) && k <= n <= |monkeys|
    requires TurnsUpTo(monkeys, t, k, fuel, limitTo, reduceBy).None?
    ensures TurnsUpTo(monkeys, t, n, fuel, limitTo, reduceBy).None?
    decreases n - k
  {
    if k < n {
      TurnsFailureStays(monkeys, t, k + 1, n, fuel, limitTo, reduceBy);
    }
  }

  /** Once a round has failed, the later rounds fail too. */
  lemma {:induction false} RoundsFailureStays(monkeys: seq<Monkey>, t: Troop, k: nat, n: nat, fuel: nat, limitTo: int, reduceBy: Option<int>)
    requires Fits(t, monkeys) && k <= n
    requires Rounds(monkeys, t, k, fuel, limitTo, reduceBy).None?
    ensures Rounds(monkeys, t, n, fuel, limitTo, reduceBy).None?
    decreases n - k
  {
    if k < n {
      RoundsFailureStays(monkeys, t, k + 1, n, fuel, limitTo, reduceBy);
    }
  }

  // ---------------------------------------------------------------------------
  // The monkeys as a mutable object

  /** `n` zero counters: no monkey has inspected anything yet. */
  function Zeros(n: nat): (r: seq<int>)
    ensures |r| == n && forall i :: 0 <= i < n ==> r[i] == 0
  {
    seq(n, _ => 0)
  }

  /**
   * The list of `Monkey` objects: their fixed rules, and the queues and counters that
   * `takeTurn` updates in place.
   */
  class Monkeys {
    const rules: seq<Monkey>
    var items: seq<seq<int>>
    var inspectedItems: seq<int>

    function State(): Troop
      reads this
    {
      Troop(items, inspectedItems)
    }

    ghost predicate Valid()
      reads this
    {
      Fits(State(), rules)
    }

    constructor(rules: seq<Monkey>, startingItems: seq<seq<int>>)
      requires |startingItems| == |rules|
      ensures Valid() && this.rules == rules
      ensures State() == Troop(startingItems, Zeros(|rules|))
    {
      this.rules := rules;
      items := startingItems;
      inspectedItems := Zeros(|rules|);
    }

    /**
     * `takeTurn` of monkey `m`, cut after `fuel` throws; `false` stands for the exception
     * of a failed inspection or for the fuel running out.
     */
    method TakeTurn(m: nat, fuel: nat, limitTo: int, reduceBy: Option<int>) returns (ok: bool)
      requires Valid() && m < |rules|
      modifies this
      ensures Valid()
      ensures ok <==> Turn(rules, old(State()), m, fuel, limitTo, reduceBy).Some?
      ensures ok ==> State() == Turn(rules, old(State()), m, fuel, limitTo, reduceBy).value
    {
      var throws := 0;
      while items[m] != []
        invariant Valid() && throws <= fuel
        invariant Turn(rules, State(), m, fuel - throws, limitTo, reduceBy) == Turn(rules, old(State()), m, fuel, limitTo, reduceBy)
        decreases fuel - throws
      {
        if throws == fuel {
          return false;
        }
        ghost var before := State();
        ok := ThrowFirstItem(m, limitTo, reduceBy);
        if !ok {
          assert Turn(rules, before, m, fuel - throws, limitTo, reduceBy).None?;
          return false;
        }
        assert Turn(rules, before, m, fuel - throws, limitTo, reduceBy) == Turn(rules, State(), m, fuel - throws - 1, limitTo, reduceBy);
        throws := throws + 1;
      }
      return true;
    }

    /** One pass of `takeTurn`'s loop: the first item of monkey `m` is inspected and thrown. */
    method ThrowFirstItem(m: nat, limitTo: int, reduceBy: Option<int>) returns (ok: bool)
      requires Valid() && m < |rules| && items[m] != []
      modifies this
      ensures ok <==> ThrowFirst(rules, old(State()), m, limitTo, reduceBy).Some?
      ensures Valid()
      ensures ok ==> State() == ThrowFirst(rules, old(State()), m, limitTo, reduceBy).value
    {
      var item := items[m][0];
      items := items[m := items[m][1..]];
      inspectedItems := inspectedItems[m := inspectedItems[m] + 1];
      var thrown := Inspect(rules[m], item, limitTo, reduceBy);
      if thrown.None? || !(0 <= thrown.value.target < |rules|) {
        return false;
      }
      items := items[thrown.value.target := items[thrown.value.target] + [thrown.value.worry]];
      return true;
    }

    /** `List<Monkey>.takeTurn`: every monkey takes its turn in index order. */
    method TakeAllTurns(fuel: nat, limitTo: int, reduceBy: Option<int>) returns (ok: bool)
      requires Valid()
      modifies this
      ensures Valid()
      ensures ok <==> Round(rules, old(State()), fuel, limitTo, reduceBy).Some?
      ensures ok ==> State() == Round(rules, old(State()), fuel, limitTo, reduceBy).value
    {
      ghost var start := State();
      for k := 0 to |rules|
        invariant Valid()
        invariant TurnsUpTo(rules, start, k, fuel, limitTo, reduceBy) == Some(State())
      {
        ghost var before := State();
        ok := TakeTurn(k, fuel, limitTo, reduceBy);
        assert TurnsUpTo(rules, start, k + 1, fuel, limitTo, reduceBy) == Turn(rules, before, k, fuel, limitTo, reduceBy);
        if !ok {
          TurnsFailureStays(rules, start, k + 1, |rules|, fuel, limitTo, reduceBy);
          return false;
        }
      }
      return true;
    }
  }

  // ---------------------------------------------------------------------------
  // Monkey business

  /**
   * `sumOfMonkeyBusiness`: the product of the (at most) two largest counts; `product`
   * throws on an empty list.
   */
  function MonkeyBusiness(inspected: seq<int>): (r: Option<int>)
    ensures r.Some? <==> |inspected| > 0
  {
    var sorted := SortDescending(inspected);
    assert |sorted| == |multiset(sorted)| == |inspected|;
    var top := sorted[..if |sorted| < 2 then |sorted| else 2];
    if top == [] then None else Some(Product(top))
  }

  /**
   * With at least two monkeys, monkey business is `inspected[i] * inspected[j]` for two
   * different monkeys: `i` with the largest count, `j` with the largest among the rest.
   */
  lemma MonkeyBusinessIsTopTwo(inspected: seq<int>)
    requires |inspected| >= 2
    ensures exists i, j :: (0 <= i < |inspected| && 0 <= j < |inspected| && i != j &&
      MonkeyBusiness(inspected) == Some(inspected[i] * inspected[j]) &&
      (forall k :: 0 <= k < |inspected| ==> inspected[k] <= inspected[i]) &&
      (forall k :: 0 <= k < |inspected| && k != i ==> inspected[k] <= inspected[j]))
  {
    var sorted := SortDescending(inspected);
    var i, j := TopTwo(inspected, sorted);
    assert sorted[..2] == [inspected[i], inspected[j]];
    ProductPair(inspected[i], inspected[j]);
  }

  /** The first two entries of a sorted copy of `s` come from two different positions of `s`. */
  lemma TopTwo(s: seq<int>, sorted: seq<int>) returns (i: nat, j: nat)
    requires |s| >= 2 && Descending(sorted) && multiset(sorted) == multiset(s)
    ensures |sorted| == |s|
    ensures i < |s| && j < |s| && i != j && s[i] == sorted[0] && s[j] == sorted[1]
    ensures forall k :: 0 <= k < |s| ==> s[k] <= s[i]
    ensures forall k :: 0 <= k < |s| && k != i ==> s[k] <= s[j]
  {
    assert |sorted| == |multiset(sorted)| == |s|;
    assert sorted[0] in multiset(s);
    i :| 0 <= i < |s| && s[i] == sorted[0];
    j := SecondPlace(s, sorted, i);
    forall k | 0 <= k < |s|
      ensures s[k] <= s[i]
      ensures k != i ==> s[k] <= s[j]
    {
      if k != i {
        var w := InSortedTail(s, sorted, i, k);
      }
    }
  }

  /**
   * With the largest element `s[i]` taken out, every other element of `s` appears in
   * the rest of the sorted list.
   */
  lemma InSortedTail(s: seq<int>, sorted: seq<int>, i: nat, k: nat) returns (w: nat)
    requires multiset(sorted) == multiset(s) && |sorted| > 0
    requires i < |s| && s[i] == sorted[0] && k < |s| && k != i
    ensures 1 <= w < |sorted| && sorted[w] == s[k]
  {
    var rest := s[..i] + s[i + 1..];
    WithoutOne(s, i);
    WithoutOne(sorted, 0);
    assert sorted[..0] + sorted[1..] == sorted[1..];
    var pk := if k < i then k else k - 1;
    assert rest[pk] == s[k];
    assert s[k] in multiset(sorted[1..]);
    var v :| 0 <= v < |sorted[1..]| && sorted[1..][v] == s[k];
    w := v + 1;
  }

  /** Removing the element at `i` removes one occurrence of it from the multiset. */
  lemma WithoutOne(s: seq<int>, i: nat)
    requires i < |s|
    ensures multiset(s[..i] + s[i + 1..]) == multiset(s) - multiset{s[i]}
  {
    assert s == s[..i] + [s[i]] + s[i + 1..];
  }

  /** With the first element's occurrence at `i` taken out, the second element is still there. */
  lemma SecondInRest(s: seq<int>, sorted: seq<int>, i: nat)
    requires multiset(sorted) == multiset(s) && |sorted| >= 2
    requires i < |s| && s[i] == sorted[0]
    ensures sorted[1] in multiset(s[..i] + s[i + 1..])
  {
    WithoutOne(s, i);
    WithoutOne(sorted, 0);
    assert sorted[..0] + sorted[1..] == sorted[1..];
    assert sorted[1] == sorted[1..][0];
  }

  /** The second element of the sorted list sits at some index other than `i`. */
  lemma SecondPlace(s: seq<int>, sorted: seq<int>, i: nat) returns (j: nat)
    requires multiset(sorted) == multiset(s) && |sorted| >= 2
    requires i < |s| && s[i] == sorted[0]
    ensures j < |s| && j != i && s[j] == sorted[1]
  {
    var rest := s[..i] + s[i + 1..];
    SecondInRest(s, sorted, i);
    assert sorted[1] in rest;
    var p :| 0 <= p < |rest| && rest[p] == sorted[1];
    if p < i {
      assert rest[p] == s[p];
      j := p;
    } else {
      assert rest[p] == s[p + 1];
      j := p + 1;
    }
  }

  // ---------------------------------------------------------------------------
  // Parsing

  /** The fixed rules of a monkey and its starting items. */
  datatype Parsed = Parsed(monkey: Monkey, startingItems: seq<int>)

  /** The monkey index in a header line "Monkey <n>:". */
  function HeaderIndex(line: string): Option<int>
  {
    ParseInt(RemoveSuffix(RemovePrefix(line, "Monkey "), ":"))
  }

  /** `split(" ")` destructured into `(op, arg)`: fewer than two pieces throws. */
  function ToOperation(text: string): (r: Option<Operation>)
    ensures r.Some? <==> |SplitOn(text, ' ')| >= 2
  {
    var parts := SplitOn(text, ' ');
    if |parts| < 2 then None else Some(Operation(parts[0], parts[1]))
  }

  /**
   * One block of `chunked(7)`, the monkey at position `index`: the header must name that
   * index (`check(monkey == size)`), and lines 1..5 must hold the items, the operation, the
   * divisor and the two targets. A block of fewer than six lines fails.
   */
  function ParseMonkey(block: seq<string>, index: nat): (r: Option<Parsed>)
    ensures r.Some? ==> |block| >= 6 && HeaderIndex(block[0]) == Some(index)
  {
    if |block| < 6 || HeaderIndex(block[0]) != Some(index) then None
    else ParseFields(block[1..6])
  }

  /** Lines 1..5 of a block: items, operation, divisor, and the two targets. */
  function ParseFields(lines: seq<string>): Option<Parsed>
    requires |lines| == 5
  {
    var startingItems := ParseInts(Split(RemovePrefix(lines[0], "  Starting items: "), ", "));
    var operation := ToOperation(RemovePrefix(lines[1], "  Operation: new = old "));
    var test := ParseInt(RemovePrefix(lines[2], "  Test: divisible by "));
    var ifTrue := ParseInt(RemovePrefix(lines[3], "    If true: throw to monkey "));
    var ifFalse := ParseInt(RemovePrefix(lines[4], "    If false: throw to monkey "));
    if startingItems.None? || operation.None? || test.None? || ifTrue.None? || ifFalse.None? then None
    else Some(Parsed(Monkey(operation.value, test.value, ifTrue.value, ifFalse.value), startingItems.value))
  }

  /**
   * The blocks in order, each read by `parse` with its position; one block that does not
   * parse fails the whole list.
   */
  function ParseBlocks(blocks: seq<seq<string>>, parse: (seq<string>, nat) -> Option<Parsed>): (r: Option<seq<Parsed>>)
    ensures r.Some? ==> |r.value| == |blocks|
    ensures r.Some? <==> forall i :: 0 <= i < |blocks| ==> parse(blocks[i], i).Some?
    ensures r.Some? ==> forall i :: 0 <= i < |blocks| ==> parse(blocks[i], i) == Some(r.value[i])
  {
    if blocks == [] then Some([])
    else
      var n := |blocks| - 1;
      var init := ParseBlocks(blocks[..n], parse);
      var last := parse(blocks[n], n);
      assert forall i :: 0 <= i < n ==> blocks[..n][i] == blocks[i];
      if init.Some? && last.Some? then Some(init.value + [last.value]) else None
  }

  /** `toMonkeys`: the input cut into blocks of seven lines; block `i` must describe monkey `i`. */
  function ToMonkeys(input: seq<string>): (r: Option<seq<Parsed>>)
    ensures r.Some? ==> |r.value| == |Chunked(input, 7)|
    ensures r.Some? ==> forall i :: 0 <= i < |r.value| ==> HeaderIndex(Chunked(input, 7)[i][0]) == Some(i)
  {
    ParseBlocks(Chunked(input, 7), ParseMonkey)
  }

  function Rules(parsed: seq<Parsed>): (monkeys: seq<Monkey>)
    ensures |monkeys| == |parsed| && forall i :: 0 <= i < |parsed| ==> monkeys[i] == parsed[i].monkey
  {
    seq(|parsed|, i requires 0 <= i < |parsed| => parsed[i].monkey)
  }

  function StartingItems(parsed: seq<Parsed>): (items: seq<seq<int>>)
    ensures |items| == |parsed| && forall i :: 0 <= i < |parsed| ==> items[i] == parsed[i].startingItems
  {
    seq(|parsed|, i requires 0 <= i < |parsed| => parsed[i].startingItems)
  }

  // ---------------------------------------------------------------------------
  // The two parts

  /**
   * Parse, run `rounds` rounds with the given `reduceBy`, and compute the monkey business;
   * `fuel` bounds the throws of one turn (see `Turn`).
   */
  function Business(input: seq<string>, rounds: nat, fuel: nat, reduceBy: Option<int>): (r: Option<int>)
    ensures r.Some? ==> ToMonkeys(input).Some? && |ToMonkeys(input).value| > 0
    ensures ToMonkeys(input).Some? && |ToMonkeys(input).value| > 0 ==>
      var parsed := ToMonkeys(input).value;
      var monkeys := Rules(parsed);
      (r.Some? <==> Rounds(monkeys, Troop(StartingItems(parsed), Zeros(|parsed|)), rounds, fuel, Limit(monkeys), reduceBy).Some?)
  {
    match ToMonkeys(input)
    case None => None
    case Some(parsed) =>
      if parsed == [] then None
      else
        var monkeys := Rules(parsed);
        var start := Troop(StartingItems(parsed), Zeros(|parsed|));
        match Rounds(monkeys, start, rounds, fuel, Limit(monkeys), reduceBy)
        case None => None
        case Some(t) => MonkeyBusiness(t.inspected)
  }

  method Solve(input: seq<string>, rounds: nat, fuel: nat, reduceBy: Option<int>) returns (r: Option<int>)
    ensures r == Business(input, rounds, fuel, reduceBy)
  {
    var parsed := ToMonkeys(input);
    if parsed.None? || parsed.value == [] {
      return None;
    }
    var rules := Rules(parsed.value);
    var monkeys := new Monkeys(rules, StartingItems(parsed.value));
    ghost var start := monkeys.State();
    var limit := Limit(rules);
    for k := 0 to rounds
      invariant monkeys.Valid() && monkeys.rules == rules
      invariant Rounds(rules, start, k, fuel, limit, reduceBy) == Some(monkeys.State())
    {
      var ok := monkeys.TakeAllTurns(fuel, limit, reduceBy);
      if !ok {
        RoundsFailureStays(rules, start, k + 1, rounds, fuel, limit, reduceBy);
        return None;
      }
    }
    return MonkeyBusiness(monkeys.inspectedItems);
  }

  /** `part1`: 20 rounds, worry divided by 3 after each inspection. */
  method Part1(input: seq<string>, fuel: nat) returns (r: Option<int>)
    ensures r == Business(input, 20, fuel, Some(3))
  {
    r := Solve(input, 20, fuel, Some(3));
  }

  /** `part2`: 10000 rounds with no division. */
  method Part2(input: seq<string>, fuel: nat) returns (r: Option<int>)
    ensures r == Business(input, 10000, fuel, None)
  {
    r := Solve(input, 10000, fuel, None);
  }

  /** The rounds of either part keep every starting item in play. */
  lemma BusinessKeepsItems(input: seq<string>, rounds: nat, fuel: nat, reduceBy: Option<int>)
    requires ToMonkeys(input).Some? && ToMonkeys(input).value != []
    ensures var parsed := ToMonkeys(input).value;
      var monkeys := Rules(parsed);
      var start := Troop(StartingItems(parsed), Zeros(|parsed|));
      Rounds(monkeys, start, rounds, fuel, Limit(monkeys), reduceBy).Some? ==>
        TotalItems(Rounds(monkeys, start, rounds, fuel, Limit(monkeys), reduceBy).value.items) ==
        TotalItems(StartingItems(parsed))
  {
    var parsed := ToMonkeys(input).value;
    var monkeys := Rules(parsed);
    var start := Troop(StartingItems(parsed), Zeros(|parsed|));
    if Rounds(monkeys, start, rounds, fuel, Limit(monkeys), reduceBy).Some? {
      RoundsKeepItems(monkeys, start, rounds, fuel, Limit(monkeys), reduceBy);
    }
  }
}
