/**
 * Day 10 (src/Day10.kt): a CPU with one register X runs `noop` (one cycle) and
 * `addx n` (two cycles, then X grows by n). The simulator records the register as it
 * stands during every cycle; part 1 sums the signal strengths of cycles 20, 60, 100, ...
 * and part 2 draws a 40-column CRT whose pixel is lit when the 3-wide sprite centred on X
 * covers the cursor.
 */
module Day10 {
  import opened Utils
  import opened Text

  datatype CpuInstruction = Noop | AddX(value: int)
  {
    /** `cycles`: how many cycles the instruction takes. */
    function Cycles(): (n: nat)
      ensures n == 1 || n == 2
      ensures n == 2 <==> this.AddX?
    {
      match this
      case Noop => 1
      case AddX(_) => 2
    }
  }

  datatype RegisterState = RegisterState(x: int)

  /** The state after an instruction: only `addx` changes X, by its value. */
  function Next(state: RegisterState, instruction: CpuInstruction): (r: RegisterState)
    ensures instruction.Noop? ==> r == state
    ensures instruction.AddX? ==> r.x - state.x == instruction.value
  {
    match instruction
    case Noop => state
    case AddX(v) => state.(x := state.x + v)
  }

  /** `n` copies of the same state. */
  function Copies(state: RegisterState, n: nat): (r: seq<RegisterState>)
    ensures |r| == n && forall i :: 0 <= i < n ==> r[i] == state
  {
    seq(n, _ => state)
  }

  // ---------------------------------------------------------------------------
  // The simulator as a value

  /** The simulator's register and its histogram of per-cycle states. */
  datatype Cpu = Cpu(state: RegisterState, histogram: seq<RegisterState>)

  const Start := Cpu(RegisterState(1), [RegisterState(1)])

  /** `execute`: the current state is appended once per cycle, then the register is updated. */
  function Executed(cpu: Cpu, instruction: CpuInstruction): (r: Cpu)
    ensures |r.histogram| == |cpu.histogram| + instruction.Cycles()
    ensures r.histogram[..|cpu.histogram|] == cpu.histogram
    ensures forall i :: |cpu.histogram| <= i < |r.histogram| ==> r.histogram[i] == cpu.state
    ensures r.state == Next(cpu.state, instruction)
  {
    Cpu(Next(cpu.state, instruction), cpu.histogram + Copies(cpu.state, instruction.Cycles()))
  }

  /** A fresh simulator that has executed `program` in order. */
  function Run(program: seq<CpuInstruction>): Cpu
  {
    if program == [] then Start
    else Executed(Run(program[..|program| - 1]), program[|program| - 1])
  }

  /** Total number of cycles of a program. */
  function TotalCycles(program: seq<CpuInstruction>): nat
  {
    if program == [] then 0
    else TotalCycles(program[..|program| - 1]) + program[|program| - 1].Cycles()
  }

  /** The sum of all `addx` arguments of a program. */
  function TotalAdded(program: seq<CpuInstruction>): int
  {
    if program == [] then 0
    else
      var last := program[|program| - 1];
      TotalAdded(program[..|program| - 1]) + if last.AddX? then last.value else 0
  }

  /**
   * The histogram starts with X = 1 and has one entry more than the program has cycles;
   * the register ends at 1 plus every `addx` argument.
   */
  lemma {:induction false} RunShape(program: seq<CpuInstruction>)
    ensures Run(program).histogram[0] == RegisterState(1)
    ensures |Run(program).histogram| == 1 + TotalCycles(program)
    ensures Run(program).state.x == 1 + TotalAdded(program)
  {
    if program != [] {
      RunShape(program[..|program| - 1]);
    }
  }

  /** Running a prefix of a program yields a prefix of the histogram. */
  lemma {:induction false} RunPrefix(program: seq<CpuInstruction>, k: nat)
    requires k <= |program|
    ensures Run(program[..k]).histogram <= Run(program).histogram
    decreases |program|
  {
    if k < |program| {
      var init := program[..|program| - 1];
      assert program[..k] == init[..k];
      RunPrefix(init, k);
    } else {
      assert program[..k] == program;
    }
  }

  /**
   * Entry `1 + TotalCycles(program[..j]) + c` of the histogram, for every cycle `c` of
   * instruction `j`, is the register as it stood before instruction `j`: the histogram
   * records X during each cycle.
   */
  lemma HistogramDuringInstruction(program: seq<CpuInstruction>, j: nat, c: nat)
    requires j < |program| && c < program[j].Cycles()
    ensures 1 + TotalCycles(program[..j]) + c < |Run(program).histogram|
    ensures Run(program).histogram[1 + TotalCycles(program[..j]) + c] == Run(program[..j]).state
  {
    assert program[..j + 1][..j] == program[..j];
    assert program[..j + 1][j] == program[j];
    RunShape(program[..j]);
    RunPrefix(program, j + 1);
  }

  class CpuSimulator {
    var state: RegisterState
    var histogram: seq<RegisterState>

    /** A new simulator: X = 1, and the histogram holds that one state. */
    constructor()
      ensures Cpu(state, histogram) == Start
    {
      state := RegisterState(1);
      histogram := [RegisterState(1)];
    }

    /** `execute(instruction)`: `cycles` copies of the current state, then the new state. */
    method Execute(instruction: CpuInstruction)
      modifies this
      ensures Cpu(state, histogram) == Executed(old(Cpu(state, histogram)), instruction)
    {
      ghost var before := histogram;
      for k := 0 to instruction.Cycles()
        invariant state == old(state)
        invariant histogram == before + Copies(state, k)
      {
        histogram := histogram + [state];
      }
      match instruction {
        case Noop =>
        case AddX(v) => state := state.(x := state.x + v);
      }
    }
  }

  /** A fresh simulator that executes every instruction of `program`, in order. */
  method Simulate(program: seq<CpuInstruction>) returns (simulator: CpuSimulator)
    ensures Cpu(simulator.state, simulator.histogram) == Run(program)
  {
    simulator := new CpuSimulator();
    for k := 0 to |program|
      invariant Cpu(simulator.state, simulator.histogram) == Run(program[..k])
    {
      assert program[..k + 1][..k] == program[..k];
      simulator.Execute(program[k]);
    }
    assert program[..|program|] == program;
  }

  // ---------------------------------------------------------------------------
  // Parsing

  /** `takeWhile { it != ' ' }`: the text before the first space. */
  function FirstWord(s: string): (w: string)
    ensures w <= s && ' ' !in w
    ensures |w| < |s| ==> s[|w|] == ' '
  {
    if s == [] || s[0] == ' ' then [] else [s[0]] + FirstWord(s[1..])
  }

  /** `takeLastWhile { it != ' ' }`: the text after the last space. */
  function LastWord(s: string): (w: string)
    ensures |w| <= |s| && w == s[|s| - |w|..] && ' ' !in w
    ensures |w| < |s| ==> s[|s| - |w| - 1] == ' '
  {
    if s == [] || s[|s| - 1] == ' ' then [] else LastWord(s[..|s| - 1]) + [s[|s| - 1]]
  }

  /** The first word of "a b", where `a` has no space, is `a`. */
  lemma {:induction false} FirstWordOf(a: string, b: string)
    requires ' ' !in a
    ensures FirstWord(a + " " + b) == a
  {
    if a != [] {
      assert (a + " " + b)[1..] == a[1..] + " " + b;
      FirstWordOf(a[1..], b);
    }
  }

  /** The last word of "a b", where `b` has no space, is `b`. */
  lemma {:induction false} LastWordOf(a: string, b: string)
    requires ' ' !in b
    ensures LastWord(a + " " + b) == b
  {
    var s := a + " " + b;
    if b != [] {
      assert s[..|s| - 1] == a + " " + b[..|b| - 1];
      LastWordOf(a, b[..|b| - 1]);
      assert b == b[..|b| - 1] + [b[|b| - 1]];
    }
  }

  /** `toCpuInstruction`: "noop", or "addx" with a number after the last space; anything else fails. */
  function ToCpuInstruction(s: string): (r: Option<CpuInstruction>)
    ensures r == Some(Noop) <==> FirstWord(s) == "noop"
    ensures r.Some? && r.value.AddX? <==> FirstWord(s) == "addx" && ParseInt(LastWord(s)).Some?
  {
    var instruction := FirstWord(s);
    var argument := LastWord(s);
    if instruction == "noop" then Some(Noop)
    else if instruction == "addx" then
      match ParseInt(argument)
      case Some(v) => Some(AddX(v))
      case None => None
    else None
  }

  /** The text of an instruction as the puzzle writes it. */
  function Show(instruction: CpuInstruction): string
  {
    match instruction
    case Noop => "noop"
    case AddX(v) => "addx " + IntToString(v)
  }

  /** Every instruction reads back from its text. */
  lemma ToCpuInstructionShow(instruction: CpuInstruction)
    ensures ToCpuInstruction(Show(instruction)) == Some(instruction)
  {
    match instruction {
      case Noop =>
        assert FirstWord("noop") == "noop" by { FirstWordOf("noop", ""); }
      case AddX(v) =>
        ToAddX(v);
    }
  }

  lemma ToAddX(v: int)
    ensures ToCpuInstruction("addx " + IntToString(v)) == Some(AddX(v))
  {
    var t := IntToString(v);
    var line := "addx " + t;
    assert line == "addx" + " " + t;
    NumberOmits(v, ' ');
    FirstWordOf("addx", t);
    LastWordOf("addx", t);
    ParseIntToString(v);
    assert FirstWord(line) == "addx" && LastWord(line) == t;
  }

  /** `input.map { it.toCpuInstruction() }`: one line that does not parse fails the whole program. */
  function ParseProgram(input: seq<string>): (r: Option<seq<CpuInstruction>>)
    ensures r.Some? <==> forall i :: 0 <= i < |input| ==> ToCpuInstruction(input[i]).Some?
    ensures r.Some? ==> |r.value| == |input|
    ensures r.Some? ==> forall i :: 0 <= i < |input| ==> ToCpuInstruction(input[i]) == Some(r.value[i])
  {
    MapAll(ToCpuInstruction, input)
  }

  // ---------------------------------------------------------------------------
  // Part 1: signal strength

  /** Signal strengths of the entries `i`, `i + 40`, ... below the histogram size. */
  function SignalFrom(histogram: seq<RegisterState>, i: nat): int
    decreases |histogram| - i
  {
    if i >= |histogram| then 0 else histogram[i].x * i + SignalFrom(histogram, i + 40)
  }

  /** The signal strength of every entry whose index is 20 modulo 40, among the first `n`. */
  function SampledBelow(histogram: seq<RegisterState>, n: nat): int
    requires n <= |histogram|
  {
    if n == 0 then 0
    else SampledBelow(histogram, n - 1) + if (n - 1) % 40 == 20 then histogram[n - 1].x * (n - 1) else 0
  }

  /** Between a sampled index and the next one only that index contributes. */
  lemma {:induction false} SampledWindow(histogram: seq<RegisterState>, i: nat, n: nat)
    requires i % 40 == 20 && i < n <= i + 40 && n <= |histogram|
    ensures SampledBelow(histogram, n) == SampledBelow(histogram, i) + histogram[i].x * i
  {
    if n > i + 1 {
      SampledWindow(histogram, i, n - 1);
    }
  }

  /** From a sampled index on, stepping by 40 adds up exactly the sampled entries. */
  lemma {:induction false} SignalFromIsSampled(histogram: seq<RegisterState>, i: nat)
    requires i % 40 == 20
    ensures i <= |histogram| ==>
      SignalFrom(histogram, i) + SampledBelow(histogram, i) == SampledBelow(histogram, |histogram|)
    decreases |histogram| - i
  {
    if i < |histogram| {
      SignalFromIsSampled(histogram, i + 40);
      if i + 40 <= |histogram| {
        SampledWindow(histogram, i, i + 40);
      } else {
        SampledWindow(histogram, i, |histogram|);
      }
    }
  }

  /** No entry below 20 is sampled. */
  lemma {:induction false} NothingSampledBelow20(histogram: seq<RegisterState>, n: nat)
    requires n <= 20 && n <= |histogram|
    ensures SampledBelow(histogram, n) == 0
  {
    if n > 0 {
      NothingSampledBelow20(histogram, n - 1);
    }
  }

  /** Part 1's loop adds up the signal strength of every entry whose index is 20 modulo 40. */
  lemma SignalStrengthIsSampled(histogram: seq<RegisterState>)
    ensures SignalFrom(histogram, 20) == SampledBelow(histogram, |histogram|)
  {
    if |histogram| < 20 {
      NothingSampledBelow20(histogram, |histogram|);
    } else {
      NothingSampledBelow20(histogram, 20);
      SignalFromIsSampled(histogram, 20);
    }
  }

  function Part1Spec(input: seq<string>): Option<int>
  {
    match ParseProgram(input)
    case Some(program) => Some(SignalFrom(Run(program).histogram, 20))
    case None => None
  }

  /** Part 1 fails exactly when a line is not an instruction, and otherwise adds up x times i
      over every entry i of the program's history with i mod 40 == 20. */
  lemma Part1SpecIsSampled(input: seq<string>)
    ensures Part1Spec(input).Some? <==> ParseProgram(input).Some?
    ensures Part1Spec(input).Some? ==> var histogram := Run(ParseProgram(input).value).histogram;
      Part1Spec(input).value == SampledBelow(histogram, |histogram|)
  {
    if ParseProgram(input).Some? {
      SignalStrengthIsSampled(Run(ParseProgram(input).value).histogram);
    }
  }

  /** Part 1's loop: `histogram[i].x * i` added up for i = 20, 60, 100, ... below the size,
      which is every entry whose index is 20 modulo 40. */
  method SignalStrength(histogram: seq<RegisterState>) returns (signalStrength: int)
    ensures signalStrength == SignalFrom(histogram, 20)
    ensures signalStrength == SampledBelow(histogram, |histogram|)
  {
    signalStrength := 0;
    var i := 20;
    while i < |histogram|
      invariant signalStrength + SignalFrom(histogram, i) == SignalFrom(histogram, 20)
      decreases |histogram| - i
    {
      signalStrength := signalStrength + histogram[i].x * i;
      i := i + 40;
    }
    SignalStrengthIsSampled(histogram);
  }

  /** `part1`: simulate, then add up the signal strengths of the histogram. */
  method Part1(input: seq<string>) returns (r: Option<int>)
    ensures r == Part1Spec(input)
  {
    var program := ParseProgram(input);
    if program.None? {
      return None;
    }
    var simulator := Simulate(program.value);
    var signalStrength := SignalStrength(simulator.histogram);
    return Some(signalStrength);
  }

  // ---------------------------------------------------------------------------
  // Part 2: the CRT

  const CrtLineLength := 40

  /** The cursor column for a cycle: `(cycle - 1) % crtLineLength`, truncating. */
  function Cursor(cycle: int): int
  {
    TRem(cycle - 1, CrtLineLength)
  }

  /** The sprite `(x - 1)..(x + 1)` covers the cursor. */
  predicate Lit(cycle: int, state: RegisterState)
  {
    state.x - 1 <= Cursor(cycle) <= state.x + 1
  }

  /** What `CrtSimulator.print` emits for one cycle: '#' or '.', and a line break after column 39. */
  function PrintCycle(cycle: int, state: RegisterState): string
  {
    [if Lit(cycle, state) then '#' else '.'] + if Cursor(cycle) == CrtLineLength - 1 then "\n" else ""
  }

  /** For cycles from 1 on, the cursor runs through the columns 0..39 and a line ends every 40 cycles. */
  lemma CursorColumns(cycle: int, state: RegisterState)
    requires cycle >= 1
    ensures 0 <= Cursor(cycle) < CrtLineLength
    ensures Cursor(cycle) == (cycle - 1) % CrtLineLength
    ensures Lit(cycle, state) <==> Abs(Cursor(cycle) - state.x) <= 1
    ensures Cursor(cycle) == CrtLineLength - 1 <==> cycle % CrtLineLength == 0
  {
    TRemNonNegative(cycle - 1, CrtLineLength);
  }

  /** The text printed for the histogram entries 1 .. n - 1 (entry 0 is skipped). */
  function Screen(histogram: seq<RegisterState>, n: nat): string
    requires n <= |histogram|
  {
    if n <= 1 then "" else Screen(histogram, n - 1) + PrintCycle(n - 1, histogram[n - 1])
  }

  /** One character per cycle, plus one line break per completed row of 40. */
  lemma {:induction false} ScreenLength(histogram: seq<RegisterState>, n: nat)
    requires 1 <= n <= |histogram|
    ensures |Screen(histogram, n)| == (n - 1) + (n - 1) / CrtLineLength
  {
    if n > 1 {
      ScreenLength(histogram, n - 1);
      CursorColumns(n - 1, histogram[n - 1]);
    }
  }

  function Part2Spec(input: seq<string>): Option<string>
  {
    match ParseProgram(input)
    case Some(program) =>
      var histogram := Run(program).histogram;
      Some(Screen(histogram, |histogram|))
    case None => None
  }

  /** Part 2 fails exactly when a line is not an instruction, and otherwise prints one pixel per
      cycle of the program and a line break after every 40 of them. */
  lemma Part2SpecLength(input: seq<string>)
    ensures Part2Spec(input).Some? <==> ParseProgram(input).Some?
    ensures Part2Spec(input).Some? ==> var cycles := TotalCycles(ParseProgram(input).value);
      |Part2Spec(input).value| == cycles + cycles / CrtLineLength
  {
    if ParseProgram(input).Some? {
      var program := ParseProgram(input).value;
      RunShape(program);
      ScreenLength(Run(program).histogram, |Run(program).histogram|);
    }
  }

  /** `part2`: the text the CRT prints for every histogram entry after the first. */
  method Part2(input: seq<string>) returns (r: Option<string>)
    ensures r == Part2Spec(input)
  {
    var program := ParseProgram(input);
    if program.None? {
      return None;
    }
    var simulator := Simulate(program.value);
    var histogram := simulator.histogram;
    RunShape(program.value);
    var text := "";
    for index := 1 to |histogram|
      invariant text == Screen(histogram, index)
    {
      text := text + PrintCycle(index, histogram[index]);
    }
    return Some(text);
  }
}
