/**
 * Day 21 (src/Day21.kt): monkeys yelling numbers. Each monkey's job is either a number or
 * an operation on what two other monkeys yell. The jobs live in a mutable map from name
 * to job that is reduced to a fixed point: every pass replaces each operation whose two
 * operands are already numbers by the number it computes.
 */
module Day21 {
  import opened Utils
  import opened Text

  datatype MonkeyJob =
    | Value(name: string, value: int)
    | Operation(name: string, left: string, operation: char, right: string)

  const Root: string := "root"
  const Human: string := "humn"

  // ---------------------------------------------------------------------------
  // Parsing

  /**
   * `toMonkeyJob`: split at spaces; the first piece without its trailing `:` is the
   * name; a second piece that reads as a number makes a number job, otherwise the second,
   * third (a single character) and fourth pieces make an operation job. A missing piece
   * or an operator of another length is an error.
   */
  function ToMonkeyJob(line: string): (r: Option<MonkeyJob>)
    ensures r.Some? ==> |SplitOn(line, ' ')| >= 2
  {
    var split := SplitOn(line, ' ');
    if |split| < 2 then None
    else
      var name := RemoveSuffix(split[0], ":");
      match ParseInt(split[1])
      case Some(value) => Some(Value(name, value))
      case None =>
        if |split| < 4 || |split[2]| != 1 then None
        else Some(Operation(name, split[1], split[2][0], split[3]))
  }

  /** `toString` of the two job classes. */
  function JobText(job: MonkeyJob): string
  {
    match job
    case Value(name, value) => name + ": " + IntToString(value)
    case Operation(name, left, operation, right) => name + ": " + left + " " + [operation] + " " + right
  }

  /** A job whose text can be read back: no spaces in its names, and a left operand that is not a number. */
  ghost predicate Printable(job: MonkeyJob)
  {
    ' ' !in job.name
    && (job.Operation? ==> ' ' !in job.left && ' ' !in job.right && job.operation != ' ' && ParseInt(job.left).None?)
  }

  /** `toMonkeyJob` reads back what `toString` writes. */
  lemma ParseJobText(job: MonkeyJob)
    requires Printable(job)
    ensures ToMonkeyJob(JobText(job)) == Some(job)
  {
    match job
    case Value(name, value) => ParseValueText(name, value);
    case Operation(name, left, operation, right) => ParseOperationText(name, left, operation, right);
  }

  lemma ParseValueText(name: string, value: int)
    requires ' ' !in name
    ensures ToMonkeyJob(JobText(Value(name, value))) == Some(Value(name, value))
  {
    ValueTextSplits(name, value);
    ParseIntToString(value);
    assert RemoveSuffix(name + ":", ":") == name;
  }

  /** The text of a number job splits at its one space into the name part and the number. */
  lemma ValueTextSplits(name: string, value: int)
    requires ' ' !in name
    ensures SplitOn(JobText(Value(name, value)), ' ') == [name + ":", IntToString(value)]
  {
    var head := name + ":";
    var number := IntToString(value);
    NumberOmits(value, ' ');
    assert JobText(Value(name, value)) == Join([head, number], " ") by {
      assert [head, number][1..] == [number];
    }
    SplitJoin([head, number], ' ');
  }

  lemma ParseOperationText(name: string, left: string, operation: char, right: string)
    requires Printable(Operation(name, left, operation, right))
    ensures ToMonkeyJob(JobText(Operation(name, left, operation, right))) == Some(Operation(name, left, operation, right))
  {
    var head := name + ":";
    assert RemoveSuffix(head, ":") == name;
    var parts := [head, left, [operation], right];
    assert JobText(Operation(name, left, operation, right)) == Join(parts, " ") by {
      assert parts[1..] == [left, [operation], right];
      assert parts[1..][1..] == [[operation], right];
      assert parts[1..][1..][1..] == [right];
      calc {
        Join(parts, " ");
        head + " " + Join([left, [operation], right], " ");
        head + " " + (left + " " + Join([[operation], right], " "));
        head + " " + (left + " " + ([operation] + " " + right));
      }
    }
    assert forall i :: 0 <= i < |parts| ==> ' ' !in parts[i];
    SplitJoin(parts, ' ');
  }

  /** `map { it.toMonkeyJob() }`: every line must be a job. */
  function ParseJobs(lines: seq<string>): (r: Option<seq<MonkeyJob>>)
    ensures r.Some? <==> forall i :: 0 <= i < |lines| ==> ToMonkeyJob(lines[i]).Some?
    ensures r.Some? ==> |r.value| == |lines|
    ensures r.Some? ==> forall i :: 0 <= i < |lines| ==> ToMonkeyJob(lines[i]) == Some(r.value[i])
  {
    MapAll(ToMonkeyJob, lines)
  }

  /** A map from name to job together with the order its keys are visited in. */
  datatype JobTable = JobTable(jobs: map<string, MonkeyJob>, order: seq<string>)

  /** Each key is visited once, and each job is filed under its own name. */
  ghost predicate WellFormed(jobs: map<string, MonkeyJob>, order: seq<string>)
  {
    (forall a, b :: 0 <= a < b < |order| ==> order[a] != order[b])
    && (forall k :: k in jobs <==> k in order)
    && (forall k :: k in jobs ==> jobs[k].name == k)
  }

  /**
   * `associateBy { it.name }`: one entry per name, holding the last job of that name;
   * keys are visited in the order their names first appear.
   */
  function AssociateByName(parsed: seq<MonkeyJob>): (t: JobTable)
    ensures WellFormed(t.jobs, t.order)
    ensures forall i :: 0 <= i < |parsed| ==> parsed[i].name in t.jobs
    ensures forall k :: k in t.jobs ==> t.jobs[k] in parsed
  {
    if parsed == [] then JobTable(map[], [])
    else
      var init := parsed[..|parsed| - 1];
      var t := AssociateByName(init);
      var job := parsed[|parsed| - 1];
      FileStep(t, init, job);
      assert parsed == init + [job];
      Filing(t, job)
  }

  /** The map with `job` filed under its name, replacing an earlier job of that name. */
  function Filed(jobs: map<string, MonkeyJob>, job: MonkeyJob): map<string, MonkeyJob>
  {
    jobs[job.name := job]
  }

  /** The key order with the name of `job` added at the end if it is new. */
  function FiledOrder(jobs: map<string, MonkeyJob>, order: seq<string>, job: MonkeyJob): seq<string>
  {
    if job.name in jobs then order else order + [job.name]
  }

  /** The table with one more job filed. */
  function Filing(t: JobTable, job: MonkeyJob): JobTable
  {
    JobTable(Filed(t.jobs, job), FiledOrder(t.jobs, t.order, job))
  }

  /** Filing one more job keeps the table well formed and keeps it a table of the jobs seen. */
  lemma FileStep(t: JobTable, seen: seq<MonkeyJob>, job: MonkeyJob)
    requires WellFormed(t.jobs, t.order)
    requires forall i :: 0 <= i < |seen| ==> seen[i].name in t.jobs
    requires forall k :: k in t.jobs ==> t.jobs[k] in seen
    ensures WellFormed(Filing(t, job).jobs, Filing(t, job).order)
    ensures forall i :: 0 <= i < |seen + [job]| ==> (seen + [job])[i].name in Filing(t, job).jobs
    ensures forall k :: k in Filing(t, job).jobs ==> Filing(t, job).jobs[k] in seen + [job]
  {
    if job.name !in t.jobs {
      assert job.name !in t.order;
    }
    forall i | 0 <= i < |seen + [job]|
      ensures (seen + [job])[i].name in Filing(t, job).jobs
    {
      if i < |seen| {
        assert (seen + [job])[i] == seen[i];
      }
    }
  }

  /** A job whose name does not come again later is the one filed under its name. */
  lemma {:induction false} LastWins(parsed: seq<MonkeyJob>, i: nat)
    requires i < |parsed| && forall i' :: i < i' < |parsed| ==> parsed[i'].name != parsed[i].name
    ensures AssociateByName(parsed).jobs[parsed[i].name] == parsed[i]
    decreases |parsed|
  {
    if i < |parsed| - 1 {
      LastWins(parsed[..|parsed| - 1], i);
    }
  }

  /** `toMonkeyJobs`. */
  function ToMonkeyJobs(lines: seq<string>): (r: Option<JobTable>)
    ensures r.Some? <==> ParseJobs(lines).Some?
    ensures r.Some? ==> WellFormed(r.value.jobs, r.value.order)
  {
    match ParseJobs(lines)
    case None => None
    case Some(parsed) => Some(AssociateByName(parsed))
  }

  // ---------------------------------------------------------------------------
  // What the monkeys yell

  /** The four operators on Long: `/` truncates and fails on zero; any other character is an error. */
  function Apply(operation: char, a: int, b: int): (r: Option<int>)
    ensures r.None? <==> (operation !in {'+', '-', '*', '/'} || (operation == '/' && b == 0))
    ensures operation == '/' && b != 0 ==> r == Some(TDiv(a, b))
  {
    match operation
    case '+' => Some(a + b)
    case '-' => Some(a - b)
    case '*' => Some(a * b)
    case '/' => if b == 0 then None else Some(TDiv(a, b))
    case _ => None
  }

  /**
   * What monkey `name` yells, following at most `depth` operations deep; `None` when
   * there is no such monkey, an operand is missing or too deep, or an operation fails.
   */
  function Eval(jobs: map<string, MonkeyJob>, name: string, depth: nat): Option<int>
    decreases depth
  {
    if name !in jobs then None
    else match jobs[name]
      case Value(_, value) => Some(value)
      case Operation(_, left, operation, right) =>
        if depth == 0 then None
        else match (Eval(jobs, left, depth - 1), Eval(jobs, right, depth - 1))
          case (Some(a), Some(b)) => Apply(operation, a, b)
          case _ => None
  }

  /** Looking deeper never changes a number already found. */
  lemma {:induction false} EvalMonotone(jobs: map<string, MonkeyJob>, name: string, depth: nat, deeper: nat)
    requires depth <= deeper && Eval(jobs, name, depth).Some?
    ensures Eval(jobs, name, deeper) == Eval(jobs, name, depth)
    decreases depth
  {
    if jobs[name].Operation? {
      var job := jobs[name];
      EvalMonotone(jobs, job.left, depth - 1, deeper - 1);
      EvalMonotone(jobs, job.right, depth - 1, deeper - 1);
    }
  }

  /** More jobs never change a number already found. */
  lemma {:induction false} EvalExtend(jobs: map<string, MonkeyJob>, more: map<string, MonkeyJob>, name: string, depth: nat)
    requires forall k :: k in jobs ==> k in more && more[k] == jobs[k]
    requires Eval(jobs, name, depth).Some?
    ensures Eval(more, name, depth) == Eval(jobs, name, depth)
    decreases depth
  {
    if jobs[name].Operation? {
      var job := jobs[name];
      EvalExtend(jobs, more, job.left, depth - 1);
      EvalExtend(jobs, more, job.right, depth - 1);
    }
  }

  /** An operation job whose two operands are numbers already. */
  predicate Reducible(jobs: map<string, MonkeyJob>, job: MonkeyJob)
  {
    job.Operation? && job.left in jobs && jobs[job.left].Value? && job.right in jobs && jobs[job.right].Value?
  }

  /** No job can be reduced any further. */
  ghost predicate FixedPoint(jobs: map<string, MonkeyJob>)
  {
    forall k :: k in jobs ==> !Reducible(jobs, jobs[k])
  }

  /**
   * `jobs` came from `original` by reductions: the same names, and every job is the
   * original one or a number the original job evaluates to.
   */
  ghost predicate Sound(original: map<string, MonkeyJob>, jobs: map<string, MonkeyJob>)
  {
    jobs.Keys == original.Keys
    && forall k :: k in jobs ==>
         jobs[k] == original[k] || (jobs[k].Value? && exists d: nat :: Eval(original, k, d) == Some(jobs[k].value))
  }

  /** A job still an operation after reductions is the original job. */
  lemma SoundOperation(original: map<string, MonkeyJob>, jobs: map<string, MonkeyJob>, k: string)
    requires Sound(original, jobs) && k in jobs && jobs[k].Operation?
    ensures k in original && original[k] == jobs[k]
  {
  }

  /** Some job's operands both evaluate but its operation cannot combine them. */
  ghost predicate Fails(jobs: map<string, MonkeyJob>)
  {
    exists k, d: nat :: k in jobs && jobs[k].Operation?
      && Eval(jobs, jobs[k].left, d).Some? && Eval(jobs, jobs[k].right, d).Some?
      && Apply(jobs[k].operation, Eval(jobs, jobs[k].left, d).value, Eval(jobs, jobs[k].right, d).value).None?
  }

  /** A number in a reduced map is what its monkey evaluates to, at some depth. */
  lemma ValueDepth(original: map<string, MonkeyJob>, jobs: map<string, MonkeyJob>, k: string) returns (d: nat)
    requires Sound(original, jobs) && k in jobs && jobs[k].Value?
    ensures Eval(original, k, d) == Some(jobs[k].value)
  {
    if jobs[k] == original[k] {
      d := 0;
    } else {
      d :| Eval(original, k, d) == Some(jobs[k].value);
    }
  }

  /** Replacing a reducible original job by the number it computes keeps the map sound. */
  lemma ReduceStep(original: map<string, MonkeyJob>, jobs: map<string, MonkeyJob>, k: string, value: int)
    requires Sound(original, jobs) && k in jobs && jobs[k] == original[k] && Reducible(jobs, jobs[k])
    requires Apply(jobs[k].operation, jobs[jobs[k].left].value, jobs[jobs[k].right].value) == Some(value)
    ensures Sound(original, jobs[k := Value(k, value)])
  {
    var job := jobs[k];
    var dl := ValueDepth(original, jobs, job.left);
    var dr := ValueDepth(original, jobs, job.right);
    var d := Max2(dl, dr);
    EvalMonotone(original, job.left, dl, d);
    EvalMonotone(original, job.right, dr, d);
    assert Eval(original, k, d + 1) == Some(value);
  }

  /** A reducible original job whose operation fails shows that the original map fails. */
  lemma FailureWitness(original: map<string, MonkeyJob>, jobs: map<string, MonkeyJob>, k: string)
    requires Sound(original, jobs) && k in jobs && jobs[k] == original[k] && Reducible(jobs, jobs[k])
    requires Apply(jobs[k].operation, jobs[jobs[k].left].value, jobs[jobs[k].right].value).None?
    ensures Fails(original)
  {
    var job := jobs[k];
    var dl := ValueDepth(original, jobs, job.left);
    var dr := ValueDepth(original, jobs, job.right);
    var d := Max2(dl, dr);
    EvalMonotone(original, job.left, dl, d);
    EvalMonotone(original, job.right, dr, d);
  }

  /** At a fixed point every monkey whose number can be worked out has been reduced to it. */
  lemma {:induction false} Complete(original: map<string, MonkeyJob>, jobs: map<string, MonkeyJob>, k: string, d: nat)
    requires Sound(original, jobs) && FixedPoint(jobs) && Eval(original, k, d).Some?
    ensures k in jobs && jobs[k].Value? && jobs[k].value == Eval(original, k, d).value
    decreases d
  {
    if jobs[k] == original[k] {
      if original[k].Operation? {
        var job := original[k];
        Complete(original, jobs, job.left, d - 1);
        Complete(original, jobs, job.right, d - 1);
        assert false;
      }
    } else {
      var d' := ValueDepth(original, jobs, k);
      EvalMonotone(original, k, d, Max2(d, d'));
      EvalMonotone(original, k, d', Max2(d, d'));
    }
  }

  /** A fixed point is only reached when no job fails. */
  lemma NoFailureAtFixedPoint(original: map<string, MonkeyJob>, jobs: map<string, MonkeyJob>)
    requires Sound(original, jobs) && FixedPoint(jobs)
    ensures !Fails(original)
  {
    if Fails(original) {
      var k, d: nat :| k in original && original[k].Operation?
        && Eval(original, original[k].left, d).Some? && Eval(original, original[k].right, d).Some?
        && Apply(original[k].operation, Eval(original, original[k].left, d).value,
                 Eval(original, original[k].right, d).value).None?;
      var job := original[k];
      Complete(original, jobs, job.left, d);
      Complete(original, jobs, job.right, d);
      if jobs[k] != job {
        var d' := ValueDepth(original, jobs, k);
        EvalMonotone(original, job.left, d, Max2(d, d' - 1));
        EvalMonotone(original, job.right, d, Max2(d, d' - 1));
        EvalMonotone(original, job.left, d' - 1, Max2(d, d' - 1));
        EvalMonotone(original, job.right, d' - 1, Max2(d, d' - 1));
      }
    }
  }

  // ---------------------------------------------------------------------------
  // The reduction

  /** The number of operation jobs among `order`. */
  function OperationCount(jobs: map<string, MonkeyJob>, order: seq<string>): nat
    requires forall k :: k in order ==> k in jobs
  {
    if order == [] then 0
    else OperationCount(jobs, order[..|order| - 1]) + (if jobs[order[|order| - 1]].Operation? then 1 else 0)
  }

  /** Turning one operation into a number lowers the count by one. */
  /** Replacing a job by a number job of the same name keeps the table well formed and removes one operation job. */
  lemma ReplaceKeepsWellFormed(jobs: map<string, MonkeyJob>, order: seq<string>, k: string, value: int)
    requires WellFormed(jobs, order) && k in jobs && jobs[k].Operation?
    ensures WellFormed(jobs[k := Value(k, value)], order)
    ensures OperationCount(jobs[k := Value(k, value)], order) == OperationCount(jobs, order) - 1
  {
    ReplaceLowersCount(jobs, order, k, Value(k, value));
  }

  lemma {:induction false} ReplaceLowersCount(jobs: map<string, MonkeyJob>, order: seq<string>, k: string, value: MonkeyJob)
    requires forall k :: k in order ==> k in jobs
    requires forall a, b :: 0 <= a < b < |order| ==> order[a] != order[b]
    requires k in jobs && jobs[k].Operation? && value.Value?
    ensures OperationCount(jobs[k := value], order) == OperationCount(jobs, order) - (if k in order then 1 else 0)
    decreases |order|
  {
    if order != [] {
      var init := order[..|order| - 1];
      ReplaceLowersCount(jobs, init, k, value);
      assert k in order <==> k in init || k == order[|order| - 1];
      if k == order[|order| - 1] {
        assert k !in init;
      }
    }
  }

  /** `values.filterIsInstance<OperationMonkeyJob>()`: the operation jobs, in key order. */
  function OperationJobs(jobs: map<string, MonkeyJob>, order: seq<string>): (pending: seq<MonkeyJob>)
    requires forall k :: k in order ==> k in jobs && jobs[k].name == k
    requires forall a, b :: 0 <= a < b < |order| ==> order[a] != order[b]
    ensures forall t :: 0 <= t < |pending| ==>
      pending[t].Operation? && pending[t].name in order && jobs[pending[t].name] == pending[t]
    ensures forall k :: k in order && jobs[k].Operation? ==> jobs[k] in pending
    ensures forall a, b :: 0 <= a < b < |pending| ==> pending[a].name != pending[b].name
  {
    if order == [] then []
    else
      var init := order[..|order| - 1];
      var last := order[|order| - 1];
      var pending := OperationJobs(jobs, init);
      assert forall k :: k in order ==> k in init || k == last;
      assert forall t :: 0 <= t < |pending| ==> pending[t].name != last;
      if jobs[last].Operation? then pending + [jobs[last]] else pending
  }

  /** The jobs of `pending` from `i` on are still filed unchanged. */
  ghost predicate StillPending(jobs: map<string, MonkeyJob>, pending: seq<MonkeyJob>, i: nat)
  {
    forall t :: i <= t < |pending| ==> pending[t].name in jobs && jobs[pending[t].name] == pending[t]
  }

  /** No job of `pending` before `i` can be reduced. */
  ghost predicate Settled(jobs: map<string, MonkeyJob>, pending: seq<MonkeyJob>, i: nat)
  {
    forall t :: 0 <= t < i && t < |pending| ==> !Reducible(jobs, pending[t])
  }

  /** Replacing the `i`-th pending job leaves the later ones, which have other names, filed. */
  lemma StillPendingAfter(jobs: map<string, MonkeyJob>, pending: seq<MonkeyJob>, i: nat, value: MonkeyJob)
    requires i < |pending| && StillPending(jobs, pending, i)
    requires forall a, b :: 0 <= a < b < |pending| ==> pending[a].name != pending[b].name
    ensures StillPending(jobs[pending[i].name := value], pending, i + 1)
  {
    forall t | i + 1 <= t < |pending|
      ensures pending[t].name in jobs[pending[i].name := value]
      ensures jobs[pending[i].name := value][pending[t].name] == pending[t]
    {
      assert pending[i].name != pending[t].name;
    }
  }

  /** `order` without `name`. */
  function Without(order: seq<string>, name: string): (r: seq<string>)
    requires forall a, b :: 0 <= a < b < |order| ==> order[a] != order[b]
    ensures forall k :: k in r <==> k in order && k != name
    ensures forall a, b :: 0 <= a < b < |r| ==> r[a] != r[b]
  {
    if order == [] then []
    else
      var init := Without(order[..|order| - 1], name);
      var last := order[|order| - 1];
      assert forall k :: k in order <==> k in order[..|order| - 1] || k == last;
      assert last !in order[..|order| - 1];
      if last == name then init else init + [last]
  }

  /** The `MutableMap<String, MonkeyJob>` the puzzle works on, with its key order. */
  class MonkeyJobs {
    var jobs: map<string, MonkeyJob>
    var order: seq<string>

    ghost predicate Valid()
      reads this
    {
      WellFormed(jobs, order)
    }

    /** `toMutableMap()`. */
    constructor(table: JobTable)
      requires WellFormed(table.jobs, table.order)
      ensures Valid() && jobs == table.jobs && order == table.order
    {
      jobs := table.jobs;
      order := table.order;
    }

    /** `remove(name)`: the job filed under `name`, if any, taken out. */
    method Remove(name: string) returns (removed: Option<MonkeyJob>)
      requires Valid()
      modifies this
      ensures Valid() && jobs == old(jobs) - {name} && order == Without(old(order), name)
      ensures removed == if name in old(jobs) then Some(old(jobs)[name]) else None
    {
      removed := if name in jobs then Some(jobs[name]) else None;
      jobs := jobs - {name};
      order := Without(order, name);
    }

    /**
     * One step of a pass: an operation job whose operands are both numbers is replaced by
     * the number it computes (`replaced`); an operation that cannot be applied fails.
     */
    method ReduceJob(job: MonkeyJob, ghost original: map<string, MonkeyJob>) returns (replaced: bool, ok: bool)
      requires Valid() && Sound(original, jobs)
      requires job.Operation? && job.name in jobs && jobs[job.name] == job && original[job.name] == job
      modifies this
      ensures Valid() && order == old(order) && Sound(original, jobs)
      ensures !ok ==> Fails(original)
      ensures ok && !replaced ==> jobs == old(jobs) && !Reducible(jobs, job)
      ensures replaced ==> ok && jobs[job.name].Value? && jobs == old(jobs)[job.name := jobs[job.name]]
      ensures replaced ==> OperationCount(jobs, order) == OperationCount(old(jobs), order) - 1
    {
      var left := if job.left in jobs then Some(jobs[job.left]) else None;
      var right := if job.right in jobs then Some(jobs[job.right]) else None;
      if left.Some? && left.value.Value? && right.Some? && right.value.Value? {
        var value := Apply(job.operation, left.value.value, right.value.value);
        if value.None? {
          FailureWitness(original, jobs, job.name);
          return false, false;
        }
        ReduceStep(original, jobs, job.name, value.value);
        ReplaceKeepsWellFormed(jobs, order, job.name, value.value);
        jobs := jobs[job.name := Value(job.name, value.value)];
        return true, true;
      }
      return false, true;
    }

    /**
     * One pass: every operation job, in key order, gets its step. A pass that replaces
     * nothing has reached a fixed point; one that does leaves fewer operation jobs.
     */
    method ReducePass(ghost original: map<string, MonkeyJob>) returns (didReduce: bool, ok: bool)
      requires Valid() && Sound(original, jobs)
      modifies this
      ensures Valid() && order == old(order) && Sound(original, jobs)
      ensures !ok ==> Fails(original)
      ensures ok && !didReduce ==> FixedPoint(jobs) && jobs == old(jobs)
      ensures ok && didReduce ==> OperationCount(jobs, order) < OperationCount(old(jobs), order)
    {
      didReduce, ok := false, true;
      ghost var passStart := jobs;
      var pending := OperationJobs(jobs, order);
      assert forall t :: 0 <= t < |pending| ==> original[pending[t].name] == pending[t];
      assert StillPending(jobs, pending, 0);
      for i := 0 to |pending|
        invariant Valid() && order == old(order) && Sound(original, jobs)
        invariant StillPending(jobs, pending, i)
        invariant !didReduce ==> jobs == passStart && Settled(passStart, pending, i)
        invariant OperationCount(jobs, order) + (if didReduce then 1 else 0) <= OperationCount(passStart, order)
      {
        ghost var before := jobs;
        var replaced;
        replaced, ok := ReduceJob(pending[i], original);
        if !ok {
          return;
        }
        if replaced {
          didReduce := true;
          StillPendingAfter(before, pending, i, jobs[pending[i].name]);
        } else {
          assert jobs == before;
          if !didReduce {
            assert !Reducible(passStart, pending[i]);
            assert Settled(passStart, pending, i + 1);
          }
        }
      }
    }

    /**
     * `reduce`: pass after pass over the operation jobs, each replaced by its number once
     * both operands are numbers, until a pass replaces nothing. An operation that cannot
     * be applied stops it with `ok == false`.
     */
    method Reduce() returns (ok: bool)
      requires Valid()
      modifies this
      ensures Valid() && order == old(order)
      ensures Sound(old(jobs), jobs)
      ensures ok ==> FixedPoint(jobs)
      ensures ok <==> !Fails(old(jobs))
    {
      ghost var original := jobs;
      ok := true;
      var didReduce := true;
      while didReduce
        invariant Valid() && order == old(order) && Sound(original, jobs)
        invariant !didReduce ==> FixedPoint(jobs)
        decreases OperationCount(jobs, order) + (if didReduce then 1 else 0)
      {
        didReduce, ok := ReducePass(original);
        if !ok {
          return;
        }
      }
      NoFailureAtFixedPoint(original, jobs);
    }
  }

  // ---------------------------------------------------------------------------
  // Part 1

  /** Monkey `name` yells some number. */
  ghost predicate Evaluable(jobs: map<string, MonkeyJob>, name: string)
  {
    exists d: nat :: Eval(jobs, name, d).Some?
  }

  /**
   * `part1`: reduce and read `root`, which must have become a number: exactly when
   * every line parses, no operation fails and `root` evaluates, and then to its number.
   */
  method Part1(input: seq<string>) returns (r: Option<int>)
    ensures r.Some? <==> ToMonkeyJobs(input).Some? && !Fails(ToMonkeyJobs(input).value.jobs)
                         && Evaluable(ToMonkeyJobs(input).value.jobs, Root)
    ensures r.Some? ==> exists d: nat :: Eval(ToMonkeyJobs(input).value.jobs, Root, d) == Some(r.value)
  {
    var table := ToMonkeyJobs(input);
    if table.None? {
      return None;
    }
    var jobs := new MonkeyJobs(table.value);
    var ok := jobs.Reduce();
    if !ok {
      return None;
    }
    if Root in jobs.jobs && jobs.jobs[Root].Value? {
      r := Some(jobs.jobs[Root].value);
      var d := ValueDepth(table.value.jobs, jobs.jobs, Root);
    } else {
      r := None;
      if Evaluable(table.value.jobs, Root) {
        var d: nat :| Eval(table.value.jobs, Root, d).Some?;
        Complete(table.value.jobs, jobs.jobs, Root, d);
      }
    }
  }

  // ---------------------------------------------------------------------------
  // Part 2

  /** The right-hand side of the equation: numbers, missing monkeys (`x`) and operations. */
  datatype Expr =
    | Number(value: int)
    | Unknown(name: string)
    | Combined(left: Expr, operation: char, right: Expr)

  /** The text of an expression: operations in parentheses, missing monkeys as `x`. */
  function Render(e: Expr): string
  {
    match e
    case Number(value) => IntToString(value)
    case Unknown(_) => "x"
    case Combined(left, operation, right) => "(" + Render(left) + [operation] + Render(right) + ")"
  }

  /** The value of an expression when `humn` yells `h`; any other missing monkey has none. */
  function EvalExpr(e: Expr, h: int): Option<int>
  {
    match e
    case Number(value) => Some(value)
    case Unknown(name) => if name == Human then Some(h) else None
    case Combined(left, operation, right) =>
      match (EvalExpr(left, h), EvalExpr(right, h))
      case (Some(a), Some(b)) => Apply(operation, a, b)
      case _ => None
  }

  /** The expression of monkey `name`, at most `fuel` operations deep. */
  function Term(jobs: map<string, MonkeyJob>, name: string, fuel: nat): Option<Expr>
    decreases fuel
  {
    if name !in jobs then Some(Unknown(name))
    else match jobs[name]
      case Value(_, value) => Some(Number(value))
      case Operation(_, left, operation, right) =>
        if fuel == 0 then None
        else match (Term(jobs, left, fuel - 1), Term(jobs, right, fuel - 1))
          case (Some(a), Some(b)) => Some(Combined(a, operation, b))
          case _ => None
  }

  /**
   * `traverse`: the text the string builder receives for an operation job, `(`, each
   * operand (a number, the operand's own traversal, or `x` when it is missing), `)`;
   * at most `fuel` operations deep.
   */
  function Traverse(jobs: map<string, MonkeyJob>, job: MonkeyJob, fuel: nat): Option<string>
    requires job.Operation?
    decreases fuel
  {
    if fuel == 0 then None
    else
      var left :=
        if job.left !in jobs then Some("x")
        else match jobs[job.left]
          case Value(_, value) => Some(IntToString(value))
          case Operation(_, _, _, _) => Traverse(jobs, jobs[job.left], fuel - 1);
      var right :=
        if job.right !in jobs then Some("x")
        else match jobs[job.right]
          case Value(_, value) => Some(IntToString(value))
          case Operation(_, _, _, _) => Traverse(jobs, jobs[job.right], fuel - 1);
      match (left, right)
      case (Some(l), Some(r)) => Some("(" + l + [job.operation] + r + ")")
      case _ => None
  }

  /** The traversal writes the expression of the job. */
  lemma {:induction false} TraverseRenders(jobs: map<string, MonkeyJob>, k: string, fuel: nat)
    requires k in jobs && jobs[k].Operation?
    ensures Traverse(jobs, jobs[k], fuel).Some? <==> Term(jobs, k, fuel).Some?
    ensures Traverse(jobs, jobs[k], fuel).Some? ==> Traverse(jobs, jobs[k], fuel).value == Render(Term(jobs, k, fuel).value)
    decreases fuel
  {
    if fuel > 0 {
      var job := jobs[k];
      if job.left in jobs && jobs[job.left].Operation? {
        TraverseRenders(jobs, job.left, fuel - 1);
      }
      if job.right in jobs && jobs[job.right].Operation? {
        TraverseRenders(jobs, job.right, fuel - 1);
      }
    }
  }

  /** The jobs with `humn` yelling `h`. */
  function WithHuman(jobs: map<string, MonkeyJob>, h: int): map<string, MonkeyJob>
  {
    jobs[Human := Value(Human, h)]
  }

  /** With `humn` yelling `h`, monkey `name` yells `v`. */
  ghost predicate Yells(jobs: map<string, MonkeyJob>, name: string, h: int, v: int)
  {
    exists d: nat :: Eval(WithHuman(jobs, h), name, d) == Some(v)
  }

  /**
   * The expression of a monkey in the map reduced without `humn`, with `x` read as what
   * `humn` yells, is what that monkey yells.
   */
  lemma {:induction false} TermMeaning(jobs: map<string, MonkeyJob>, reduced: map<string, MonkeyJob>,
                                       k: string, fuel: nat, h: int) returns (d: nat)
    requires Sound(jobs - {Human}, reduced)
    requires Term(reduced, k, fuel).Some? && EvalExpr(Term(reduced, k, fuel).value, h).Some?
    ensures Eval(WithHuman(jobs, h), k, d) == EvalExpr(Term(reduced, k, fuel).value, h)
    decreases fuel
  {
    var without := jobs - {Human};
    var with := WithHuman(jobs, h);
    assert forall n :: n in without ==> n in with && with[n] == without[n];
    if k !in reduced {
      d := 0;
    } else if reduced[k].Value? {
      d := ValueDepth(without, reduced, k);
      EvalExtend(without, with, k, d);
    } else {
      var job := reduced[k];
      var dl := TermMeaning(jobs, reduced, job.left, fuel - 1, h);
      var dr := TermMeaning(jobs, reduced, job.right, fuel - 1, h);
      d := Max2(dl, dr) + 1;
      EvalMonotone(with, job.left, dl, d - 1);
      EvalMonotone(with, job.right, dr, d - 1);
    }
  }

  /**
   * In the map reduced without `humn`, a monkey reduced to `solved` yells `solved` whatever
   * `humn` yells, and one with an expression yells what the expression computes.
   */
  lemma EquationMeaning(jobs: map<string, MonkeyJob>, reduced: map<string, MonkeyJob>,
                        solvedName: string, solved: int, openName: string, fuel: nat)
    requires Sound(jobs - {Human}, reduced)
    requires solvedName in reduced && reduced[solvedName] == Value(solvedName, solved)
    requires Term(reduced, openName, fuel).Some?
    ensures forall h :: Yells(jobs, solvedName, h, solved)
    ensures forall h, v :: EvalExpr(Term(reduced, openName, fuel).value, h) == Some(v) ==> Yells(jobs, openName, h, v)
  {
    forall h
      ensures Yells(jobs, solvedName, h, solved)
    {
      var d := TermMeaning(jobs, reduced, solvedName, 0, h);
    }
    forall h, v | EvalExpr(Term(reduced, openName, fuel).value, h) == Some(v)
      ensures Yells(jobs, openName, h, v)
    {
      var d := TermMeaning(jobs, reduced, openName, fuel, h);
    }
  }

  /**
   * `part2`: take `humn` out (it must be a number job), reduce, and write the equation
   * `solved=expression` for the two operands of `root`, one reduced to a number and one
   * still an operation. Whatever `humn` yells, the solved operand yells `solved`; and
   * reading `x` as what `humn` yells, the expression is what the other operand yells.
   */
  method Part2(input: seq<string>) returns (equation: Option<string>, ghost solvedName: string,
                                            ghost openName: string, ghost solved: int, ghost expression: Expr)
    ensures ToMonkeyJobs(input).None? ==> equation.None?
    ensures ToMonkeyJobs(input).Some? ==>
      (Human !in ToMonkeyJobs(input).value.jobs || !ToMonkeyJobs(input).value.jobs[Human].Value?) ==> equation.None?
    ensures equation.Some? ==>
      var jobs := ToMonkeyJobs(input).value.jobs;
      Root in jobs && jobs[Root].Operation?
      && ((solvedName == jobs[Root].left && openName == jobs[Root].right)
          || (solvedName == jobs[Root].right && openName == jobs[Root].left))
      && equation.value == IntToString(solved) + "=" + Render(expression)
      && (forall h :: Yells(jobs, solvedName, h, solved))
      && (forall h, v :: EvalExpr(expression, h) == Some(v) ==> Yells(jobs, openName, h, v))
  {
    solvedName, openName, solved, expression := "", "", 0, Unknown("");
    var table := ToMonkeyJobs(input);
    if table.None? {
      return None, solvedName, openName, solved, expression;
    }
    var jobs := new MonkeyJobs(table.value);
    var human := jobs.Remove(Human);
    if human.None? || !human.value.Value? {
      return None, solvedName, openName, solved, expression;
    }
    ghost var without := jobs.jobs;
    var ok := jobs.Reduce();
    if !ok || Root !in jobs.jobs || !jobs.jobs[Root].Operation? {
      return None, solvedName, openName, solved, expression;
    }
    var root := jobs.jobs[Root];
    var left := if root.left in jobs.jobs then Some(jobs.jobs[root.left]) else None;
    var right := if root.right in jobs.jobs then Some(jobs.jobs[root.right]) else None;
    var open;
    if left.Some? && left.value.Operation? {
      open := left.value;
    } else if right.Some? && right.value.Operation? {
      open := right.value;
    } else {
      return None, solvedName, openName, solved, expression;
    }
    var solvedJob;
    if left.Some? && left.value.Value? {
      solvedJob := left.value;
    } else if right.Some? && right.value.Value? {
      solvedJob := right.value;
    } else {
      return None, solvedName, openName, solved, expression;
    }
    var text := Traverse(jobs.jobs, open, |jobs.jobs|);
    if text.None? {
      return None, solvedName, openName, solved, expression;
    }
    equation := Some(IntToString(solvedJob.value) + "=" + text.value);

    solvedName, openName, solved := solvedJob.name, open.name, solvedJob.value;
    TraverseRenders(jobs.jobs, openName, |jobs.jobs|);
    expression := Term(jobs.jobs, openName, |jobs.jobs|).value;
    var all := table.value.jobs;
    assert without == all - {Human};
    SoundOperation(without, jobs.jobs, Root);
    assert all[Root] == root;
    EquationMeaning(all, jobs.jobs, solvedName, solved, openName, |jobs.jobs|);
  }
}
