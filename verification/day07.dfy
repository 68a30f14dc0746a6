/**
 * Day 7 (src/Day07.kt): a terminal log of `cd` and `ls` commands is replayed into a
 * directory tree. Part 1 sums the sizes of the directories of at most 100000, part 2
 * finds the smallest directory whose deletion frees enough space for an update.
 */
module Day07 {
  import opened Utils
  import opened Text

  /** `SystemNode`: a file with its size, or a directory with its children. */
  datatype Node = File(name: string, size: int) | Directory(name: string, children: seq<Node>)

  /** A directory's size is the sum of its children's sizes. */
  function Size(n: Node): int
    decreases n, 1
  {
    match n
    case File(_, s) => s
    case Directory(_, children) => SizeAll(children)
  }

  function SizeAll(nodes: seq<Node>): int
    decreases nodes, 0
  {
    if nodes == [] then 0 else SizeAll(nodes[..|nodes| - 1]) + Size(nodes[|nodes| - 1])
  }

  lemma {:induction false} SizeAllConcat(a: seq<Node>, b: seq<Node>)
    ensures SizeAll(a + b) == SizeAll(a) + SizeAll(b)
    decreases |b|
  {
    if b == [] {
      assert a + b == a;
    } else {
      assert (a + b)[..|a + b| - 1] == a + b[..|b| - 1];
      assert (a + b)[|a + b| - 1] == b[|b| - 1];
      SizeAllConcat(a, b[..|b| - 1]);
    }
  }

  // ---------------------------------------------------------------------------
  // Replaying the log

  /** The state of `toSystem`: the open path and, per open directory, the children seen so far. */
  datatype Builder = Builder(path: seq<string>, stack: seq<seq<Node>>)
  {
    predicate Valid()
    {
      |path| == |stack| && |stack| >= 1
    }
  }

  /** Both start with the root: path [""] and one empty list of children. */
  const Start := Builder([""], [[]])

  datatype Command = ChangeDirectory(target: string) | List

  /** `toSystemCommand`: `$ ls` or `$ cd target`; anything else is an error. */
  function ToCommand(line: string): (r: Option<Command>)
    ensures r.Some? ==> |SplitOn(line, ' ')| >= 2
    ensures r == Some(List) <==> |SplitOn(line, ' ')| >= 2 && SplitOn(line, ' ')[1] == "ls"
  {
    var parts := SplitOn(line, ' ');
    if |parts| < 2 then None
    else if parts[1] == "ls" then Some(List)
    else if parts[1] == "cd" then (if |parts| < 3 then None else Some(ChangeDirectory(parts[2])))
    else None
  }

  predicate IsCommand(line: string)
  {
    StartsWith(line, "$")
  }

  /** A listing line that names a file: "size name"; `dir` lines are skipped. */
  function ToFile(line: string): (r: Option<Node>)
    ensures r.Some? ==> r.value.File?
  {
    var parts := SplitOn(line, ' ');
    if |parts| < 2 then None
    else match ParseInt(parts[0])
      case Some(size) => Some(File(parts[1], size))
      case None => None
  }

  /** Closes the innermost open directory: it becomes a child of its parent, named by the joined path. */
  function CloseDirectory(b: Builder): (r: Builder)
    requires b.Valid() && |b.stack| >= 2
    ensures r.Valid() && |r.stack| == |b.stack| - 1
  {
    var k := |b.stack|;
    var dir := Directory(Join(b.path, "/"), b.stack[k - 1]);
    Builder(b.path[..k - 1], b.stack[..k - 2] + [b.stack[k - 2] + [dir]])
  }

  /** One line of the log. */
  function Step(b: Builder, line: string): (r: Option<Builder>)
    requires b.Valid()
    ensures r.Some? ==> r.value.Valid()
  {
    if IsCommand(line) then
      match ToCommand(line)
      case None => None
      case Some(List) => Some(b)
      case Some(ChangeDirectory(target)) =>
        if target == ".." then
          (if |b.stack| < 2 then None else Some(CloseDirectory(b)))
        else Some(Builder(b.path + [target], b.stack + [[]]))
    else if StartsWith(line, "dir") then Some(b)
    else match ToFile(line)
      case None => None
      case Some(file) => Some(Builder(b.path, b.stack[..|b.stack| - 1] + [b.stack[|b.stack| - 1] + [file]]))
  }

  function Replay(b: Builder, lines: seq<string>): (r: Option<Builder>)
    requires b.Valid()
    ensures r.Some? ==> r.value.Valid()
  {
    if lines == [] then Some(b)
    else match Replay(b, lines[..|lines| - 1])
      case None => None
      case Some(c) => Step(c, lines[|lines| - 1])
  }

  /** The closing `while (pathSegments.size > 1)` loop. */
  function Unwind(b: Builder): (r: Builder)
    requires b.Valid()
    ensures r.Valid() && |r.stack| == 1
    decreases |b.stack|
  {
    if |b.stack| == 1 then b else Unwind(CloseDirectory(b))
  }

  /** `toSystem`: the first line (the initial `cd /`) is skipped. */
  function System(lines: seq<string>): Option<Node>
  {
    match Replay(Start, if |lines| == 0 then [] else lines[1..])
    case None => None
    case Some(b) => Some(Directory("/", Unwind(b).stack[0]))
  }

  /** `toSystem` with the source's mutable path list and stack of children lists. */
  method ToSystem(lines: seq<string>) returns (r: Option<Node>)
    ensures r == System(lines)
  {
    var pathSegments: seq<string> := [""];
    var childrenStack: seq<seq<Node>> := [[]];
    var log := if |lines| == 0 then [] else lines[1..];
    for i := 0 to |log|
      invariant Replay(Start, log[..i]) == Some(Builder(pathSegments, childrenStack))
    {
      assert log[..i + 1][..i] == log[..i];
      assert log[..i + 1][i] == log[i];
      var line := log[i];
      assert Replay(Start, log[..i + 1]) == Step(Builder(pathSegments, childrenStack), line);
      if IsCommand(line) {
        var cmd := ToCommand(line);
        if cmd.None? {
          ReplayFails(Start, log, i);
          return None;
        }
        if cmd.value.ChangeDirectory? {
          if cmd.value.target == ".." {
            if |childrenStack| < 2 {
              ReplayFails(Start, log, i);
              return None;
            }
            pathSegments, childrenStack := CloseTop(pathSegments, childrenStack);
          } else {
            childrenStack := childrenStack + [[]];
            pathSegments := pathSegments + [cmd.value.target];
          }
        }
      } else if !StartsWith(line, "dir") {
        var file := ToFile(line);
        if file.None? {
          ReplayFails(Start, log, i);
          return None;
        }
        childrenStack := childrenStack[..|childrenStack| - 1] +
          [childrenStack[|childrenStack| - 1] + [file.value]];
      }
    }
    assert log[..|log|] == log;
    while |pathSegments| > 1
      invariant Builder(pathSegments, childrenStack).Valid()
      invariant Replay(Start, log).Some?
      invariant Unwind(Builder(pathSegments, childrenStack)) == Unwind(Replay(Start, log).value)
      decreases |pathSegments|
    {
      pathSegments, childrenStack := CloseTop(pathSegments, childrenStack);
    }
    r := Some(Directory("/", childrenStack[0]));
  }

  /** `cd ..` and the closing loop: pop the innermost children, add them to the parent as a directory, pop the path. */
  method CloseTop(pathSegments: seq<string>, childrenStack: seq<seq<Node>>)
    returns (path: seq<string>, stack: seq<seq<Node>>)
    requires Builder(pathSegments, childrenStack).Valid() && |childrenStack| >= 2
    ensures Builder(path, stack) == CloseDirectory(Builder(pathSegments, childrenStack))
  {
    var children := childrenStack[|childrenStack| - 1];
    stack := childrenStack[..|childrenStack| - 1];
    var parent := stack[|stack| - 1];
    stack := stack[..|stack| - 1] + [parent + [Directory(Join(pathSegments, "/"), children)]];
    path := pathSegments[..|pathSegments| - 1];
    assert childrenStack[..|childrenStack| - 1][..|childrenStack| - 2] == childrenStack[..|childrenStack| - 2];
  }

  /** A failing line fails the whole replay. */
  lemma {:induction false} ReplayFails(b: Builder, lines: seq<string>, i: nat)
    requires b.Valid() && i < |lines| && Replay(b, lines[..i]).Some?
    requires Step(Replay(b, lines[..i]).value, lines[i]).None?
    ensures Replay(b, lines).None?
    decreases |lines|
  {
    if i + 1 < |lines| {
      assert lines[..|lines| - 1][..i] == lines[..i];
      assert lines[..|lines| - 1][i] == lines[i];
      ReplayFails(b, lines[..|lines| - 1], i);
    } else {
      assert lines[..|lines| - 1] == lines[..i];
    }
  }

  // ---------------------------------------------------------------------------
  // Sizes are preserved by the replay

  /** All children collected on the stack, at every level. */
  function StackSize(stack: seq<seq<Node>>): int
  {
    if stack == [] then 0 else StackSize(stack[..|stack| - 1]) + SizeAll(stack[|stack| - 1])
  }

  /** The size of the file a listing line names, 0 for commands and `dir` lines. */
  function LineSize(line: string): int
  {
    if IsCommand(line) || StartsWith(line, "dir") then 0
    else match ToFile(line)
      case Some(f) => f.size
      case None => 0
  }

  function FileTotal(lines: seq<string>): int
  {
    if lines == [] then 0 else FileTotal(lines[..|lines| - 1]) + LineSize(lines[|lines| - 1])
  }

  /** Closing a directory moves its children into the parent without changing the total. */
  lemma CloseDirectoryKeepsSize(b: Builder)
    requires b.Valid() && |b.stack| >= 2
    ensures StackSize(CloseDirectory(b).stack) == StackSize(b.stack)
  {
    var k := |b.stack|;
    var s := b.stack;
    var dir := Directory(Join(b.path, "/"), s[k - 1]);
    var t := s[..k - 2] + [s[k - 2] + [dir]];
    assert t[..|t| - 1] == s[..k - 2];
    assert s[..k - 1][..k - 2] == s[..k - 2];
    SizeAllConcat(s[k - 2], [dir]);
    assert SizeAll([dir]) == Size(dir) by {
      assert [dir][..0] == [];
    }
  }

  /** Each line adds its file's size to the total held on the stack. */
  lemma StepKeepsSize(b: Builder, line: string)
    requires b.Valid() && Step(b, line).Some?
    ensures StackSize(Step(b, line).value.stack) == StackSize(b.stack) + LineSize(line)
  {
    if IsCommand(line) {
      var cmd := ToCommand(line).value;
      if cmd.ChangeDirectory? {
        if cmd.target == ".." {
          CloseDirectoryKeepsSize(b);
        } else {
          EnterKeepsSize(b);
        }
      }
    } else if !StartsWith(line, "dir") {
      FileKeepsSize(b, ToFile(line).value);
    }
  }

  /** `cd <dir>` pushes an empty list of children, which adds nothing. */
  lemma EnterKeepsSize(b: Builder)
    requires b.Valid()
    ensures StackSize(b.stack + [[]]) == StackSize(b.stack)
  {
    assert (b.stack + [[]])[..|b.stack|] == b.stack;
  }

  /** A file line adds the file to the innermost directory, and its size to the total. */
  lemma FileKeepsSize(b: Builder, file: Node)
    requires b.Valid()
    ensures StackSize(b.stack[..|b.stack| - 1] + [b.stack[|b.stack| - 1] + [file]]) == StackSize(b.stack) + Size(file)
  {
    var s := b.stack;
    var k := |s|;
    var t := s[..k - 1] + [s[k - 1] + [file]];
    assert t[..k - 1] == s[..k - 1];
    SizeAllConcat(s[k - 1], [file]);
    assert SizeAll([file]) == Size(file) by {
      assert [file][..0] == [];
    }
  }

  lemma {:induction false} ReplayKeepsSize(b: Builder, lines: seq<string>)
    requires b.Valid() && Replay(b, lines).Some?
    ensures StackSize(Replay(b, lines).value.stack) == StackSize(b.stack) + FileTotal(lines)
  {
    if lines != [] {
      ReplayKeepsSize(b, lines[..|lines| - 1]);
      StepKeepsSize(Replay(b, lines[..|lines| - 1]).value, lines[|lines| - 1]);
    }
  }

  lemma {:induction false} UnwindKeepsSize(b: Builder)
    requires b.Valid()
    ensures StackSize(Unwind(b).stack) == StackSize(b.stack)
    decreases |b.stack|
  {
    if |b.stack| > 1 {
      CloseDirectoryKeepsSize(b);
      UnwindKeepsSize(CloseDirectory(b));
    }
  }

  /** The root's size is the sum of the sizes of every file line in the log. */
  lemma RootSizeIsFileTotal(lines: seq<string>)
    requires System(lines).Some?
    ensures Size(System(lines).value) == FileTotal(if |lines| == 0 then [] else lines[1..])
  {
    var log := if |lines| == 0 then [] else lines[1..];
    var b := Replay(Start, log).value;
    ReplayKeepsSize(Start, log);
    UnwindKeepsSize(b);
    var u := Unwind(b);
    assert u.stack[..0] == [];
    assert StackSize(Start.stack) == 0 by {
      assert Start.stack[..0] == [];
    }
  }

  /** `cd` into a directory opens a level on both stacks, `cd ..` closes one, other lines keep the depth. */
  lemma StepDepth(b: Builder, line: string)
    requires b.Valid() && Step(b, line).Some?
    ensures var c := Step(b, line).value;
      |c.stack| == |b.stack| + (if IsCommand(line) && ToCommand(line).value.ChangeDirectory? then
        (if ToCommand(line).value.target == ".." then -1 else 1) else 0)
  {
  }

  // ---------------------------------------------------------------------------
  // Walking the tree

  /** The number of nodes in a tree: the node itself and everything below it. */
  function NodeCount(n: Node): nat
    decreases n, 1
  {
    match n
    case File(_, _) => 1
    case Directory(_, children) => 1 + NodeCountAll(children)
  }

  function NodeCountAll(nodes: seq<Node>): nat
    decreases nodes, 0
  {
    if nodes == [] then 0 else NodeCountAll(nodes[..|nodes| - 1]) + NodeCount(nodes[|nodes| - 1])
  }

  /**
   * `flatmap`: the node itself, then its children in order, directories walked
   * recursively; every node of the tree is met exactly once.
   */
  function Flatmap(n: Node): (r: seq<Node>)
    ensures |r| == NodeCount(n) && r[0] == n
    decreases n, 1
  {
    match n
    case File(_, _) => [n]
    case Directory(_, children) => [n] + FlatmapAll(children)
  }

  function FlatmapAll(nodes: seq<Node>): (r: seq<Node>)
    ensures |r| == NodeCountAll(nodes)
    decreases nodes, 0
  {
    if nodes == [] then [] else FlatmapAll(nodes[..|nodes| - 1]) + Flatmap(nodes[|nodes| - 1])
  }

  /** The sum of the file sizes met by the walk. */
  function FileSizes(nodes: seq<Node>): int
  {
    if nodes == [] then 0
    else FileSizes(nodes[..|nodes| - 1]) + (if nodes[|nodes| - 1].File? then nodes[|nodes| - 1].size else 0)
  }

  lemma {:induction false} FileSizesConcat(a: seq<Node>, b: seq<Node>)
    ensures FileSizes(a + b) == FileSizes(a) + FileSizes(b)
    decreases |b|
  {
    if b == [] {
      assert a + b == a;
    } else {
      assert (a + b)[..|a + b| - 1] == a + b[..|b| - 1];
      assert (a + b)[|a + b| - 1] == b[|b| - 1];
      FileSizesConcat(a, b[..|b| - 1]);
    }
  }

  /** The walk meets every file exactly once: a node's size is the total of the files it yields. */
  lemma {:induction false} SizeIsFilesOfWalk(n: Node)
    ensures Size(n) == FileSizes(Flatmap(n))
    decreases n, 1
  {
    match n
    case File(_, _) =>
      assert [n][..0] == [];
    case Directory(_, children) =>
      SizeAllIsFilesOfWalk(children);
      FileSizesConcat([n], FlatmapAll(children));
      assert [n][..0] == [];
  }

  lemma {:induction false} SizeAllIsFilesOfWalk(nodes: seq<Node>)
    ensures SizeAll(nodes) == FileSizes(FlatmapAll(nodes))
    decreases nodes, 0
  {
    if nodes != [] {
      SizeAllIsFilesOfWalk(nodes[..|nodes| - 1]);
      SizeIsFilesOfWalk(nodes[|nodes| - 1]);
      FileSizesConcat(FlatmapAll(nodes[..|nodes| - 1]), Flatmap(nodes[|nodes| - 1]));
    }
  }

  /** `filterIsInstance<SystemDirectory>().map { it.size }`. */
  function DirectorySizes(nodes: seq<Node>): (r: seq<int>)
    ensures |r| <= |nodes|
  {
    if nodes == [] then []
    else
      var last := nodes[|nodes| - 1];
      DirectorySizes(nodes[..|nodes| - 1]) + (if last.Directory? then [Size(last)] else [])
  }

  /** The sizes of `limit` or less, summed. */
  function SumAtMost(sizes: seq<int>, limit: int): (r: int)
    ensures r <= |sizes| * (if limit < 0 then 0 else limit)
  {
    if sizes == [] then 0
    else
      var n := |sizes| - 1;
      var rest := SumAtMost(sizes[..n], limit);
      var l := if limit < 0 then 0 else limit;
      assert |sizes| * l == n * l + l;
      rest + (if sizes[n] <= limit then sizes[n] else 0)
  }

  function Part1(lines: seq<string>): Option<int>
  {
    match System(lines)
    case None => None
    case Some(root) => Some(SumAtMost(DirectorySizes(Flatmap(root)), 100000))
  }

  /** The sizes of all directories of a tree, itself included, read off the tree's shape. */
  function TreeDirectorySizes(n: Node): multiset<int>
    decreases n, 1
  {
    match n
    case File(_, _) => multiset{}
    case Directory(_, children) => multiset{Size(n)} + TreeDirectorySizesAll(children)
  }

  function TreeDirectorySizesAll(nodes: seq<Node>): multiset<int>
    decreases nodes, 0
  {
    if nodes == [] then multiset{}
    else TreeDirectorySizesAll(nodes[..|nodes| - 1]) + TreeDirectorySizes(nodes[|nodes| - 1])
  }

  /** The walk meets every directory of the tree exactly once: its directory sizes are the tree's. */
  lemma {:induction false} WalkMeetsEveryDirectory(n: Node)
    ensures multiset(DirectorySizes(Flatmap(n))) == TreeDirectorySizes(n)
    decreases n, 1
  {
    match n
    case File(_, _) =>
      assert [n][..0] == [];
    case Directory(_, children) =>
      WalkMeetsEveryDirectoryAll(children);
      DirectorySizesPrefix([n], FlatmapAll(children));
      assert [n][..0] == [];
  }

  lemma {:induction false} WalkMeetsEveryDirectoryAll(nodes: seq<Node>)
    ensures multiset(DirectorySizes(FlatmapAll(nodes))) == TreeDirectorySizesAll(nodes)
    decreases nodes, 0
  {
    if nodes != [] {
      WalkMeetsEveryDirectoryAll(nodes[..|nodes| - 1]);
      WalkMeetsEveryDirectory(nodes[|nodes| - 1]);
      DirectorySizesPrefix(FlatmapAll(nodes[..|nodes| - 1]), Flatmap(nodes[|nodes| - 1]));
    }
  }

  /** Part 1 on the tree itself: every directory of size `limit` or less, itself included, summed. */
  function SmallDirectoryTotal(n: Node, limit: int): int
    decreases n, 1
  {
    match n
    case File(_, _) => 0
    case Directory(_, children) => (if Size(n) <= limit then Size(n) else 0) + SmallDirectoryTotalAll(children, limit)
  }

  function SmallDirectoryTotalAll(nodes: seq<Node>, limit: int): int
    decreases nodes, 0
  {
    if nodes == [] then 0
    else SmallDirectoryTotalAll(nodes[..|nodes| - 1], limit) + SmallDirectoryTotal(nodes[|nodes| - 1], limit)
  }

  lemma {:induction false} SumAtMostConcat(a: seq<int>, b: seq<int>, limit: int)
    ensures SumAtMost(a + b, limit) == SumAtMost(a, limit) + SumAtMost(b, limit)
    decreases |b|
  {
    if b == [] {
      assert a + b == a;
    } else {
      assert (a + b)[..|a + b| - 1] == a + b[..|b| - 1];
      assert (a + b)[|a + b| - 1] == b[|b| - 1];
      SumAtMostConcat(a, b[..|b| - 1], limit);
    }
  }

  /** Summing the small sizes met by the walk is summing the small directories of the tree. */
  lemma {:induction false} WalkSumIsTreeSum(n: Node, limit: int)
    ensures SumAtMost(DirectorySizes(Flatmap(n)), limit) == SmallDirectoryTotal(n, limit)
    decreases n, 1
  {
    match n
    case File(_, _) =>
      assert [n][..0] == [];
    case Directory(_, children) =>
      WalkSumIsTreeSumAll(children, limit);
      DirectorySizesPrefix([n], FlatmapAll(children));
      assert [n][..0] == [];
      assert DirectorySizes([n]) == [Size(n)];
      assert [Size(n)][..0] == [];
      SumAtMostConcat([Size(n)], DirectorySizes(FlatmapAll(children)), limit);
  }

  lemma {:induction false} WalkSumIsTreeSumAll(nodes: seq<Node>, limit: int)
    ensures SumAtMost(DirectorySizes(FlatmapAll(nodes)), limit) == SmallDirectoryTotalAll(nodes, limit)
    decreases nodes, 0
  {
    if nodes != [] {
      WalkSumIsTreeSumAll(nodes[..|nodes| - 1], limit);
      WalkSumIsTreeSum(nodes[|nodes| - 1], limit);
      DirectorySizesPrefix(FlatmapAll(nodes[..|nodes| - 1]), Flatmap(nodes[|nodes| - 1]));
      SumAtMostConcat(DirectorySizes(FlatmapAll(nodes[..|nodes| - 1])), DirectorySizes(Flatmap(nodes[|nodes| - 1])), limit);
    }
  }

  /** Part 1 is the total size of the directories of at most 100000 bytes, each counted once. */
  lemma Part1IsSmallDirectoryTotal(lines: seq<string>)
    ensures Part1(lines).Some? <==> System(lines).Some?
    ensures System(lines).Some? ==> Part1(lines) == Some(SmallDirectoryTotal(System(lines).value, 100000))
  {
    if System(lines).Some? {
      WalkSumIsTreeSum(System(lines).value, 100000);
    }
  }

  /** `sorted().first { it >= toDelete }`: the first large enough element of an ascending list. */
  function FirstAtLeast(sorted: seq<int>, bound: int): (r: Option<int>)
    ensures r.Some? ==> r.value in sorted && r.value >= bound
    ensures r.None? ==> forall i :: 0 <= i < |sorted| ==> sorted[i] < bound
    ensures r.Some? && Ascending(sorted) ==>
      forall i :: 0 <= i < |sorted| && sorted[i] >= bound ==> r.value <= sorted[i]
  {
    if sorted == [] then None
    else if sorted[0] >= bound then Some(sorted[0])
    else FirstAtLeast(sorted[1..], bound)
  }

  /** The space to free: the update needs 30000000 of the 70000000 on the disk. */
  function ToDelete(rootSize: int): int
  {
    30000000 - (70000000 - rootSize)
  }

  function Part2(lines: seq<string>): Option<int>
  {
    match System(lines)
    case None => None
    case Some(root) => FirstAtLeast(SortAscending(DirectorySizes(Flatmap(root))), ToDelete(Size(root)))
  }

  /** On the sorted sizes, `first { it >= bound }` is the smallest size of at least `bound`, and fails only if there is none. */
  lemma FirstOfSortedIsSmallest(sizes: seq<int>, bound: int)
    ensures var r := FirstAtLeast(SortAscending(sizes), bound);
      (r.Some? <==> exists i :: 0 <= i < |sizes| && sizes[i] >= bound) &&
      (r.Some? ==>
        r.value in sizes && r.value >= bound &&
        forall i :: 0 <= i < |sizes| && sizes[i] >= bound ==> r.value <= sizes[i])
  {
    var sorted := SortAscending(sizes);
    var r := FirstAtLeast(sorted, bound);
    if r.Some? {
      assert r.value in multiset(sizes);
      var k :| 0 <= k < |sizes| && sizes[k] == r.value;
      forall i | 0 <= i < |sizes| && sizes[i] >= bound ensures r.value <= sizes[i] {
        assert sizes[i] in multiset(sorted);
        var j :| 0 <= j < |sorted| && sorted[j] == sizes[i];
      }
    } else {
      forall i | 0 <= i < |sizes| ensures sizes[i] < bound {
        assert sizes[i] in multiset(sorted);
        var j :| 0 <= j < |sorted| && sorted[j] == sizes[i];
      }
    }
  }

  /** Part 2 picks the smallest directory that frees enough space, and fails only if none does. */
  lemma Part2IsSmallestSufficient(lines: seq<string>)
    requires System(lines).Some?
    ensures var root := System(lines).value; var sizes := DirectorySizes(Flatmap(root));
      (Part2(lines).Some? <==> exists i :: 0 <= i < |sizes| && sizes[i] >= ToDelete(Size(root))) &&
      (Part2(lines).Some? ==>
        Part2(lines).value in sizes && Part2(lines).value >= ToDelete(Size(root)) &&
        forall i :: 0 <= i < |sizes| && sizes[i] >= ToDelete(Size(root)) ==> Part2(lines).value <= sizes[i])
  {
    var root := System(lines).value;
    FirstOfSortedIsSmallest(DirectorySizes(Flatmap(root)), ToDelete(Size(root)));
  }

  /**
   * In terms of the tree alone: part 2 is the size of some directory of the tree that
   * frees enough space, no larger than any other such directory, and fails only when
   * no directory frees enough.
   */
  lemma Part2IsSmallestDirectoryOfTree(lines: seq<string>)
    requires System(lines).Some?
    ensures var root := System(lines).value;
      (Part2(lines).Some? <==> exists s :: s in TreeDirectorySizes(root) && s >= ToDelete(Size(root))) &&
      (Part2(lines).Some? ==>
        Part2(lines).value in TreeDirectorySizes(root) && Part2(lines).value >= ToDelete(Size(root)) &&
        forall s :: s in TreeDirectorySizes(root) && s >= ToDelete(Size(root)) ==> Part2(lines).value <= s)
  {
    var root := System(lines).value;
    var sizes := DirectorySizes(Flatmap(root));
    Part2IsSmallestSufficient(lines);
    WalkMeetsEveryDirectory(root);
    forall s | s in TreeDirectorySizes(root)
      ensures exists i :: 0 <= i < |sizes| && sizes[i] == s
    {
      assert s in multiset(sizes);
    }
    if Part2(lines).Some? {
      assert Part2(lines).value in multiset(sizes);
    }
  }

  /** The root is the first directory of the walk, so its size is always a candidate. */
  lemma RootIsFirstDirectory(root: Node)
    requires root.Directory?
    ensures |DirectorySizes(Flatmap(root))| > 0 && DirectorySizes(Flatmap(root))[0] == Size(root)
  {
    DirectorySizesPrefix([root], FlatmapAll(root.children));
    assert [root][..0] == [];
  }

  lemma {:induction false} DirectorySizesPrefix(a: seq<Node>, b: seq<Node>)
    ensures DirectorySizes(a + b) == DirectorySizes(a) + DirectorySizes(b)
    decreases |b|
  {
    if b == [] {
      assert a + b == a;
    } else {
      assert (a + b)[..|a + b| - 1] == a + b[..|b| - 1];
      assert (a + b)[|a + b| - 1] == b[|b| - 1];
      DirectorySizesPrefix(a, b[..|b| - 1]);
    }
  }
}
