/**
 * Day 8 (src/Day08.kt): a grid of tree heights. Part 1 counts the trees visible from
 * outside the grid, part 2 finds the best scenic score of an interior tree.
 */
module Day08 {
  import opened Utils
  import opened Text

  type Grid = seq<seq<int>>

  /** `digitToInt` on every character of every row; any other character is an error. */
  function ToGrid(input: seq<string>): (r: Option<Grid>)
    ensures r.Some? <==> forall i :: 0 <= i < |input| ==> AllDigits(input[i])
    ensures r.Some? ==> |r.value| == |input| && forall i :: 0 <= i < |input| ==>
      |r.value[i]| == |input[i]| &&
      forall j :: 0 <= j < |input[i]| ==> r.value[i][j] == DigitValue(input[i][j])
  {
    if input == [] then Some([])
    else
      var init := ToGrid(input[..|input| - 1]);
      var line := input[|input| - 1];
      assert forall i :: 0 <= i < |input| - 1 ==> input[..|input| - 1][i] == input[i];
      if init.Some? && AllDigits(line) then Some(init.value + [seq(|line|, j requires 0 <= j < |line| => DigitValue(line[j]))])
      else None
  }

  // ---------------------------------------------------------------------------
  // Columns

  /** Column `c`: the `c`-th entry of every row long enough to have one, top to bottom. */
  function ColumnOf(grid: Grid, c: nat): seq<int>
  {
    if grid == [] then []
    else
      var last := grid[|grid| - 1];
      ColumnOf(grid[..|grid| - 1], c) + (if c < |last| then [last[c]] else [])
  }

  /** For a grid whose rows all have `width` entries, the columns are its transpose. */
  lemma {:induction false} ColumnOfRectangle(grid: Grid, width: nat, c: nat)
    requires forall i :: 0 <= i < |grid| ==> |grid[i]| == width
    requires c < width
    ensures |ColumnOf(grid, c)| == |grid|
    ensures forall r :: 0 <= r < |grid| ==> ColumnOf(grid, c)[r] == grid[r][c]
  {
    if grid != [] {
      ColumnOfRectangle(grid[..|grid| - 1], width, c);
    }
  }

  /** `dimensions().second`: the width of the first row; the grid may not be empty. */
  predicate ColumnsDefined(grid: Grid)
  {
    |grid| > 0 && forall i :: 0 <= i < |grid| ==> |grid[i]| <= |grid[0]|
  }

  function ColumnsSpec(grid: Grid): (r: Option<Grid>)
    ensures r.Some? <==> ColumnsDefined(grid)
    ensures r.Some? ==> |r.value| == |grid[0]|
  {
    if ColumnsDefined(grid) then Some(seq(|grid[0]|, c requires 0 <= c => ColumnOf(grid, c))) else None
  }

  /** `columns`: one list per column of the first row, each entry appended to its column's list.
      A row longer than the first one indexes past the lists and is an error. */
  method Columns(grid: Grid) returns (r: Option<Grid>)
    ensures r == ColumnsSpec(grid)
  {
    if |grid| == 0 {
      return None;
    }
    var width := |grid[0]|;
    var response: seq<seq<int>> := seq(width, _ => []);
    for i := 0 to |grid|
      invariant |response| == width
      invariant forall k :: 0 <= k < i ==> |grid[k]| <= width
      invariant forall c :: 0 <= c < width ==> response[c] == ColumnOf(grid[..i], c)
    {
      var row := grid[i];
      assert grid[..i + 1][..i] == grid[..i];
      for j := 0 to |row|
        invariant |response| == width
        invariant j <= width
        invariant forall c :: 0 <= c < j ==> response[c] == ColumnOf(grid[..i + 1], c)
        invariant forall c :: j <= c < width ==> response[c] == ColumnOf(grid[..i], c)
      {
        if j >= width {
          return None;
        }
        response := response[j := response[j] + [row[j]]];
      }
      forall c | |row| <= c < width ensures response[c] == ColumnOf(grid[..i + 1], c) {
        assert grid[..i + 1][i] == row;
      }
    }
    assert grid[..|grid|] == grid;
    assert response == seq(|grid[0]|, c requires 0 <= c => ColumnOf(grid, c));
    return Some(response);
  }

  // ---------------------------------------------------------------------------
  // Part 1: visibility

  /** `subList(from, to)`, an error unless `0 <= from <= to <= size`. */
  function SubList(s: seq<int>, from: int, to: int): (r: Option<seq<int>>)
    ensures r.Some? <==> 0 <= from <= to <= |s|
  {
    if 0 <= from <= to <= |s| then Some(s[from..to]) else None
  }

  /** `none { it >= height }`. */
  predicate AllLower(s: seq<int>, height: int)
  {
    forall k :: 0 <= k < |s| ==> s[k] < height
  }

  /** Part 1's test for one tree, with `||` evaluated left to right: the column slices are
      taken only when the row slices fail, and the lower one spans `row.size` entries. */
  function VisibleAt(grid: Grid, columns: Grid, r: nat, c: nat): Option<bool>
    requires r < |grid| && c < |columns|
  {
    var row := grid[r];
    if c >= |row| then None
    else
      var height := row[c];
      var col := columns[c];
      if AllLower(row[..c], height) || AllLower(row[c + 1..], height) then Some(true)
      else match SubList(col, 0, r)
        case None => None
        case Some(top) =>
          if AllLower(top, height) then Some(true)
          else match SubList(col, r + 1, |row|)
            case None => None
            case Some(bottom) => Some(AllLower(bottom, height))
  }

  function Bit(b: bool): nat { if b then 1 else 0 }

  /** The visible trees among the first `j` of row `r`. */
  function RowVisible(grid: Grid, columns: Grid, r: nat, j: nat): (n: Option<nat>)
    requires r < |grid| && j <= |columns|
    ensures n.Some? ==> n.value <= j
  {
    if j == 0 then Some(0)
    else match (RowVisible(grid, columns, r, j - 1), VisibleAt(grid, columns, r, j - 1))
      case (Some(n), Some(v)) => Some(n + Bit(v))
      case _ => None
  }

  /** The visible trees among the first `i` rows. */
  function GridVisible(grid: Grid, columns: Grid, i: nat): Option<nat>
    requires i <= |grid|
  {
    if i == 0 then Some(0)
    else match (GridVisible(grid, columns, i - 1), RowVisible(grid, columns, i - 1, |columns|))
      case (Some(n), Some(m)) => Some(n + m)
      case _ => None
  }

  function Part1Spec(input: seq<string>): Option<nat>
  {
    match ToGrid(input)
    case None => None
    case Some(grid) =>
      match ColumnsSpec(grid)
      case None => None
      case Some(columns) => GridVisible(grid, columns, |grid|)
  }

  /** At most every tree of the grid is counted. */
  lemma {:induction false} GridVisibleBound(grid: Grid, columns: Grid, i: nat)
    requires i <= |grid| && GridVisible(grid, columns, i).Some?
    ensures GridVisible(grid, columns, i).value <= i * |columns|
  {
    if i > 0 {
      GridVisibleBound(grid, columns, i - 1);
      assert i * |columns| == (i - 1) * |columns| + |columns|;
    }
  }

  /** Part 1 counts at most rows times columns trees. */
  lemma Part1Bounds(input: seq<string>)
    requires Part1Spec(input).Some?
    ensures |input| > 0 && Part1Spec(input).value <= |input| * |input[0]|
  {
    var grid := ToGrid(input).value;
    GridVisibleBound(grid, ColumnsSpec(grid).value, |grid|);
  }

  /** On a square grid of digits, part 1 is the number of visible trees. */
  lemma Part1SpecSquare(input: seq<string>)
    requires ToGrid(input).Some? && Square(ToGrid(input).value)
    ensures Part1Spec(input) == Some(CountVisibleRows(ToGrid(input).value, |input|))
  {
    GridVisibleSquare(ToGrid(input).value, |input|);
  }

  /** `part1`: parse, take the columns, then count. */
  method Part1(input: seq<string>) returns (r: Option<nat>)
    ensures r == Part1Spec(input)
  {
    var g := ToGrid(input);
    if g.None? {
      return None;
    }
    var grid := g.value;
    var cs := Columns(grid);
    if cs.None? {
      return None;
    }
    r := CountVisibleTrees(grid, cs.value);
  }

  /** `part1`'s outer loop over the rows. */
  method CountVisibleTrees(grid: Grid, columns: Grid) returns (r: Option<nat>)
    ensures r == GridVisible(grid, columns, |grid|)
  {
    var visible := 0;
    for rowIndex := 0 to |grid|
      invariant GridVisible(grid, columns, rowIndex) == Some(visible)
    {
      var next := CountVisibleInRow(grid, columns, rowIndex, visible);
      if next.None? {
        GridFailureStays(grid, columns, rowIndex + 1, |grid|);
        return None;
      }
      visible := next.value;
    }
    return Some(visible);
  }

  /** `part1`'s inner loop over the trees of one row, adding the visible ones to `visible`. */
  method CountVisibleInRow(grid: Grid, columns: Grid, rowIndex: nat, visible: nat) returns (r: Option<nat>)
    requires rowIndex < |grid|
    ensures r.Some? <==> RowVisible(grid, columns, rowIndex, |columns|).Some?
    ensures r.Some? ==> r.value == visible + RowVisible(grid, columns, rowIndex, |columns|).value
  {
    var count := visible;
    for colIndex := 0 to |columns|
      invariant RowVisible(grid, columns, rowIndex, colIndex).Some?
      invariant count == visible + RowVisible(grid, columns, rowIndex, colIndex).value
    {
      var v := VisibleAt(grid, columns, rowIndex, colIndex);
      if v.None? {
        RowFailureStays(grid, columns, rowIndex, colIndex + 1, |columns|);
        return None;
      }
      if v.value {
        count := count + 1;
      }
    }
    return Some(count);
  }

  /** Once a row fails, every longer prefix of it fails. */
  lemma {:induction false} RowFailureStays(grid: Grid, columns: Grid, r: nat, j: nat, k: nat)
    requires r < |grid| && j <= k <= |columns|
    requires RowVisible(grid, columns, r, j).None?
    ensures RowVisible(grid, columns, r, k).None?
    decreases k - j
  {
    if j < k {
      RowFailureStays(grid, columns, r, j + 1, k);
    }
  }

  /** Once a row fails, the count over every later prefix of rows fails. */
  lemma {:induction false} GridFailureStays(grid: Grid, columns: Grid, i: nat, k: nat)
    requires 0 < i <= k <= |grid|
    requires GridVisible(grid, columns, i).None?
    ensures GridVisible(grid, columns, k).None?
    decreases k - i
  {
    if i < k {
      GridFailureStays(grid, columns, i + 1, k);
    }
  }

  // ---------------------------------------------------------------------------
  // Part 1 on a square grid

  /** Every row has one entry per row: the shape the column slices rely on. */
  predicate Square(grid: Grid)
  {
    |grid| > 0 && forall i :: 0 <= i < |grid| ==> |grid[i]| == |grid|
  }

  /** The tree at (r, c) is visible when every tree between it and one edge is strictly lower. */
  ghost predicate Visible(grid: Grid, r: nat, c: nat)
    requires Square(grid) && r < |grid| && c < |grid|
  {
    var n, h := |grid|, grid[r][c];
    (forall k :: 0 <= k < c ==> grid[r][k] < h) ||
    (forall k :: c < k < n ==> grid[r][k] < h) ||
    (forall k :: 0 <= k < r ==> grid[k][c] < h) ||
    (forall k :: r < k < n ==> grid[k][c] < h)
  }

  /** On a square grid the slices of the row and of the transposed column are exactly the
      four lines of sight, so part 1's test is the visibility of the tree, and it never fails. */
  lemma VisibleAtSquare(grid: Grid, r: nat, c: nat)
    requires Square(grid) && r < |grid| && c < |grid|
    ensures ColumnsSpec(grid).Some?
    ensures VisibleAt(grid, ColumnsSpec(grid).value, r, c) == Some(Visible(grid, r, c))
  {
    var n := |grid|;
    var row := grid[r];
    var col := ColumnsSpec(grid).value[c];
    ColumnOfRectangle(grid, n, c);
    var h := row[c];
    AllLowerSlice(row, 0, c, h);
    AllLowerSlice(row, c + 1, n, h);
    AllLowerSlice(col, 0, r, h);
    AllLowerSlice(col, r + 1, n, h);
    assert row[..c] == row[0..c] && row[c + 1..] == row[c + 1..n];
  }

  /** `none` on a slice speaks about the entries between its bounds. */
  lemma AllLowerSlice(s: seq<int>, from: int, to: int, height: int)
    requires 0 <= from <= to <= |s|
    ensures AllLower(s[from..to], height) <==> forall k :: from <= k < to ==> s[k] < height
  {
    var slice := s[from..to];
    if forall k :: from <= k < to ==> s[k] < height {
      forall k | 0 <= k < |slice| ensures slice[k] < height {
        assert slice[k] == s[from + k];
      }
    } else {
      var k :| from <= k < to && s[k] >= height;
      assert slice[k - from] == s[k];
    }
  }

  /** Trees on the border are always visible: one line of sight is empty. */
  lemma BorderIsVisible(grid: Grid, r: nat, c: nat)
    requires Square(grid) && r < |grid| && c < |grid|
    requires r == 0 || c == 0 || r == |grid| - 1 || c == |grid| - 1
    ensures Visible(grid, r, c)
  {
  }

  /** The number of visible trees, counted from the definition of visibility. */
  ghost function CountVisible(grid: Grid, i: nat, j: nat): nat
    requires Square(grid) && i < |grid| && j <= |grid|
  {
    if j == 0 then 0 else CountVisible(grid, i, j - 1) + Bit(Visible(grid, i, j - 1))
  }

  ghost function CountVisibleRows(grid: Grid, i: nat): nat
    requires Square(grid) && i <= |grid|
  {
    if i == 0 then 0 else CountVisibleRows(grid, i - 1) + CountVisible(grid, i - 1, |grid|)
  }

  /** Where every tree of row `r` has its visibility decided, the row's count is the number of visible trees. */
  lemma {:induction false} RowVisibleSquare(grid: Grid, columns: Grid, r: nat, j: nat)
    requires Square(grid) && |columns| == |grid| && r < |grid| && j <= |grid|
    requires forall c :: 0 <= c < |grid| ==> VisibleAt(grid, columns, r, c) == Some(Visible(grid, r, c))
    ensures RowVisible(grid, columns, r, j) == Some(CountVisible(grid, r, j))
  {
    if j > 0 {
      RowVisibleSquare(grid, columns, r, j - 1);
      var v := Visible(grid, r, j - 1);
      RowVisibleNext(grid, columns, r, j, CountVisible(grid, r, j - 1), v);
      assert CountVisible(grid, r, j) == CountVisible(grid, r, j - 1) + Bit(v);
    }
  }

  lemma RowVisibleNext(grid: Grid, columns: Grid, r: nat, j: nat, n: nat, v: bool)
    requires r < |grid| && 0 < j <= |columns|
    requires RowVisible(grid, columns, r, j - 1) == Some(n) && VisibleAt(grid, columns, r, j - 1) == Some(v)
    ensures RowVisible(grid, columns, r, j) == Some(n + Bit(v))
  {
  }

  /** On a square grid part 1 succeeds and counts exactly the visible trees. */
  lemma {:induction false} GridVisibleSquare(grid: Grid, i: nat)
    requires Square(grid) && i <= |grid|
    ensures GridVisible(grid, ColumnsSpec(grid).value, i) == Some(CountVisibleRows(grid, i))
  {
    if i > 0 {
      GridVisibleSquare(grid, i - 1);
      var columns, row := ColumnsSpec(grid).value, i - 1;
      forall c | 0 <= c < |grid|
        ensures VisibleAt(grid, columns, row, c) == Some(Visible(grid, row, c))
      {
        VisibleAtSquare(grid, row, c);
      }
      RowVisibleSquare(grid, columns, row, |grid|);
    }
  }

  // ---------------------------------------------------------------------------
  // Part 2: scenic scores

  /** `subList(lo, hi).takeWhile { it < height }.count()`: the lower trees from `lo` upward. */
  function RunUp(s: seq<int>, height: int, lo: int, hi: int): (n: nat)
    requires 0 <= lo <= hi <= |s|
    ensures n <= hi - lo
    decreases hi - lo
  {
    if lo == hi || s[lo] >= height then 0 else 1 + RunUp(s, height, lo + 1, hi)
  }

  /** `subList(lo, hi).takeLastWhile { it < height }.count()`: the lower trees from `hi - 1` downward. */
  function RunDown(s: seq<int>, height: int, lo: int, hi: int): (n: nat)
    requires 0 <= lo <= hi <= |s|
    ensures n <= hi - lo
    decreases hi - lo
  {
    if lo == hi || s[hi - 1] >= height then 0 else 1 + RunDown(s, height, lo, hi - 1)
  }

  /** The upward run is the longest stretch of lower trees: the tree just beyond it, if any, is at least as high. */
  lemma {:induction false} RunUpIsMaximal(s: seq<int>, height: int, lo: int, hi: int)
    requires 0 <= lo <= hi <= |s|
    ensures forall k :: lo <= k < lo + RunUp(s, height, lo, hi) ==> s[k] < height
    ensures lo + RunUp(s, height, lo, hi) < hi ==> s[lo + RunUp(s, height, lo, hi)] >= height
    decreases hi - lo
  {
    if lo < hi && s[lo] < height {
      RunUpIsMaximal(s, height, lo + 1, hi);
    }
  }

  /** The downward run is the longest stretch of lower trees: the tree just beyond it, if any, is at least as high. */
  lemma {:induction false} RunDownIsMaximal(s: seq<int>, height: int, lo: int, hi: int)
    requires 0 <= lo <= hi <= |s|
    ensures forall k :: hi - RunDown(s, height, lo, hi) <= k < hi ==> s[k] < height
    ensures RunDown(s, height, lo, hi) < hi - lo ==> s[hi - 1 - RunDown(s, height, lo, hi)] >= height
    decreases hi - lo
  {
    if lo < hi && s[hi - 1] < height {
      RunDownIsMaximal(s, height, lo, hi - 1);
    }
  }

  /** The run of lower trees, plus the tree that blocks the view if the edge was not reached. */
  function WithBlocker(run: nat, length: nat): nat
  {
    if run < length then run + 1 else run
  }

  datatype Distances = Distances(left: nat, right: nat, top: nat, bottom: nat)

  /** The four viewing distances of the tree at (r, c). The column slices `subList(0, r)` and
      `subList(r + 1, row.size)` must be in range, which needs `r + 1 <= row.size <= column size`. */
  function DistancesAt(grid: Grid, columns: Grid, r: nat, c: nat): Option<Distances>
    requires r < |grid| && c < |columns|
  {
    var row := grid[r];
    var col := columns[c];
    if c >= |row| || r + 1 > |row| || |row| > |col| then None
    else
      var height := row[c];
      Some(Distances(
        WithBlocker(RunDown(row, height, 0, c), c),
        WithBlocker(RunUp(row, height, c + 1, |row|), |row| - (c + 1)),
        WithBlocker(RunDown(col, height, 0, r), r),
        WithBlocker(RunUp(col, height, r + 1, |row|), |row| - (r + 1))))
  }

  /** `left * right * top * bottom`. */
  function Score(d: Distances): int
  {
    d.left * d.right * d.top * d.bottom
  }

  function ScenicAt(grid: Grid, columns: Grid, r: nat, c: nat): Option<int>
    requires r < |grid| && c < |columns|
  {
    match DistancesAt(grid, columns, r, c)
    case None => None
    case Some(d) => Some(Score(d))
  }

  /** `max(topScenicScore, scenicScore)`. */
  function MaxOf(best: int, score: int): int
  {
    if score > best then score else best
  }

  /** The best score among the interior trees 1 .. j-1 of row r, starting from 0. */
  function RowBest(grid: Grid, columns: Grid, r: nat, j: nat): Option<int>
    requires r < |grid| && 1 <= j <= |columns|
  {
    if j == 1 then Some(0)
    else match (RowBest(grid, columns, r, j - 1), ScenicAt(grid, columns, r, j - 1))
      case (Some(b), Some(s)) => Some(MaxOf(b, s))
      case _ => None
  }

  /** The best score among the interior rows 1 .. i-1. */
  function GridBest(grid: Grid, columns: Grid, i: nat): Option<int>
    requires 1 <= i <= |grid| && 2 <= |columns|
  {
    if i == 1 then Some(0)
    else match (GridBest(grid, columns, i - 1), RowBest(grid, columns, i - 1, |columns| - 1))
      case (Some(b), Some(s)) => Some(MaxOf(b, s))
      case _ => None
  }

  /** The best of a row is at least 0, bounds every score in it, and is 0 or one of them. */
  lemma {:induction false} RowBestIsMaximum(grid: Grid, columns: Grid, r: nat, j: nat)
    requires r < |grid| && 1 <= j <= |columns|
    requires RowBest(grid, columns, r, j).Some?
    ensures var best := RowBest(grid, columns, r, j).value;
      best >= 0 &&
      (forall c :: 1 <= c < j ==>
        ScenicAt(grid, columns, r, c).Some? && ScenicAt(grid, columns, r, c).value <= best) &&
      (best == 0 || exists c :: 1 <= c < j && ScenicAt(grid, columns, r, c) == Some(best))
  {
    if j > 1 {
      RowBestIsMaximum(grid, columns, r, j - 1);
    }
  }

  /** The best over the rows is at least 0, bounds every interior score, and is 0 or one of them. */
  lemma {:induction false} GridBestIsMaximum(grid: Grid, columns: Grid, i: nat)
    requires 1 <= i <= |grid| && 2 <= |columns|
    requires GridBest(grid, columns, i).Some?
    ensures var best := GridBest(grid, columns, i).value;
      best >= 0 &&
      (forall r, c :: 1 <= r < i && 1 <= c < |columns| - 1 ==>
        ScenicAt(grid, columns, r, c).Some? && ScenicAt(grid, columns, r, c).value <= best) &&
      (best == 0 ||
        exists r, c :: 1 <= r < i && 1 <= c < |columns| - 1 && ScenicAt(grid, columns, r, c) == Some(best))
  {
    if i > 1 {
      GridBestIsMaximum(grid, columns, i - 1);
      RowBestIsMaximum(grid, columns, i - 1, |columns| - 1);
    }
  }

  /** `part2`: the best scenic score over the interior, 0 when there is no interior tree. */
  function Part2Spec(input: seq<string>): Option<int>
  {
    match ToGrid(input)
    case None => None
    case Some(grid) =>
      match ColumnsSpec(grid)
      case None => None
      case Some(columns) =>
        InteriorBest(grid, columns)
  }

  /** The best scenic score over the interior, 0 when there is no interior tree. */
  function InteriorBest(grid: Grid, columns: Grid): Option<int>
  {
    if |grid| < 3 || |columns| < 3 then Some(0)
    else GridBest(grid, columns, |grid| - 1)
  }

  /** No interior tree scores more than `InteriorBest`, and a positive best is some interior
      tree's score. */
  lemma InteriorBestIsMaximum(grid: Grid, columns: Grid)
    ensures InteriorBest(grid, columns).Some? <==>
      |grid| < 3 || |columns| < 3 || GridBest(grid, columns, |grid| - 1).Some?
    ensures InteriorBest(grid, columns).Some? ==> var best := InteriorBest(grid, columns).value;
      best >= 0 &&
      (forall r, c :: 1 <= r < |grid| - 1 && 1 <= c < |columns| - 1 ==>
        ScenicAt(grid, columns, r, c).Some? && ScenicAt(grid, columns, r, c).value <= best) &&
      (best == 0 ||
        exists r, c :: 1 <= r < |grid| - 1 && 1 <= c < |columns| - 1 && ScenicAt(grid, columns, r, c) == Some(best))
  {
    if |grid| >= 3 && |columns| >= 3 && GridBest(grid, columns, |grid| - 1).Some? {
      GridBestIsMaximum(grid, columns, |grid| - 1);
    }
  }

  /** Part 2 is the best scenic score of the parsed grid's interior. */
  lemma Part2SpecIsInteriorBest(input: seq<string>)
    ensures Part2Spec(input).Some? <==>
      (ToGrid(input).Some? && ColumnsSpec(ToGrid(input).value).Some? &&
       InteriorBest(ToGrid(input).value, ColumnsSpec(ToGrid(input).value).value).Some?)
    ensures Part2Spec(input).Some? ==>
      Part2Spec(input) == InteriorBest(ToGrid(input).value, ColumnsSpec(ToGrid(input).value).value)
  {
  }

  /** `part2`: parse, take the columns, then search the interior. */
  method Part2(input: seq<string>) returns (r: Option<int>)
    ensures r == Part2Spec(input)
  {
    var g := ToGrid(input);
    if g.None? {
      return None;
    }
    var grid := g.value;
    var cs := Columns(grid);
    if cs.None? {
      return None;
    }
    var columns := cs.value;
    if |grid| < 3 || |grid[0]| < 3 {
      return Some(0);
    }
    r := BestInterior(grid, columns);
  }

  /** `part2`'s outer loop over the interior rows, keeping the best score. */
  method BestInterior(grid: Grid, columns: Grid) returns (r: Option<int>)
    requires 3 <= |grid| && 3 <= |columns|
    ensures r == GridBest(grid, columns, |grid| - 1)
  {
    var rows := |grid|;
    var topScenicScore := 0;
    var rowIndex := 1;
    while rowIndex < rows - 1
      invariant 1 <= rowIndex <= rows - 1
      invariant GridBest(grid, columns, rowIndex) == Some(topScenicScore) && topScenicScore >= 0
    {
      var next := BestInRow(grid, columns, rowIndex, topScenicScore);
      if next.None? {
        BestGridFailureStays(grid, columns, rowIndex + 1, rows - 1);
        return None;
      }
      topScenicScore := next.value;
      rowIndex := rowIndex + 1;
    }
    return Some(topScenicScore);
  }

  /** `part2`'s inner loop over the interior trees of one row, raising the running best `top`. */
  method BestInRow(grid: Grid, columns: Grid, rowIndex: nat, top: int) returns (r: Option<int>)
    requires 1 <= rowIndex < |grid| && 3 <= |columns| && top >= 0
    ensures r.Some? <==> RowBest(grid, columns, rowIndex, |columns| - 1).Some?
    ensures r.Some? ==> r.value == MaxOf(top, RowBest(grid, columns, rowIndex, |columns| - 1).value)
  {
    var cols := |columns|;
    var topScenicScore := top;
    var colIndex := 1;
    while colIndex < cols - 1
      invariant 1 <= colIndex <= cols - 1
      invariant RowBest(grid, columns, rowIndex, colIndex).Some?
      invariant topScenicScore == MaxOf(top, RowBest(grid, columns, rowIndex, colIndex).value)
    {
      var d := DistancesAt(grid, columns, rowIndex, colIndex);
      if d.None? {
        BestRowFailureStays(grid, columns, rowIndex, colIndex + 1, cols - 1);
        return None;
      }
      var scenicScore := Score(d.value);
      topScenicScore := MaxOf(topScenicScore, scenicScore);
      colIndex := colIndex + 1;
    }
    return Some(topScenicScore);
  }

  lemma {:induction false} BestRowFailureStays(grid: Grid, columns: Grid, r: nat, j: nat, k: nat)
    requires r < |grid| && 1 <= j <= k <= |columns|
    requires RowBest(grid, columns, r, j).None?
    ensures RowBest(grid, columns, r, k).None?
    decreases k - j
  {
    if j < k {
      BestRowFailureStays(grid, columns, r, j + 1, k);
    }
  }

  lemma {:induction false} BestGridFailureStays(grid: Grid, columns: Grid, i: nat, k: nat)
    requires 1 < i <= k <= |grid| && 2 <= |columns|
    requires GridBest(grid, columns, i).None?
    ensures GridBest(grid, columns, k).None?
    decreases k - i
  {
    if i < k {
      BestGridFailureStays(grid, columns, i + 1, k);
    }
  }

  /** On a square grid every viewing distance of an interior tree is at least 1 and at most
      the distance to the edge in its direction. */
  lemma DistancesSquare(grid: Grid, r: nat, c: nat)
    requires Square(grid) && 0 < r < |grid| - 1 && 0 < c < |grid| - 1
    ensures ColumnsSpec(grid).Some?
    ensures var d := DistancesAt(grid, ColumnsSpec(grid).value, r, c);
      d.Some? &&
      1 <= d.value.left <= c && 1 <= d.value.right <= |grid| - 1 - c &&
      1 <= d.value.top <= r && 1 <= d.value.bottom <= |grid| - 1 - r
  {
    ColumnOfRectangle(grid, |grid|, c);
  }
}
