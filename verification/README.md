# Advent of Code 2022 in Kotlin, modelled in Dafny

This project models a set of Kotlin solutions to the Advent of Code 2022 puzzles, days 1 to 21
(the repository has no day 6 or day 14). Each `src/DayNN.kt` becomes one Dafny module `DayNN` in
`dayNN.dfy`. The module follows the shape of its Kotlin file:

- Pure pipelines (`map`, `sumOf`, `fold`, recursion) become functions with lemmas about them.
- Loops become methods with invariants, each proved against a specification function.
- Objects whose fields the solution updates become classes. These are the rope simulator, the CPU,
  the monkeys, the packet parser, the pressure searches, the rock chamber, the water fill, the
  robot-factory simulation, the ring buffer of day 20 and the monkey-job map of day 21.

Two shared modules complete the model:

- `Utils` models `product` from `src/Utils.kt`, together with the Kotlin library pieces the days
  rely on: sums, maxima, sorting, and Kotlin's truncating `/` and `%`.
- `Text` models the string helpers: `split`, `toInt`, `removePrefix`, `chunked` and the printing of
  numbers.

Kotlin exceptions are modelled as `None` results: `error(...)`, a failed `check`, `single`, `!!`,
an index out of bounds or a failed `toInt`. Each puzzle input is a parameter, a list of lines.
Where a day parses its lines with a regular expression, it takes the already-parsed records
instead.

## Model

| member | source | states |
|---|---|---|
| Day01.SplitIntoElves | src/Day01.kt:2-13 | fails exactly when a non-blank line is not a number; otherwise returns the groups built by the loop: a blank line closes the current elf, a number joins it, and the last elf is always added |
| Day01.GroupCount | src/Day01.kt:2-13 | there is one elf more than there are blank lines |
| Day01.GroupsFlatten | src/Day01.kt:2-13 | the elves, flattened, are exactly the numbers of the input in order: nothing is lost or reordered |
| Day01.BlankLinesMakeEmptyGroup | src/Day01.kt:5-7 | two blank lines in a row produce an elf with no items, whose total is 0 |
| Day01.Totals | src/Day01.kt:24 | the i-th total is the sum of the i-th elf's calories |
| Day01.MostCalories | src/Day01.kt:18 | `maxOf { it.sum() }` is at least every elf's total and equals some elf's total |
| Day01.TopThreeIncludesMost | src/Day01.kt:21-28 | the totals sorted descending start with the largest total, every later one is no larger, and part 2 sums the first (at most) three of them |
| Day01.Part1 | src/Day01.kt:15-19 | fails exactly when a non-blank line is not a number; otherwise the largest elf total |
| Day01.Part2 | src/Day01.kt:21-28 | fails exactly when a non-blank line is not a number; otherwise the sum of the three largest totals |
| Day02.HandScore | src/Day02.kt:1-5 | a hand scores 1, 2 or 3 |
| Day02.ResultScore | src/Day02.kt:7-11 | a round result scores 0, 3 or 6 |
| Day02.BeatsIsTournament | src/Day02.kt:31-34 | no hand beats itself, and of two different hands exactly one beats the other |
| Day02.ToHandCodes | src/Day02.kt:14-22 | `toHand` reads A or X as Rock, B or Y as Paper, C or Z as Scissor, and accepts no other token |
| Day02.ToRoundResultCodes | src/Day02.kt:24-29 | `toRoundResult` reads X as a loss, Y as a draw, Z as a win, and accepts no other token |
| Day02.BeatsByScore | src/Day02.kt:31-34 | a hand beats exactly the hand whose score is one less around the cycle, Rock (1) beating Scissor (3) |
| Day02.Outcome | src/Day02.kt:40-44 | draw exactly when both hands are equal, win exactly when our hand beats the opponent's, loss exactly when the opponent's beats ours |
| Day02.FirstBeating | src/Day02.kt:58 | `first { it beats opponent }`: a found hand is one of the hands and beats the opponent; none found means no hand does |
| Day02.FirstBeatenBy | src/Day02.kt:59 | `first { opponent beats it }`: a found hand is one the opponent beats; none found means the opponent beats none |
| Day02.ChooseRealises | src/Day02.kt:56-60 | `first` never throws, and the chosen hand, played against the opponent, ends the round with exactly the requested result |
| Day02.RoundScore | src/Day02.kt:46 | a round scores between 1 and 9 |
| Day02.ToHands | src/Day02.kt:38 | `map { it.toHand() }` succeeds exactly when every token is A/B/C/X/Y/Z, and then maps each token to its hand |
| Day02.ScoreRound1 | src/Day02.kt:37-47 | a scored round of part 1 lies between 1 and 9 |
| Day02.ScoreRound2 | src/Day02.kt:51-63 | a scored round of part 2 lies between 1 and 9 |
| Day02.Scores1 | src/Day02.kt:37 | one score per line, the i-th being the i-th line's round |
| Day02.Scores2 | src/Day02.kt:51 | one score per line, the i-th being the i-th line's round |
| Day02.Part1 | src/Day02.kt:36-48 | a successful total lies between the number of rounds and 9 times it |
| Day02.Part2 | src/Day02.kt:50-64 | a successful total lies between the number of rounds and 9 times it |
| Day02.Round1Defined | src/Day02.kt:36-48 | a line "a b" of two hand tokens scores the result of b played against a plus b's score |
| Day02.Round2Defined | src/Day02.kt:50-64 | a line "a b" of a hand and a result token always scores, with the hand that realises the result |
| Day03.Priority | src/Day03.kt:3 | lower-case letters take priorities 1..26 and upper-case letters 27..52 |
| Day03.PriorityRoundTrip | src/Day03.kt:3 | priorities number the 52 letters one to one: each letter is recovered from its priority and each of 1..52 is some letter's priority |
| Day03.PriorityRanges | src/Day03.kt:3 | lower-case letters take priorities 1..26, upper-case letters 27..52, and two different letters never share a priority |
| Day03.Single | src/Day03.kt:8 | `single()` succeeds exactly on a one-element set, and returns that element |
| Day03.Compartments | src/Day03.kt:7 | `chunked(length / 2)` yields two compartments exactly when the rucksack has at least two items; they are the first and second halves (an odd last item is dropped) |
| Day03.CompartmentChunks | src/Day03.kt:7 | with chunk size half the length there are at least two chunks, and the first two are the two halves |
| Day03.Misplaced | src/Day03.kt:6-10 | part 1's item exists exactly when the halves share one item type, and it lies in both halves |
| Day03.CommonItems | src/Day03.kt:15 | `reduce` with `retainAll` keeps exactly the items present in every rucksack of the group |
| Day03.Badge | src/Day03.kt:15 | the badge exists exactly when the group shares one item type, and every rucksack of the group holds it |
| Day03.MisplacedPriorities | src/Day03.kt:6 | one priority per rucksack, the i-th that of the i-th rucksack's shared item |
| Day03.BadgePriorities | src/Day03.kt:14 | one priority per group, the i-th that of the i-th group's badge |
| Day03.Part1 | src/Day03.kt:5-11 | fails exactly when some rucksack does not have exactly one shared item |
| Day03.Part2 | src/Day03.kt:13-18 | fails exactly when some group of (at most) three rucksacks does not have exactly one common item |
| Day03.Part1Bounds | src/Day03.kt:5-11 | on letters only, the answer lies between the number of rucksacks and 52 times it |
| Day03.Part2Bounds | src/Day03.kt:13-18 | on letters only, the answer lies between the number of groups and 52 times it, and the groups cover the input |
| Day03.ChunkCount | src/Day03.kt:14 | `chunked(3)` produces enough chunks to cover every line |
| Day04.ToCleaningRange | src/Day04.kt:2 | a parsed range has its bounds read from the first two '-'-separated pieces, both numbers |
| Day04.ToCleaningRangeOfText | src/Day04.kt:2 | the text "a-b" of two non-negative numbers reads back as the range a..b |
| Day04.ToCleaningRanges | src/Day04.kt:3 | succeeds exactly when every ','-separated piece is a range, and then maps each piece to its range |
| Day04.ContainsIsPreorder | src/Day04.kt:4 | range containment is reflexive and transitive, and on a non-empty range it means every section of the inner range is in the outer one |
| Day04.OverlapsClosedForm | src/Day04.kt:18 | two ranges share a section exactly when the larger start is at most the smaller end |
| Day04.ContainmentImpliesOverlap | src/Day04.kt:10-18 | part 1's test and part 2's test are both symmetric, and for non-empty ranges containment implies a shared section |
| Day04.ParseLines | src/Day04.kt:8 | succeeds exactly when every line holds two ranges, and then gives each line's pair |
| Day04.CountContaining | src/Day04.kt:7-11 | part 1 counts at most one per line |
| Day04.CountOverlapping | src/Day04.kt:15-19 | part 2 counts at most one per line |
| Day04.ContainingAtMostOverlapping | src/Day04.kt:6-20 | with non-empty ranges, part 1's count never exceeds part 2's |
| Day04.Part1AtMostPart2 | src/Day04.kt:6-20 | both parts fail on the same inputs, both answers are at most the number of lines, and with non-empty ranges part 1 is at most part 2 |
| Day04.CountContainingIsCard | src/Day04.kt:7-11 | part 1's count is the number of positions whose pair has one range containing the other |
| Day04.CountOverlappingIsCard | src/Day04.kt:15-19 | part 2's count is the number of positions whose two ranges share a section |
| Day04.Part1CountsLines | src/Day04.kt:6-12 | part 1 fails exactly when a line does not hold two ranges, and is otherwise the number of lines where one range contains the other |
| Day04.Part2CountsLines | src/Day04.kt:14-20 | part 2 fails exactly when a line does not hold two ranges, and is otherwise the number of lines whose ranges share a section |
| Day05.ColumnTop | src/Day05.kt:14-19 | the last crate read into a stack is the letter at position 1 of that stack's 4-character chunk in the top drawing line |
| Day05.RowsNext | src/Day05.kt:14-19 | reading one more drawing line appends that line's crate (if its chunk is not blank) to each stack and nothing else |
| Day05.PushRow | src/Day05.kt:15-19 | pushes each non-blank chunk's crate onto the stack of the same index, failing exactly when a chunk is too short or beyond the last stack |
| Day05.ParseStack | src/Day05.kt:4-23 | builds the stacks bottom-up from the drawing (number line dropped, stack count (len+1)/4) and agrees with the stacks read from the columns |
| Day05.ParseOperation | src/Day05.kt:28-29 | a parsed move takes its amount from word 1 and its 1-based source and target stacks from words 3 and 5 |
| Day05.ParseOperations | src/Day05.kt:25-31 | succeeds exactly when every line is a move and keeps one move per line in order |
| Day05.FirstEmptyLine | src/Day05.kt:34 | finds the first empty line, and fails only when there is none |
| Day05.SplitInput | src/Day05.kt:33-38 | the input is the drawing, one empty line and the moves, and the drawing has no empty line |
| Day05.TotalCratesUpdate | src/Day05.kt:42-48 | replacing one stack changes the crate total by the difference of the two stack sizes |
| Day05.MoveTop | src/Day05.kt:46 | moving one crate keeps the number of stacks |
| Day05.RepeatMoveTop | src/Day05.kt:45-47 | repeating single moves keeps the number of stacks |
| Day05.MoveOneByOneClosedForm | src/Day05.kt:42-48 | the CrateMover 9000 moving n crates between different stacks takes the top n crates off the source and puts them on the target in reverse order, and fails when the source holds fewer than n |
| Day05.MoveOneByOneSameStack | src/Day05.kt:42-48 | a 9000 move from a stack to itself leaves everything unchanged, failing only on an empty stack |
| Day05.Move9001 | src/Day05.kt:54-62 | a CrateMover 9001 move keeps the number of stacks |
| Day05.Move9001Block | src/Day05.kt:54-62 | the CrateMover 9001 moves the top n crates as one block, keeping their order, and fails when the source holds fewer than n |
| Day05.MovesPreserveCrates | src/Day05.kt:42-62 | neither crane creates nor destroys crates |
| Day05.CranesAgree | src/Day05.kt:42-62 | both cranes fail on the same moves, leave the source and untouched stacks equal, and the 9000's pile on the target is the 9001's pile reversed |
| Day05.Rearrange | src/Day05.kt:42-62 | applying a list of moves keeps the number of stacks |
| Day05.TopCrates | src/Day05.kt:49 | the answer has one letter per stack, the top crate of each, and fails exactly when a stack is empty |
| Day05.Run | src/Day05.kt:40-64 | the loop over moves on an array of stacks computes the functional rearrangement followed by the top crates |
| Day05.RearrangeNext | src/Day05.kt:42-48 | performing one more move extends the rearrangement by that move |
| Day05.RearrangeFailed | src/Day05.kt:42-48 | once one move fails the whole rearrangement fails |
| Day05.ApplyMove9000 | src/Day05.kt:43-47 | updates the stack array in place to the 9000's result, failing exactly when that move fails |
| Day05.RepeatFailed | src/Day05.kt:45-46 | removing from an empty stack during a repeat fails the whole repeat |
| Day05.PopBlock | src/Day05.kt:57-60 | removing n crates one by one collects the top n in reverse order and shortens the source by n, failing exactly when there are fewer than n |
| Day05.PushAll | src/Day05.kt:61 | appends the block to the target stack and changes nothing else |
| Day05.ApplyMove9001 | src/Day05.kt:55-61 | updates the stack array in place to the 9001's result, failing exactly when that move fails |
| Day05.RearrangeKeepsCrates | src/Day05.kt:40-62 | a whole list of moves, with either crane, keeps the number of crates |
| Day05.Solve | src/Day05.kt:33-64 | an answer needs the input split into a drawing and moves that all parse, and has one letter per stack of the drawing |
| Day05.Part1 | src/Day05.kt:40-50 | part 1 is the top crates after rearranging with the 9000 |
| Day05.Part2 | src/Day05.kt:52-64 | part 2 is the top crates after rearranging with the 9001 |
| Day07.SizeAllConcat | src/Day07.kt:7 | the size of a directory's children is additive over concatenation of the child list |
| Day07.ToCommand | src/Day07.kt:20-27 | a command line parses to `ls` exactly when its second word is "ls", and a parsed command has at least two words |
| Day07.ToFile | src/Day07.kt:57-58 | a listing line parses to a file, never a directory |
| Day07.CloseDirectory | src/Day07.kt:42-44 | closing the current directory keeps the builder well formed and pops exactly one level |
| Day07.Step | src/Day07.kt:36-61 | processing one line keeps the builder well formed (one children list per path segment) |
| Day07.Replay | src/Day07.kt:35-62 | processing all lines keeps the builder well formed |
| Day07.Unwind | src/Day07.kt:64-68 | closing the remaining directories leaves exactly the root's children |
| Day07.ToSystem | src/Day07.kt:29-71 | the loop over lines with a mutable path and children stack builds the same tree as the functional replay |
| Day07.CloseTop | src/Day07.kt:65-67 | one close step on the mutable path and stack equals the functional close |
| Day07.ReplayFails | src/Day07.kt:35-62 | a line that cannot be parsed makes the whole build fail |
| Day07.CloseDirectoryKeepsSize | src/Day07.kt:42-44 | closing a directory neither adds nor loses file bytes |
| Day07.StepKeepsSize | src/Day07.kt:36-61 | each line adds exactly the size of the file it lists, if any |
| Day07.EnterKeepsSize | src/Day07.kt:47-48 | entering a directory adds no bytes |
| Day07.FileKeepsSize | src/Day07.kt:58 | recording a file adds exactly its size |
| Day07.ReplayKeepsSize | src/Day07.kt:35-62 | after all lines the builder holds exactly the total size of the listed files |
| Day07.UnwindKeepsSize | src/Day07.kt:64-68 | the final unwinding neither adds nor loses bytes |
| Day07.RootSizeIsFileTotal | src/Day07.kt:29-71 | the root's size is the sum of all file sizes in the listing after the first line |
| Day07.StepDepth | src/Day07.kt:39-50 | `cd ..` goes up one level, any other `cd` goes down one, every other line keeps the depth |
| Day07.Flatmap | src/Day07.kt:73-81 | the walk of a tree starts with the tree itself and has exactly one entry per node of the tree |
| Day07.FlatmapAll | src/Day07.kt:75-80 | the walks of a list of children together have one entry per node below them |
| Day07.WalkMeetsEveryDirectory | src/Day07.kt:73-87 | the directory sizes met by the walk are, as a multiset, exactly the sizes of the directories of the tree, each once |
| Day07.WalkMeetsEveryDirectoryAll | src/Day07.kt:75-80 | the same holds for a list of children |
| Day07.SizeIsFilesOfWalk | src/Day07.kt:7 | a directory's size is the sum of the sizes of the files in its walk |
| Day07.SizeAllIsFilesOfWalk | src/Day07.kt:7 | the same holds for a list of children |
| Day07.DirectorySizes | src/Day07.kt:87-101 | keeping only directories yields at most as many sizes as nodes |
| Day07.SumAtMost | src/Day07.kt:88-89 | the sum of the sizes at most the limit is at most count times limit |
| Day07.SumAtMostConcat | src/Day07.kt:88-89 | the filtered sum distributes over concatenation |
| Day07.WalkSumIsTreeSum | src/Day07.kt:83-90 | summing the small directory sizes met by the walk equals the tree-recursive total of the small directories |
| Day07.WalkSumIsTreeSumAll | src/Day07.kt:75-89 | the same holds for a list of children |
| Day07.Part1IsSmallDirectoryTotal | src/Day07.kt:83-90 | part 1 succeeds exactly when the listing builds a tree, and is then the total size of the directories of at most 100 000 bytes, each directory counted once |
| Day07.FirstAtLeast | src/Day07.kt:103 | returns a listed size at least the bound, the smallest such size when the list is ascending, and fails only when no size reaches the bound |
| Day07.FirstOfSortedIsSmallest | src/Day07.kt:101-103 | the first sufficient size after sorting is the smallest sufficient size of the unsorted list |
| Day07.Part2IsSmallestSufficient | src/Day07.kt:92-104 | part 2 is the size of the smallest directory whose deletion frees enough space (30 000 000 of 70 000 000), failing only when none does |
| Day07.Part2IsSmallestDirectoryOfTree | src/Day07.kt:92-104 | stated over the directories of the tree itself: part 2 is the size of a directory of the tree that frees enough space and no larger than any other such directory, and fails only when none does |
| Day07.RootIsFirstDirectory | src/Day07.kt:74-96 | the root is the first directory of its walk, so its size is among part 2's candidates |
| Day07.DirectorySizesPrefix | src/Day07.kt:87 | filtering directories distributes over concatenation |
| Day07.FileSizesConcat | src/Day07.kt:7 | summing file sizes distributes over concatenation |
| Day08.ToGrid | src/Day08.kt:4 | succeeds exactly when every character is a digit, and keeps each digit's value at its row and column |
| Day08.ColumnOfRectangle | src/Day08.kt:6-15 | in a rectangular grid, column c lists grid[r][c] for every row r |
| Day08.ColumnsSpec | src/Day08.kt:5-15 | the transposition fails exactly when a row is longer than the first, and otherwise yields one column per entry of the first row |
| Day08.Columns | src/Day08.kt:6-15 | the nested loop that appends each cell to its column computes the transposition |
| Day08.SubList | src/Day08.kt:28-31 | `subList` succeeds exactly when 0 <= from <= to <= size |
| Day08.RowVisible | src/Day08.kt:23-35 | the count of visible trees among the first j columns of a row is at most j |
| Day08.GridVisibleBound | src/Day08.kt:22-37 | the count over the first i rows is at most i times the number of columns |
| Day08.Part1Bounds | src/Day08.kt:17-38 | part 1 counts at most one tree per cell of the grid |
| Day08.Part1SpecSquare | src/Day08.kt:17-38 | on a square grid of digits, part 1 is the number of visible trees |
| Day08.Part1 | src/Day08.kt:17-38 | the nested counting loops compute the functional count of visible trees |
| Day08.CountVisibleTrees | src/Day08.kt:22-36 | the outer loop over rows computes the functional count |
| Day08.CountVisibleInRow | src/Day08.kt:23-35 | the inner loop adds exactly the row's count of visible trees, failing exactly when a `subList` would throw |
| Day08.RowFailureStays | src/Day08.kt:23-35 | once a `subList` throws within a row, the row fails |
| Day08.GridFailureStays | src/Day08.kt:22-36 | once a row fails, the whole count fails |
| Day08.VisibleAtSquare | src/Day08.kt:27-32 | on a square grid the four `none` tests say exactly that the tree is taller than every tree on some side up to the edge |
| Day08.AllLowerSlice | src/Day08.kt:28-31 | `none { it >= height }` on a slice means every tree in that stretch is lower |
| Day08.BorderIsVisible | src/Day08.kt:28-31 | every tree on the edge of a square grid is visible |
| Day08.RowVisibleSquare | src/Day08.kt:23-35 | on a square grid the row count equals the number of visible trees in that row's first j columns |
| Day08.RowVisibleNext | src/Day08.kt:23-35 | one more column adds one exactly when that tree is visible |
| Day08.GridVisibleSquare | src/Day08.kt:17-38 | on a square grid part 1 is the number of visible trees in the grid |
| Day08.RunUp | src/Day08.kt:52-54 | `takeWhile` of lower trees counts at most the length of the stretch |
| Day08.RunDown | src/Day08.kt:51-53 | `takeLastWhile` of lower trees counts at most the length of the stretch |
| Day08.RunUpIsMaximal | src/Day08.kt:52-54 | the trees counted going outwards are all lower, and the first tree not counted (if any) is at least as tall |
| Day08.RunDownIsMaximal | src/Day08.kt:51-53 | the same looking towards the start of the row or column |
| Day08.DistancesSquare | src/Day08.kt:51-60 | on a square grid each viewing distance of an interior tree is at least 1 and at most the distance to the edge |
| Day08.RowBestIsMaximum | src/Day08.kt:46-64 | the best score in a row is a maximum: no interior tree beats it, and it is 0 or some tree's scenic score |
| Day08.GridBestIsMaximum | src/Day08.kt:45-65 | part 2 is the maximum scenic score over interior trees, or 0 |
| Day08.InteriorBestIsMaximum | src/Day08.kt:40-67 | the interior's best score is 0 without an interior, fails only when a row's search fails, and is otherwise a maximum: no interior tree scores more and a positive best is some interior tree's score |
| Day08.Part2SpecIsInteriorBest | src/Day08.kt:40-67 | part 2 is the best scenic score of the parsed grid's interior, failing exactly when parsing, the transposition or that search fails |
| Day08.Part2 | src/Day08.kt:40-67 | the nested loops compute the functional best scenic score |
| Day08.BestInterior | src/Day08.kt:45-65 | the outer loop over interior rows computes the functional maximum |
| Day08.BestInRow | src/Day08.kt:46-64 | the inner loop raises the running maximum to the row's best, failing exactly when a `subList` would throw |
| Day08.BestRowFailureStays | src/Day08.kt:46-64 | once a tree's score fails, the row fails |
| Day08.BestGridFailureStays | src/Day08.kt:45-65 | once a row fails, part 2 fails |
| Day09.DirectionIsUnit | src/Day09.kt:3-12 | every direction moves by at most one in each axis and is never the null move |
| Day09.Plus | src/Day09.kt:16 | one step moves a knot to a different position that still touches where it was |
| Day09.TouchesIsOneStep | src/Day09.kt:17 | two knots touch exactly when they coincide or one step in one of the eight directions leads from one to the other |
| Day09.TouchesReflexiveSymmetric | src/Day09.kt:17 | a knot touches itself, and touching is symmetric |
| Day09.DirectionTowards | src/Day09.kt:22-45 | there is no adjustment exactly when the knots touch, and otherwise the adjustment steps by the sign of the difference in each axis |
| Day09.FollowCatchesUp | src/Day09.kt:67-74 | a knot that touched its predecessor, which then moved by at most one, touches it again after following and itself moved by at most one |
| Day09.StepPrefix | src/Day09.kt:60-77 | building the new rope knot by knot yields exactly as many knots as requested |
| Day09.Step | src/Day09.kt:59-77 | one step of the head keeps the rope's length |
| Day09.StepPrefixLast | src/Day09.kt:61-76 | each knot is added by moving the head or by following the already-built previous knot |
| Day09.StepPrefixMoves | src/Day09.kt:60-77 | in a taut rope the head moves by the direction and every knot moves by at most one |
| Day09.StepPrefixTouches | src/Day09.kt:60-77 | after the step every knot touches its predecessor |
| Day09.StepKeepsTaut | src/Day09.kt:59-77 | a step keeps the rope taut (neighbouring knots touch), moves the head by the direction and each knot by at most one |
| Day09.StartRope | src/Day09.kt:50 | the starting rope has the requested length with every knot at the origin, so it is taut |
| Day09.RepeatSteps | src/Day09.kt:55-57 | repeating steps keeps the rope's length |
| Day09.RunMoves | src/Day09.kt:97 | running all moves keeps the rope's length |
| Day09.StepSimulationValid | src/Day09.kt:59-79 | a step keeps the rope taut, the tail's position among the visited set and the visited set growing |
| Day09.RepeatStepsValid | src/Day09.kt:55-57 | the same holds for a repeated move |
| Day09.RunMovesValid | src/Day09.kt:97 | the same holds for a whole list of moves |
| Day09.RopeSimulator.constructor | src/Day09.kt:49-51 | starts with all knots at the origin and only the origin visited |
| Day09.RopeSimulator.NumberOfTouchedByTail | src/Day09.kt:53 | the tail has always visited at least one position |
| Day09.RopeSimulator.MoveHeadStep | src/Day09.kt:59-79 | replaces the rope with the stepped rope and records the new tail position, keeping the simulator's invariant |
| Day09.RopeSimulator.MoveHead | src/Day09.kt:55-57 | performs the step `amount` times (none when it is not positive), keeping the invariant |
| Day09.ToHeadDirection | src/Day09.kt:83-89 | only U, R, D and L parse, to the four straight directions |
| Day09.ToHeadMoves | src/Day09.kt:91-95 | parsing all lines succeeds exactly when every line parses |
| Day09.VisitedAtLeastOne | src/Day09.kt:94-106 | either part counts at least one visited position |
| Day09.RunMovesNext | src/Day09.kt:97 | one more move extends the run by that move's repeated steps |
| Day09.CountVisited | src/Day09.kt:94-106 | the loop feeding each move to a fresh simulator returns the number of distinct tail positions of the functional run |
| Day09.Part1 | src/Day09.kt:94-99 | part 1 is the count for a rope of 2 knots |
| Day09.Part2 | src/Day09.kt:101-106 | part 2 is the count for a rope of 10 knots |
| Day10.CpuInstruction.Cycles | src/Day10.kt:1-11 | `noop` takes one cycle and `addx` two |
| Day10.Next | src/Day10.kt:25-28 | `noop` keeps the register and `addx v` adds v to it |
| Day10.Copies | src/Day10.kt:20-22 | the repeated record holds n copies of the same state |
| Day10.Executed | src/Day10.kt:19-29 | executing an instruction appends the current state once per cycle, keeps the earlier history and then updates the register |
| Day10.RunShape | src/Day10.kt:16-29 | the history starts with x = 1, has one entry plus one per cycle, and the final x is 1 plus everything added |
| Day10.RunPrefix | src/Day10.kt:19-29 | the history of a program prefix is a prefix of the full history |
| Day10.HistogramDuringInstruction | src/Day10.kt:20-22 | the entries recorded during an instruction's cycles hold the register as it was before that instruction |
| Day10.CpuSimulator.constructor | src/Day10.kt:15-17 | starts with x = 1 and a history holding that one state |
| Day10.CpuSimulator.Execute | src/Day10.kt:19-29 | updates the history and register in place as the functional execution does |
| Day10.Simulate | src/Day10.kt:61-63 | feeding every instruction to a fresh simulator yields the functional run of the program |
| Day10.FirstWord | src/Day10.kt:51 | the instruction word is the longest prefix without a space |
| Day10.LastWord | src/Day10.kt:52 | the argument is the longest suffix without a space |
| Day10.FirstWordOf | src/Day10.kt:51 | the first word of "a b" is a |
| Day10.LastWordOf | src/Day10.kt:52 | the last word of "a b" is b |
| Day10.ToCpuInstruction | src/Day10.kt:50-58 | a line is `noop` exactly when its first word is "noop", and `addx` exactly when its first word is "addx" and its last word is a number |
| Day10.ToCpuInstructionShow | src/Day10.kt:50-58 | every instruction written out in the puzzle's format parses back to itself |
| Day10.ToAddX | src/Day10.kt:55 | "addx v" parses to `addx` with argument v for every integer v |
| Day10.ParseProgram | src/Day10.kt:61 | succeeds exactly when every line parses and keeps one instruction per line |
| Day10.SampledWindow | src/Day10.kt:65-67 | within one 40-cycle window only the cycle that is 20 mod 40 contributes |
| Day10.SignalFromIsSampled | src/Day10.kt:65-67 | the stepped loop from i equals the sum, over the history's indices at or above i that are 20 mod 40, of x times the index |
| Day10.NothingSampledBelow20 | src/Day10.kt:65 | no index below 20 contributes |
| Day10.SignalStrengthIsSampled | src/Day10.kt:64-68 | the signal strength is the sum of x times i over every index i of the history with i mod 40 == 20 |
| Day10.SignalStrength | src/Day10.kt:64-68 | the stepped loop computes that sum |
| Day10.Part1SpecIsSampled | src/Day10.kt:60-69 | part 1 fails exactly when a line is not an instruction, and is otherwise the sum of x times i over the history entries i with i mod 40 == 20 |
| Day10.Part1 | src/Day10.kt:60-69 | part 1 is the sampled signal strength of the parsed program's history |
| Day10.CursorColumns | src/Day10.kt:35-46 | the cursor is (cycle - 1) mod 40, the pixel is lit exactly when the cursor is within one of x, and a line ends exactly at cycles that are multiples of 40 |
| Day10.ScreenLength | src/Day10.kt:76-79 | the screen text has one character per cycle after the first and one line break per 40 cycles |
| Day10.Part2SpecLength | src/Day10.kt:71-80 | part 2 fails exactly when a line is not an instruction, and otherwise prints one pixel per cycle of the program and one line break per 40 cycles |
| Day10.Part2 | src/Day10.kt:71-80 | part 2 is the screen drawn from the history, returned as text |
| Day11.NewWorry | src/Day11.kt:20-31 | the new worry level is old plus or times the argument ("old" meaning the old level), and fails exactly for an unknown operator or an argument that is not a number |
| Day11.Inspect | src/Day11.kt:18-36 | one inspection applies the operation, takes the truncating remainder by the limit, divides by the relief factor if any and throws to the true or false target by divisibility, failing exactly on a failed operation or a division by zero |
| Day11.MultipleAtLeast | src/Day11.kt:69 | a multiple by a positive factor is at least the number |
| Day11.RemainderUnique | src/Day11.kt:33-36 | remainders of the same sign class by the same divisor are unique |
| Day11.TRemShift | src/Day11.kt:33 | shifting by a multiple of d without crossing zero keeps the truncating remainder by d |
| Day11.RemainderFacts | src/Day11.kt:33-36 | truncating division and remainder satisfy a == b*q + r with r smaller than b and of a's sign |
| Day11.ShiftedRemainder | src/Day11.kt:33 | two decompositions by d of numbers of the same sign differing by a multiple of d have the same remainder |
| Day11.LimitKeepsRemainder | src/Day11.kt:63-69 | taking the remainder by a multiple of d first does not change the remainder by d |
| Day11.Divisors | src/Day11.kt:69 | lists each monkey's divisor in order |
| Day11.ProductMultiple | src/Day11.kt:69 | the product of the divisors is a multiple of each divisor |
| Day11.LimitKeepsRouting | src/Day11.kt:33-69 | without relief, reducing by the product of all divisors never changes which monkey an item is thrown to |
| Day11.TotalItemsUpdate | src/Day11.kt:17-39 | replacing one monkey's queue changes the item total by the difference of the queue lengths |
| Day11.ThrowFirst | src/Day11.kt:18-38 | throwing the front item removes it from the thrower (and puts it back at the end when the monkey targets itself), counts one inspection for it and no other monkey, and fails exactly when the inspection fails or the target is not a monkey |
| Day11.ThrowFirstMovesOneItem | src/Day11.kt:36-38 | the new worry level is appended to another target's queue, all other queues stay, and the number of items is unchanged |
| Day11.Turn | src/Day11.kt:16-40 | a turn, cut after `fuel` throws, keeps the troop's shape |
| Day11.TurnFuel | src/Day11.kt:17 | a turn that does not run out of fuel gives the same troop with any larger fuel, and one that runs out fails: the bound changes nothing where the Kotlin loop ends within it |
| Day11.ThrowsAwayEnds | src/Day11.kt:17-38 | a monkey that never targets itself finishes its turn with one unit of fuel per item it holds |
| Day11.SelfTargetTurnEnds | src/Day11.kt:17-38 | a monkey that may target itself can still finish its turn: the item 1 under "new = old + 1", test 2, limit 10 returns once as 2 and leaves as 3 after two inspections |
| Day11.TurnFacts | src/Day11.kt:16-40 | after a turn the monkey holds nothing, has inspected at least one item per item it held (exactly that when it never targets itself), no other count changed, and no item was lost |
| Day11.TurnsUpTo | src/Day11.kt:70-71 | turns of the first k monkeys keep the troop's shape |
| Day11.Round | src/Day11.kt:70-71 | a round keeps the troop's shape |
| Day11.Rounds | src/Day11.kt:77-88 | many rounds keep the troop's shape |
| Day11.TurnsKeepItems | src/Day11.kt:70-71 | turns never create or destroy items |
| Day11.RoundsKeepItems | src/Day11.kt:77-88 | rounds never create or destroy items |
| Day11.TurnsFailureStays | src/Day11.kt:70-71 | a failed turn fails the round |
| Day11.RoundsFailureStays | src/Day11.kt:77-79 | a failed round fails all later round counts |
| Day11.Zeros | src/Day11.kt:10 | every monkey starts with zero inspections |
| Day11.Monkeys.constructor | src/Day11.kt:52-59 | the troop starts with the parsed queues and zero inspections |
| Day11.Monkeys.TakeTurn | src/Day11.kt:16-40 | the loop emptying one monkey's queue updates the troop in place as the functional turn with the same fuel does, failing exactly when it fails |
| Day11.Monkeys.ThrowFirstItem | src/Day11.kt:18-38 | one iteration updates the queues and counts as the functional throw does |
| Day11.Monkeys.TakeAllTurns | src/Day11.kt:70-71 | the loop over monkeys performs one functional round |
| Day11.MonkeyBusiness | src/Day11.kt:72 | the product of the two largest counts fails exactly when there are no monkeys |
| Day11.MonkeyBusinessIsTopTwo | src/Day11.kt:72 | with two or more monkeys, monkey business is the product of the counts of two different monkeys, the largest and the largest among the rest |
| Day11.TopTwo | src/Day11.kt:72 | the first two entries of the descending sort are the counts of two different monkeys, the largest and the second largest |
| Day11.InSortedTail | src/Day11.kt:72 | every count other than the chosen maximum appears after the head of the sort |
| Day11.WithoutOne | src/Day11.kt:72 | removing one entry removes exactly one occurrence from the multiset |
| Day11.SecondPlace | src/Day11.kt:72 | the second entry of the sort is the count of a monkey other than the first |
| Day11.ToOperation | src/Day11.kt:48 | the operation line parses exactly when it has an operator and an argument |
| Day11.ParseMonkey | src/Day11.kt:44-59 | a parsed block has six lines and its header names its own index |
| Day11.ParseBlocks | src/Day11.kt:44 | parsing all blocks succeeds exactly when each does and keeps them in order |
| Day11.ToMonkeys | src/Day11.kt:43-61 | parses one monkey per 7-line block, each numbered by its position |
| Day11.Rules | src/Day11.kt:52-59 | keeps the rules of each parsed monkey in order |
| Day11.StartingItems | src/Day11.kt:47-54 | keeps the starting items of each parsed monkey in order |
| Day11.Business | src/Day11.kt:74-90 | monkey business is defined exactly when the input parses into at least one monkey and all the rounds succeed |
| Day11.Solve | src/Day11.kt:74-90 | the rounds on the mutable troop compute the functional monkey business |
| Day11.Part1 | src/Day11.kt:74-81 | part 1 is monkey business after 20 rounds with relief 3, for any input and any bound on the throws of a turn |
| Day11.Part2 | src/Day11.kt:83-90 | part 2 is monkey business after 10 000 rounds without relief, for any input and any bound on the throws of a turn |
| Day11.BusinessKeepsItems | src/Day11.kt:74-90 | the troop holds as many items at the end as at the start |
| Day12.HeightRange | src/Day12.kt:3-7 | map letters have heights 0 to 25, 'S' as low as 'a' and 'E' as high as 'z' |
| Day12.LeastSteps | src/Day12.kt:48-66 | a node reachable in some number of steps has a least such number |
| Day12.Steps | src/Day12.kt:48-66 | the shortest-walk length is reached and nothing shorter is |
| Day12.FoundIsShortest | src/Day12.kt:48-66 | a returned distance is reached from a start by a walk of that length, and no shorter walk reaches the end |
| Day12.ReachesStart | src/Day12.kt:23 | every start cell is at distance 0 |
| Day12.ReachesNext | src/Day12.kt:57-59 | following an edge from a node reached in k steps reaches its neighbour in k + 1 |
| Day12.StartDistances | src/Day12.kt:23 | the initial distance is 0 exactly for 'S' cells and infinite (Int.MAX_VALUE) for all others |
| Day12.RemoveMembership | src/Day12.kt:51 | removing the chosen node from the working set removes exactly that node and keeps it duplicate-free |
| Day12.Frontier | src/Day12.kt:48-66 | under the search invariant, every walk either already has its last node settled within its length or passes a working-set node whose distance is within its position |
| Day12.NothingLeft | src/Day12.kt:53-56 | when every remaining node is unreached, the end is unreachable, so returning null is right |
| Day12.EndFound | src/Day12.kt:57-62 | improving the end's distance from the nearest remaining node yields the shortest distance to the end |
| Day12.LeakFails | src/Day12.kt:60 | without an 'E', the first improvement reads the uninitialised end and throws |
| Day12.MinBy | src/Day12.kt:50 | selects a node of least distance, the first such in working-set order |
| Day12.Relax | src/Day12.kt:51-64 | relaxing the nearest node either returns the search's final outcome or keeps the invariant on the smaller working set |
| Day12.SettledUnchanged | src/Day12.kt:57-64 | relaxation never changes a node already removed from the working set |
| Day12.RelaxKeepsSound | src/Day12.kt:57-64 | every finite distance after relaxation is the length of a real walk |
| Day12.RelaxKeepsRelaxed | src/Day12.kt:57-64 | every edge out of a settled node is relaxed afterwards |
| Day12.RelaxKeepsOrdered | src/Day12.kt:49-64 | settled distances never exceed those still in the working set |
| Day12.RelaxKeepsInv | src/Day12.kt:49-64 | one iteration keeps the whole search invariant |
| Day12.RelaxKeepsStartAndEnd | src/Day12.kt:57-62 | start cells keep distance 0 and the end is never improved without returning |
| Day12.Search | src/Day12.kt:48-66 | the working-set loop returns the shortest-path outcome of the graph |
| Day12.NeighborsOf | src/Day12.kt:31-46 | every neighbour index is a cell of the map |
| Day12.MulAtLeast | src/Day12.kt:40-45 | a positive multiple of b is at least b |
| Day12.SameCoordinates | src/Day12.kt:40-41 | row and column determine the index uniquely |
| Day12.Coordinates | src/Day12.kt:40-41 | index / rowLength and index % rowLength recover the row and column |
| Day12.LeftCoordinates | src/Day12.kt:42 | the left neighbour is in the same row, one column left |
| Day12.RightCoordinates | src/Day12.kt:43 | the right neighbour is in the same row, one column right |
| Day12.UpCoordinates | src/Day12.kt:44 | the upper neighbour is one row up, same column |
| Day12.DownCoordinates | src/Day12.kt:45 | the lower neighbour is one row down, same column |
| Day12.AdjacentIsCandidate | src/Day12.kt:40-45 | every grid-adjacent cell is one of the four candidates the source tries |
| Day12.NeighborsAdjacent | src/Day12.kt:31-46 | a listed neighbour is grid-adjacent and at most one unit higher |
| Day12.AdjacentNeighbors | src/Day12.kt:31-46 | every adjacent cell at most one unit higher is listed |
| Day12.NeighborsAreAdjacent | src/Day12.kt:31-46 | the neighbour list is exactly the adjacent cells at most one unit higher (below the last row only when there is one) |
| Day12.LinkNode | src/Day12.kt:32-45 | the four checks for one node compute its neighbour list |
| Day12.Link | src/Day12.kt:31-46 | the loop over nodes computes every neighbour list |
| Day12.LastIndexOf | src/Day12.kt:24-26 | the end is the last 'E' of the map, or none when there is no 'E' |
| Day12.Build | src/Day12.kt:17-28 | the cell loop lists the cells row by row, with start distances and the last 'E' as end |
| Day12.AppendDistance | src/Day12.kt:23 | one more cell appends its start distance |
| Day12.AppendEnd | src/Day12.kt:24-26 | one more 'E' cell becomes the end |
| Day12.AddRow | src/Day12.kt:18-27 | the inner loop extends cells, distances and end by one row |
| Day12.LinksWf | src/Day12.kt:31-46 | the linked map is a well-formed graph |
| Day12.FindShortestPath | src/Day12.kt:12-67 | the whole function computes the shortest-path outcome of the input map |
| Day12.Part1 | src/Day12.kt:89-91 | part 1 is the shortest distance, and fails when there is none |
| Day12.LowerStarts | src/Day12.kt:70 | replacing "S" by "a" changes exactly the 'S' characters |
| Day12.Candidate | src/Day12.kt:69-87 | a candidate map has the input's shape with 'S' at the chosen cell |
| Day12.RowOutcomesHas | src/Day12.kt:71-75 | every lowest cell of a row contributes its candidate's outcome |
| Day12.RowOutcomesFrom | src/Day12.kt:71-75 | every outcome of a row comes from one of its lowest cells |
| Day12.OutcomesMembership | src/Day12.kt:79-87 | an outcome is among part 2's outcomes exactly when some candidate start yields it |
| Day12.TallyOfMeaning | src/Day12.kt:95 | the tally fails exactly when some outcome throws, and otherwise holds the least found distance, absent exactly when none was found |
| Day12.TallyAppend | src/Day12.kt:95 | tallying one more outcome folds it into the tally |
| Day12.Part2IsMinimum | src/Day12.kt:93-96 | part 2 succeeds exactly when no candidate throws and some reaches the end, and is then the least distance over all candidates |
| Day12.RowOutcomesStep | src/Day12.kt:71-75 | each further cell adds its candidate's outcome when it is a lowest cell |
| Day12.TallyCell | src/Day12.kt:72-74 | one cell updates the running tally |
| Day12.TallyRow | src/Day12.kt:71-75 | one row updates the running tally with all its candidates |
| Day12.Part2 | src/Day12.kt:93-96 | the loops over rows and cells compute part 2's minimum |
| Day12.SimilarNeighbors | src/Day12.kt:31-46 | maps differing only in 'S' versus 'a' have the same neighbour lists |
| Day12.SimilarLinks | src/Day12.kt:31-46 | and so the same graph edges |
| Day12.SimilarEnd | src/Day12.kt:24-26 | and the same end |
| Day12.CandidateCells | src/Day12.kt:70-83 | a candidate map differs from the input only in 'S' versus 'a', and has 'S' at the chosen cell |
| Day12.CandidateGraph | src/Day12.kt:79-87 | a candidate map has the input's edges and end |
| Day12.CandidateNeverFails | src/Day12.kt:93-96 | when part 1 succeeds, no candidate throws |
| Day12.WalkTransfers | src/Day12.kt:69-87 | a walk of the input map is a walk of a candidate that starts at its first cell |
| Day12.StartCandidate | src/Day12.kt:69-87 | some candidate starts where a shortest walk of the input starts and does as well |
| Day12.Part2AtMostPart1 | src/Day12.kt:89-96 | when part 1 succeeds, part 2 succeeds and is at most part 1 |
| Day13.Size | src/Day13.kt:3-32 | every packet has positive size, the measure the comparison recurses on |
| Day13.SizeElement | src/Day13.kt:4 | no child is larger than its list |
| Day13.SizeSingle | src/Day13.kt:19-28 | wrapping a packet in a one-element list adds nothing to the children's size |
| Day13.SizeFirst | src/Day13.kt:4 | a list's size splits into its first child and the rest |
| Day13.Compare | src/Day13.kt:6-31 | the comparison always answers -1, 0 or 1 |
| Day13.CompareLists | src/Day13.kt:9-16 | the element-wise loop always answers -1, 0 or 1 |
| Day13.CompareItems | src/Day13.kt:29 | two integers compare as integers |
| Day13.WrapItem | src/Day13.kt:19-28 | an integer compared with a list is first wrapped in a one-element list, on either side |
| Day13.CompareSelf | src/Day13.kt:6-31 | every packet compares equal to itself |
| Day13.CompareListsSelf | src/Day13.kt:9-16 | the element loop on equal lists finds no difference |
| Day13.CompareAntisymmetric | src/Day13.kt:6-31 | swapping the operands negates the comparison |
| Day13.CompareListsAntisymmetric | src/Day13.kt:9-16 | the same for the element loop |
| Day13.Elements | src/Day13.kt:19-28 | the list a packet is compared as is smaller than the packet when it is a list |
| Day13.CompareViaLists | src/Day13.kt:6-31 | every comparison is the element loop on the two packets' lists |
| Day13.CompareTransitive | src/Day13.kt:6-31 | "at most" is transitive, so the comparison is a total preorder that `sorted()` can use |
| Day13.CompareListsTransitive | src/Day13.kt:9-16 | the same for the element loop |
| Day13.CompareListsLexicographic | src/Day13.kt:9-16 | the loop's answer is decided by the first differing element, or else by which list runs out first |
| Day13.FirstDifferenceDecides | src/Day13.kt:6-17 | two lists compare by their first differing element, or by length when one is a prefix of the other |
| Day13.DigitRunEnd | src/Day13.kt:42-44 | the digit loop stops at the first non-digit, and runs off the end (an exception) when there is none |
| Day13.DigitRunEndIs | src/Day13.kt:42-44 | the loop stops at j when s[i..j] is digits and s[j] is not |
| Day13.ParseNumber | src/Day13.kt:40-47 | a parsed number consumes at least one character and is an integer packet |
| Day13.ParsePacket | src/Day13.kt:49-55 | a parsed packet consumes at least one character |
| Day13.ParseListPacket | src/Day13.kt:65-70 | a parsed list runs from a '[' to its matching ']' within the input |
| Day13.ParseList | src/Day13.kt:57-63 | a parsed element list is non-empty and consumes input |
| Day13.ParseMore | src/Day13.kt:59-62 | the comma loop only appends elements |
| Day13.PacketParser.constructor | src/Day13.kt:34-72 | the parser's root packet is the functional parse of the whole line from index 0 |
| Day13.PacketParser.ConsumeNumber | src/Day13.kt:40-47 | advances the cursor and returns as the functional number parse does |
| Day13.PacketParser.ConsumePacket | src/Day13.kt:49-55 | advances the cursor and returns as the functional packet parse does |
| Day13.PacketParser.ConsumeList | src/Day13.kt:57-63 | advances the cursor and returns as the functional list parse does |
| Day13.PacketParser.ConsumeListPacket | src/Day13.kt:65-70 | advances the cursor and returns as the functional list-packet parse does |
| Day13.ToListPacket | src/Day13.kt:76 | a fresh parser yields the functional root packet |
| Day13.ExtendNumber | src/Day13.kt:40-47 | text after a parsed number does not change it |
| Day13.ExtendPacket | src/Day13.kt:49-55 | text after a parsed packet does not change it |
| Day13.ExtendListPacket | src/Day13.kt:65-70 | text after a parsed list does not change it |
| Day13.ExtendList | src/Day13.kt:57-63 | text after a parsed element list does not change it |
| Day13.ExtendMore | src/Day13.kt:59-62 | text after the comma loop's end does not change it |
| Day13.TrailingInputIgnored | src/Day13.kt:72 | text after the root packet is ignored |
| Day13.Encode | src/Day13.kt:5-25 | a written packet is non-empty and starts with a digit exactly when it is an integer, with '[' otherwise |
| Day13.EncodeAll | src/Day13.kt:5 | written children do not start with ']' or ',' |
| Day13.Tail | src/Day13.kt:5 | each further written child starts with ',' |
| Day13.HoldsAtSlice | src/Day13.kt:37-38 | text occurs at a position exactly when the slice there equals it |
| Day13.HoldsAtSplit | src/Day13.kt:37-38 | two texts occur in sequence exactly when their concatenation occurs |
| Day13.HoldsAtChar | src/Day13.kt:37-38 | an occurring text fixes each character it covers |
| Day13.ParseEncoded | src/Day13.kt:49-70 | a written packet followed by a non-digit parses back to that packet, ending right after it |
| Day13.ParseEncodedList | src/Day13.kt:57-63 | written children followed by ']' parse back to those children |
| Day13.ParseListStep | src/Day13.kt:58 | the element list is its first packet followed by the comma loop |
| Day13.ParseMoreStep | src/Day13.kt:59-62 | one comma and a packet extend the loop by that packet |
| Day13.ParseEncodedMore | src/Day13.kt:59-62 | ",p1,p2,..." followed by ']' parses back to p1, p2, ... |
| Day13.EndsBeforeDigit | src/Day13.kt:42 | what follows a written integer in a list is not a digit, so the digit loop stops there |
| Day13.TailHead | src/Day13.kt:5 | the first further child is a comma followed by that child's text |
| Day13.RootPacketEncoded | src/Day13.kt:72 | parsing a written list packet gives it back, whatever follows |
| Day13.PairScore | src/Day13.kt:82-85 | a pair scores exactly when both of its lines parse |
| Day13.Scores | src/Day13.kt:83-85 | each pair is scored with its own 1-based index |
| Day13.OrderedIndices | src/Day13.kt:83-85 | the indices kept are exactly the 1-based indices of pairs in the right order |
| Day13.Part1IsSumOfOrdered | src/Day13.kt:78-86 | part 1 succeeds exactly when every pair parses, and is the sum of the 1-based indices of ordered pairs |
| Day13.PrefixSum | src/Day13.kt:83-85 | summing the first n scores sums the ordered indices below n |
| Day13.NonEmptyLines | src/Day13.kt:94 | keeps exactly the non-empty lines |
| Day13.ParseAll | src/Day13.kt:95 | succeeds exactly when every kept line parses, keeping them in order |
| Day13.Insert | src/Day13.kt:97 | insertion adds exactly one packet |
| Day13.InsertSorted | src/Day13.kt:97 | insertion into a sorted list keeps it sorted |
| Day13.AppendAbove | src/Day13.kt:97 | a packet not below the last may be appended |
| Day13.InsertBelow | src/Day13.kt:97 | a packet below the last may be inserted before it |
| Day13.Sort | src/Day13.kt:97 | sorting is a permutation |
| Day13.SortSorted | src/Day13.kt:97 | sorting yields a list ordered by the packet comparison |
| Day13.PositionsSound | src/Day13.kt:98-100 | each kept position is a 1-based index of a divider, in increasing order |
| Day13.PositionsComplete | src/Day13.kt:98-100 | every divider's position is kept |
| Day13.PositionsCount | src/Day13.kt:98-100 | one position is kept per occurrence of a divider |
| Day13.DividersOrdered | src/Day13.kt:89-92 | [[2]] and [[6]] differ and [[2]] sorts first |
| Day13.WithDividers | src/Day13.kt:96-97 | the sorted list holds the packets plus both dividers |
| Day13.DecoderKeyOfDividers | src/Day13.kt:88-102 | when no input packet is a divider, the key is the product of the two dividers' 1-based positions, [[2]] before [[6]] |
| Day13.DecoderKeyIs | src/Day13.kt:98-101 | the key is the product of all divider positions, of which there is at least one |
| Day13.Part2Fails | src/Day13.kt:93-95 | part 2 fails exactly when some non-empty line does not parse |
| Day13.OccursOnce | src/Day13.kt:98-100 | an element occurring once occurs at no other index |
| Day13.DividersInOrder | src/Day13.kt:97 | in a sorted list [[6]] never precedes [[2]] |
| Day13.TwoDividers | src/Day13.kt:98-100 | with exactly one of each divider, [[2]] first, the positions are exactly those two |
| Day15.Distance | src/Day15.kt:9-12 | the taxicab distance is non-negative and zero exactly between equal points |
| Day15.DistanceMetric | src/Day15.kt:9-12 | the taxicab distance is symmetric, non-negative and zero exactly between equal points |
| Day15.RowsFromHits | src/Day15.kt:22-27 | the rows yielded for offsets up to k cover exactly the points within the radius whose row is at most k away from the sensor |
| Day15.ReachableRangeByRowCovers | src/Day15.kt:19-28 | a sensor's row ranges cover exactly the points no farther from it than its closest beacon |
| Day15.AllRangesCovers | src/Day15.kt:34-49 | all readings' ranges cover exactly the points some sensor covers |
| Day15.ReachableIsCovered | src/Day15.kt:32-37 | the reachable set is exactly the covered points of the measured row |
| Day15.Part1Counts | src/Day15.kt:30-42 | part 1 counts exactly the covered points of the row that are neither a sensor nor a beacon |
| Day15.Part1IsCount | src/Day15.kt:30-42 | part 1 is the number of points of the row that some sensor covers and that are neither a sensor nor a beacon |
| Day15.InSpace | src/Day15.kt:50 | keeps exactly the row ranges whose row lies in 0..maximum |
| Day15.Keys | src/Day15.kt:51-54 | the grouped rows are exactly the rows that have a range |
| Day15.Group | src/Day15.kt:51 | a row's group holds exactly the ranges yielded for that row |
| Day15.FirstHit | src/Day15.kt:59-65 | finds the first blocked area containing x, or reports that none does |
| Day15.ScanRowSound | src/Day15.kt:55-69 | a column the row scan returns lies in the scanned interval and no blocked area of the row contains it |
| Day15.ScanRowExhaustive | src/Day15.kt:55-69 | when the scan finds nothing, every column of the scanned interval is blocked |
| Day15.GroupCovers | src/Day15.kt:47-51 | in the solution space, a point is blocked in its row's group exactly when some sensor covers it |
| Day15.SearchRowsSound | src/Day15.kt:54-70 | a result of the row loop is the tuning frequency x*4000000 + y of an uncovered point of the space |
| Day15.SearchSound | src/Day15.kt:44-72 | the search only ever reports an uncovered point's tuning frequency |
| Day15.SearchRowsExhaustive | src/Day15.kt:54-70 | when the row loop finds nothing, every point of the scanned rows and columns is covered |
| Day15.SearchExhaustive | src/Day15.kt:44-72 | when the search finds nothing, every point in a row with some covered point is covered |
| Day15.Part2 | src/Day15.kt:44-72 | a result of part 2 as written is the tuning frequency x*4000000 + y of an uncovered point with 0 <= x < maximum and 0 <= y <= maximum |
| Day15.Part2Corrected | src/Day15.kt:54-57 | a result of the corrected search is the tuning frequency of an uncovered point of the whole space 0..maximum |
| Day15.Part2CorrectedComplete | src/Day15.kt:57 | with the guard `solution <= maximum`, an uncovered point in a row with blocked areas is always found |
| Day15.ExampleBlockedAreas | src/Day15.kt:19-50 | a sensor at (0,0) with its beacon at (0,1) blocks (0,1) and (-1..1, 0) in the space 0..1 |
| Day15.ExampleGroups | src/Day15.kt:51 | grouping keeps first-seen row order and each row's ranges in order |
| Day15.ExampleSearch | src/Day15.kt:54-70 | on that example the row loop finds nothing when scanning columns below 1, and finds (1,1) when scanning columns up to 1 |
| Day15.ExampleCoverage | src/Day15.kt:19-28 | in that example the sensor covers (0,1) but not (1,1) |
| Day15.Part2MissesLastColumn | src/Day15.kt:57 | the point (1,1) is uncovered yet part 2 with maximum 1 finds nothing, while the corrected guard finds it |
| Day15.JumpPastBlockedArea | src/Day15.kt:58-65 | jumps past the first blocked area that holds the current column, or reports that none does |
| Day15.ScanForGap | src/Day15.kt:55-69 | the while loop over one row's columns computes the functional row scan |
| Day15.FindDistressSignal | src/Day15.kt:44-72 | the loops over rows and columns compute part 2 as written |
| Day16.IdOf | src/Day16.kt:16 | a valve id `1L shl index` is a single bit below 64 |
| Day16.IdOfInjective | src/Day16.kt:16 | the first 64 valves get distinct single-bit ids |
| Day16.IdsRepeatAfter64 | src/Day16.kt:16 | the shift wraps, so the 65th valve gets the first valve's id |
| Day16.ToValves | src/Day16.kt:11-16 | the map holds exactly the rows' names, each mapped to the valve of some row with that name and that row's id |
| Day16.ValveIdsDistinct | src/Day16.kt:16 | with at most 64 rows every valve has its own single-bit id |
| Day16.PressureRemove | src/Day16.kt:18 | the released pressure of a set is one valve's rate plus that of the rest |
| Day16.PressureNonNegative | src/Day16.kt:18 | released pressure is never negative |
| Day16.PressureAdd | src/Day16.kt:18 | opening one more valve adds its flow rate |
| Day16.ReleasingPressure | src/Day16.kt:18 | the loop sums the flow rates of the open valves |
| Day16.OpenMask | src/Day16.kt:31 | the fold computes the bitwise OR of the open valves' ids |
| Day16.MaskInjective | src/Day16.kt:31-34 | with distinct single-bit ids, the mask determines the set of open valves, so the cache key is sound |
| Day16.MaskIncluded | src/Day16.kt:31-34 | a valve in one set is in every set with the same mask |
| Day16.SingleBitIs | src/Day16.kt:16 | a single-bit id is exactly its one bit |
| Day16.NextGains | src/Day16.kt:36-37 | one gain per tunnel |
| Day16.NextGainsAt | src/Day16.kt:36-37 | the gain of tunnel i is the search from that tunnel's valve |
| Day16.BestNextAt | src/Day16.kt:37 | `maxOf` is the largest gain over the tunnels |
| Day16.GainAtLeastIdle | src/Day16.kt:25-57 | the best gain is at least what the open valves release by staying idle |
| Day16.CacheInsert | src/Day16.kt:56 | storing the computed gain keeps every cache entry equal to the true gain for its key |
| Day16.PressureSearch.constructor | src/Day16.kt:21-24 | starts with no valve open and an empty cache |
| Day16.PressureSearch.CountPotentialGain | src/Day16.kt:25-57 | the memoised, backtracking search returns the released pressure so far plus the uncached recursive best gain, and leaves the open set as it found it |
| Day16.PressureSearch.OpenOrPass | src/Day16.kt:48-55 | the better of passing by and opening the valve, with the open set restored |
| Day16.PressureSearch.MaxPotentialGain | src/Day16.kt:36-37 | the loop over tunnels computes the best next gain |
| Day16.Part1 | src/Day16.kt:20-60 | part 1 is the best pressure released in 30 minutes starting at AA |
| Day16.HumanPairs | src/Day16.kt:84-89 | the human's moves pair each tunnel target with the elephant's valve |
| Day16.ElephantPairs | src/Day16.kt:91-96 | the elephant's moves pair the human's valve with each tunnel target |
| Day16.CartesianProduct | src/Day16.kt:66-70 | the product is non-empty when both target lists are and names only known valves |
| Day16.ProductLength | src/Day16.kt:66-70 | the product has one pair per combination |
| Day16.ProductHas | src/Day16.kt:66-70 | every combination of targets appears in the product |
| Day16.ProductOnly | src/Day16.kt:66-70 | only combinations of targets appear in the product |
| Day16.Gains | src/Day16.kt:84-104 | one gain per candidate pair |
| Day16.GainsAt | src/Day16.kt:84-104 | the gain of pair i is the search from that pair |
| Day16.Symmetric | src/Day16.kt:73-169 | at a minute where the search is symmetric, swapping human and elephant does not change the gain |
| Day16.Swap | src/Day16.kt:77 | swaps the two positions |
| Day16.BestPairSwapped | src/Day16.kt:99-104 | swapping every pair keeps the best gain |
| Day16.BothMoveSwapped | src/Day16.kt:99-104 | both moving gains the same after swapping roles |
| Day16.MovesSwapped | src/Day16.kt:84-96 | the human moving equals the elephant moving with the roles swapped |
| Day16.Gain2Symmetric | src/Day16.kt:73-169 | the two-agent gain is symmetric in human and elephant, which is why the cache key ORs their ids |
| Day16.Gain2SymmetricStep | src/Day16.kt:116-166 | one minute's choice is symmetric when the next minute's is |
| Day16.OneCanOpenSymmetric | src/Day16.kt:123-137 | the cases where exactly one can open mirror each other |
| Day16.BothCanOpenSymmetric | src/Day16.kt:139-166 | the case where both can open is symmetric |
| Day16.EitherOpeningSymmetric | src/Day16.kt:147-162 | opening by the human or by the elephant mirror each other |
| Day16.PairKeyDetermines | src/Day16.kt:78-79 | the ORed pair key determines the pair up to order |
| Day16.CacheInsert2 | src/Day16.kt:168 | storing the computed gain keeps the two-agent cache sound |
| Day16.ElephantSearch.constructor | src/Day16.kt:63-72 | starts with no valve open and an empty cache |
| Day16.ElephantSearch.CountPotentialGain | src/Day16.kt:73-169 | the memoised, backtracking two-agent search returns the released pressure plus the uncached recursive best gain, restoring the open set |
| Day16.ElephantSearch.LastMinute | src/Day16.kt:106-115 | at minute 25 both valves are opened for the final count and then closed again |
| Day16.ElephantSearch.BeforeLastMinute | src/Day16.kt:116-167 | before minute 25 the four cases of who can open are combined as the search defines |
| Day16.ElephantSearch.BothCanOpen | src/Day16.kt:139-166 | when both can open, the better of neither opening and the either-or-both options |
| Day16.ElephantSearch.EitherOrBothOpening | src/Day16.kt:146-163 | the best of the human opening, the elephant opening and both opening, with the open set restored |
| Day16.ElephantSearch.MaxOverPairs | src/Day16.kt:84-104 | the loop over candidate pairs computes their best gain |
| Day16.Part2 | src/Day16.kt:62-172 | part 2 is the best two-agent pressure from minute 1 starting both at AA |
| Day17.RotatedClockwise | src/Day17.kt:46-58 | turning clockwise is undone by turning counter-clockwise |
| Day17.RotationsInverse | src/Day17.kt:46-58 | the two turns are inverse, and four clockwise turns are the identity |
| Day17.Move | src/Day17.kt:39-65 | a move changes a point by exactly one unit in one axis |
| Day17.MoveBack | src/Day17.kt:60-65 | moving forward then in the opposite direction returns to the start |
| Day17.WithOffset | src/Day17.kt:44 | shifting a rock shifts every cell by the same amount and keeps the cell count |
| Day17.WithOffsetInverse | src/Day17.kt:44 | shifting back undoes a shift |
| Day17.ShapesWellFormed | src/Day17.kt:31-37 | there are five rock shapes, each inside columns 3..6, resting on row 1 with its top cell listed last |
| Day17.WithOffsetTopIsLast | src/Day17.kt:8-44 | shifting keeps the top cell last, so `topY` stays the rock's top |
| Day17.Spawn | src/Day17.kt:122 | a spawned rock keeps its top cell last |
| Day17.SpawnIsLegal | src/Day17.kt:122 | a rock spawned three rows above the tower fits inside the walls and overlaps nothing |
| Day17.WindShift | src/Day17.kt:127-131 | only '<' and '>' are winds, moving left and right |
| Day17.NextOffset | src/Day17.kt:123-126 | the cyclic counters advance by one modulo their length |
| Day17.Fall | src/Day17.kt:124-147 | a rock's fall always ends when the wind is valid, keeping the rock's size and a wind offset in range |
| Day17.FallRests | src/Day17.kt:124-147 | a rock that falls to rest is legal, cannot move down and keeps its top cell last |
| Day17.FallingRock | src/Day17.kt:124-147 | the inner `while (true)` loop computes the functional fall |
| Day17.RestingRockTop | src/Day17.kt:145 | a rock that rests has its top between row 1 and four rows above the tower |
| Day17.PlacedRockBelowTower | src/Day17.kt:122-146 | after a rock is spawned, falls and rests, every blocked cell is at or below the new tower height |
| Day17.PrunedBelowTower | src/Day17.kt:144-145 | whatever the outer-wall pruning keeps of the blocked cells lies below the new tower height |
| Day17.AddRockBelowTower | src/Day17.kt:144-145 | adding a resting rock's cells raises the bound to the higher of the tower and the rock's top |
| Day17.InShift | src/Day17.kt:161 | a cell is in the shifted set exactly when the cell below it by dy is blocked |
| Day17.NormalizedAfterShift | src/Day17.kt:161 | shifting both the blocked cells and the tower by the same height keeps the pattern key |
| Day17.ShiftBelowTower | src/Day17.kt:160-161 | shifting keeps the blocked cells below the raised tower |
| Day17.AllBehindAfterRock | src/Day17.kt:148 | recorded patterns stay behind the current count and height after one more rock |
| Day17.RecordStaysBehind | src/Day17.kt:163 | recording the current count and height keeps every pattern behind |
| Day17.AllBehindAfterSkip | src/Day17.kt:158-160 | recorded patterns stay behind after a skip |
| Day17.SkipBounds | src/Day17.kt:153-160 | a skip never passes the requested number of rocks and raises the tower at most four rows per skipped rock |
| Day17.DropOnce | src/Day17.kt:122-148 | one rock keeps both counters in range, advances the shape counter by one, and succeeds on a valid wind |
| Day17.DropOnceBounds | src/Day17.kt:122-148 | one rock raises the tower by at most four rows, to at least row 1, and keeps every blocked cell below it |
| Day17.Drops | src/Day17.kt:121-148 | dropping rocks one by one keeps both counters in range and fails on an empty pattern |
| Day17.DropsSucceed | src/Day17.kt:125-131 | dropping any number of rocks one by one succeeds on a valid wind |
| Day17.NextDropSucceeds | src/Day17.kt:121-148 | one more rock succeeds on a valid wind |
| Day17.DropsBounds | src/Day17.kt:121-148 | after n rocks dropped one by one the height is between 1 and 4n (0 for none) and every blocked cell is below it |
| Day17.NextDropBounds | src/Day17.kt:121-148 | the bounds of `DropsBounds` carry over one more rock |
| Day17.DropsFailureStays | src/Day17.kt:130 | once a rock fails, every later count fails |
| Day17.DropsNext | src/Day17.kt:121-148 | rock p + 1 is dropped onto the tower left by rock p |
| Day17.NewKeyUnseen | src/Day17.kt:150-152 | without repeated keys, the key after a rock was not recorded by any earlier rock |
| Day17.KnownFromRecord | src/Day17.kt:163 | recording the current key keeps every record the key of some tower dropped so far |
| Day17.Chamber.constructor | src/Day17.kt:68-119 | starts with an empty chamber, zero height, both counters at zero and no known patterns |
| Day17.Chamber.DropRock | src/Day17.kt:122-148 | drops one rock: blocked becomes the pruned cells with the rock added, the tower the higher of tower and rock top, and the counters advance, exactly as one step of the functional `DropOnce` |
| Day17.Chamber.Place | src/Day17.kt:144-148 | records a rested rock and advances the counters |
| Day17.Chamber.RecordOrSkip | src/Day17.kt:150-164 | a new pattern is recorded with the current count and height; a known one fast-forwards count, height and blocked cells by whole repetitions |
| Day17.SimulateFallingRocks | src/Day17.kt:67-168 | returns 0 for no rocks, always finishes on a valid wind, fails only on an invalid wind, the height is between 1 and four rows per rock, and when no pattern key repeats the result is the height after dropping every rock one by one |
| Day17.Part1 | src/Day17.kt:170 | part 1 succeeds on a valid wind with a height between 1 and 4 * 2022, and is the height after dropping 2022 rocks one by one when no pattern key repeats |
| Day17.Part2 | src/Day17.kt:171 | part 2 succeeds on a valid wind with a height between 1 and 4 * 10^12, and is the height after dropping 10^12 rocks one by one when no pattern key repeats |
| Day18.ToCubeFields | src/Day18.kt:4 | a line parses exactly when it has at least three comma-separated pieces, all numbers, and the cube takes the first three |
| Day18.ToCubeOfText | src/Day18.kt:4 | "x,y,z" parses back to the cube (x, y, z) |
| Day18.ToCubes | src/Day18.kt:9-16 | succeeds exactly when every line parses, one cube per line |
| Day18.Dedup | src/Day18.kt:9 | collecting into a hash set keeps each cube once and loses none |
| Day18.AsSet | src/Day18.kt:9 | the lava set holds exactly the listed cubes |
| Day18.Neighbors | src/Day18.kt:5-6 | a cube has six distinct neighbours, each sharing a face with it |
| Day18.AdjacentIsNeighbor | src/Day18.kt:5-6 | the neighbours are exactly the face-adjacent cubes, and adjacency is symmetric |
| Day18.PossibleAirCubes | src/Day18.kt:10 | six candidates per lava cube |
| Day18.Without | src/Day18.kt:11 | list minus set keeps, with repetitions, exactly the candidates that are not lava |
| Day18.Select | src/Day18.kt:37 | keeps, with repetitions, exactly the air cubes the water reached |
| Day18.Part1IsSurfaceArea | src/Day18.kt:8-13 | part 1 fails exactly when a line does not parse, and is the number of lava faces not touching other lava |
| Day18.FilteredEverything | src/Day18.kt:11 | counting with no restriction keeps every cube |
| Day18.FilteredConcat | src/Day18.kt:37 | filtering distributes over concatenation |
| Day18.WithoutConcat | src/Day18.kt:11 | list minus set distributes over concatenation |
| Day18.CountAround | src/Day18.kt:10-11 | the counted non-lava neighbours of one cube are exactly its counted open faces |
| Day18.AroundStep | src/Day18.kt:10-11 | one more neighbour adds one face exactly when it is counted and not lava |
| Day18.CountFaces | src/Day18.kt:10-12 | the length of the filtered candidate list is the number of counted open faces of the droplet |
| Day18.FacesStep | src/Day18.kt:10 | one more lava cube adds its own faces, disjoint from those already counted |
| Day18.SelectIsFiltered | src/Day18.kt:37 | selecting the water's cubes is filtering by membership in the water |
| Day18.BoxCells | src/Day18.kt:19-21 | the bounding box's cells are exactly the cubes within all three ranges |
| Day18.ClosedGrows | src/Day18.kt:25-33 | a cube whose open neighbours are all wet stays so as the water grows |
| Day18.StillClosed | src/Day18.kt:26-32 | after one neighbour's recursion, every newly wet cube still has all its open neighbours wet |
| Day18.FloodStep | src/Day18.kt:30-31 | an open neighbour of a flooded cube is flooded |
| Day18.PathEndsInWater | src/Day18.kt:25-35 | when every wet cube's open neighbours are wet, every water path from the source ends in the water |
| Day18.WaterFill.constructor | src/Day18.kt:23 | starts with no water |
| Day18.WaterFill.RecurseOutside | src/Day18.kt:25-33 | the recursion only adds cubes water can reach and leaves every open neighbour of each added cube wet |
| Day18.Flood | src/Day18.kt:23-35 | the water is exactly the set of cubes reachable from the box's lowest corner through open cells |
| Day18.AirBox | src/Day18.kt:19-21 | the box spans every air cube |
| Day18.NeighborInPossible | src/Day18.kt:10 | every neighbour of a lava cube is a candidate |
| Day18.AirBeyond | src/Day18.kt:11-21 | along each axis some air cube lies beyond every lava cube |
| Day18.DropletInsideBox | src/Day18.kt:19-35 | the droplet lies strictly inside the box, so the lowest corner is not lava |
| Day18.Part2 | src/Day18.kt:15-39 | part 2 fails exactly when a line does not parse or there are no cubes, counts the lava faces the water touches, and is at most part 1 |
| Day18.ExteriorCount | src/Day18.kt:37-38 | the number of air cubes the water reached is the number of exterior faces |
| Day19.MaxOreCost | src/Day19.kt:78 | the ore cap is the largest of the four ore costs |
| Day19.Moves | src/Day19.kt:64-106 | every minute offers at least one next state |
| Day19.BestOfIsUpperBound | src/Day19.kt:76-106 | the running maximum is at least every explored branch's result |
| Day19.BestOfAttained | src/Day19.kt:76-106 | the running maximum is some explored branch's result |
| Day19.BestOfAppend | src/Day19.kt:86-105 | exploring one more branch takes the larger of the old maximum and its result |
| Day19.GeodesAfterWaiting | src/Day19.kt:76-109 | without a geode purchase, the result is the best of waiting and the affordable capped purchases |
| Day19.MovesFollowRules | src/Day19.kt:64-106 | an affordable geode robot is always bought and nothing else tried; otherwise waiting comes first, and every branch ticks first and buys at most one affordable robot |
| Day19.MovesStayNonNegative | src/Day19.kt:64-106 | no branch drives robots or resources negative |
| Day19.MovesRespectCaps | src/Day19.kt:79-106 | ore robots are bought only with more minutes left than they cost and below the ore cap, clay and obsidian robots only below their caps, and at most one robot per minute |
| Day19.MovesCollectGeodes | src/Day19.kt:31-64 | every branch collects one geode per geode robot and adds at most one geode robot |
| Day19.FirstMove | src/Day19.kt:64-76 | the first branch's result never exceeds the minute's result |
| Day19.BestMove | src/Day19.kt:64-109 | some branch achieves the minute's result |
| Day19.GeodesAtLeastWaiting | src/Day19.kt:54-110 | the result is at least the geodes the current robots would crack by waiting, and is the geode count at 0 minutes |
| Day19.OneMinuteWaiting | src/Day19.kt:64 | one minute of waiting keeps the waiting bound |
| Day19.GeodesAtMostOneRobotPerMinute | src/Day19.kt:54-110 | the result is at most the waiting bound plus one new geode robot per remaining minute |
| Day19.OneMinuteBound | src/Day19.kt:64-106 | one minute keeps the upper bound |
| Day19.Simulation.constructor | src/Day19.kt:52 | starts with an empty cache |
| Day19.Simulation.SimulateMinute | src/Day19.kt:54-110 | the memoised search returns the uncached recursive maximum number of geodes, keeping every cache entry correct |
| Day19.Simulation.Explore | src/Day19.kt:76-109 | the non-geode branches together give the recursive maximum |
| Day19.RunSimulation | src/Day19.kt:51-114 | a blueprint's run starts from one ore robot and returns the result of the pruned search `Geodes` from that state in the given minutes (not proved to be the true optimum) |
| Day19.QualityLevels | src/Day19.kt:119-126 | one quality level per blueprint |
| Day19.QualitySumStep | src/Day19.kt:119-126 | each further blueprint adds its id times its maximum geodes |
| Day19.SumQualityLevels | src/Day19.kt:117-126 | the summing loop computes the sum of quality levels |
| Day19.Part1 | src/Day19.kt:116-127 | part 1 is the sum of quality levels for 24 minutes |
| Day19.MostGeodes | src/Day19.kt:133-140 | one maximum per blueprint |
| Day19.MostGeodesStep | src/Day19.kt:133-140 | each further blueprint appends its maximum |
| Day19.RunAll | src/Day19.kt:133-140 | the loop collects each blueprint's maximum in order |
| Day19.Part2 | src/Day19.kt:129-141 | part 2 is the product of the maxima over 32 minutes of the first three blueprints, failing (the empty product throws) exactly when there are none |
| Day20.IndexOf | src/Day20.kt:9-25 | every node has a position in the ring |
| Day20.Rotate | src/Day20.kt:74-80 | reading the ring from another node keeps its length |
| Day20.Move | src/Day20.kt:43-53 | taking a node out and putting it back keeps the ring's length |
| Day20.RotateIsRing | src/Day20.kt:74-80 | reading from another node still lists every node once |
| Day20.RotateLinked | src/Day20.kt:74-80 | the links describe the ring read from any node, which then starts with that node |
| Day20.MoveIsRing | src/Day20.kt:43-53 | moving a node still lists every node once |
| Day20.MoveLinked | src/Day20.kt:43-53 | the new links describe the moved ring, and the node that preceded the moved one now points to its old successor |
| Day20.Offset | src/Day20.kt:34-41 | the number of nodes the mixed node is put after is less than size - 1 |
| Day20.WalkLength | src/Day20.kt:33-41 | the forward walk takes value mod (size - 1) steps and the backward walk (-value) mod (size - 1); both give the same ring position, and the walk is empty exactly when that position is 0 |
| Day20.EuclideanRemainder | src/Day20.kt:34 | the remainder is determined by any division of the value |
| Day20.Mixed | src/Day20.kt:27-58 | mixing one node keeps every node exactly once in the ring |
| Day20.MixedMoves | src/Day20.kt:27-58 | mixing a node that moves takes it out and puts it back after Offset of the others, read from the node |
| Day20.Relinked | src/Day20.kt:43-53 | the three link operations keep the sizes of the link arrays |
| Day20.LinksInRange | src/Day20.kt:21-24 | the links of a ring point at nodes |
| Day20.SelfLinkWhenWalkIsEmpty | src/Day20.kt:34-53 | when the walk is empty (value a multiple of size - 1) the node is linked to itself and the links describe no ring at all |
| Day20.NoSelfLinks | src/Day20.kt:21-24 | in a ring of two or more, no node is its own successor |
| Day20.SingleZero | src/Day20.kt:19 | `single { it == 0 }` succeeds exactly when no other value is zero |
| Day20.NoZeros | src/Day20.kt:19 | there is no zero exactly when no value is zero |
| Day20.MutableRingBuffer.constructor | src/Day20.kt:14-25 | links the nodes in input order into a ring starting at the first, and requires a non-empty list with exactly one zero |
| Day20.MutableRingBuffer.Link | src/Day20.kt:60-63 | sets a's successor to b and b's predecessor to a and nothing else |
| Day20.MutableRingBuffer.DoMixing | src/Day20.kt:27-58 | the ring becomes the mixed ring, nothing changes when the node does not move, and the head moves to the old successor when the head itself moved |
| Day20.MutableRingBuffer.MoveFirst | src/Day20.kt:32-57 | walking and relinking moves the node j places on, adjusting the head |
| Day20.MutableRingBuffer.Walk | src/Day20.kt:32-41 | the walk lands on the node `steps` forward or backward from the mixed node |
| Day20.MutableRingBuffer.Relink | src/Day20.kt:43-53 | the three link operations compute the functional relinking |
| Day20.MutableRingBuffer.Get | src/Day20.kt:65-72 | returns the node index mod size places after the zero |
| Day20.MutableRingBuffer.ToList | src/Day20.kt:74-87 | iterates the ring from the head, listing every node once |
| Day20.RelinkedMoves | src/Day20.kt:43-53 | relinking at the node the walk reached moves the node as the ring-level move does |
| Day20.Identity | src/Day20.kt:17 | one node per item |
| Day20.MixAll | src/Day20.kt:88-90 | mixing in the original order keeps the ring |
| Day20.MixRounds | src/Day20.kt:97-101 | repeated rounds keep the ring |
| Day20.IdentityIsRing | src/Day20.kt:21-24 | the initial order is a ring |
| Day20.MixOnce | src/Day20.kt:88-90 | the loop over the original nodes mixes each once, in input order |
| Day20.MixAllStep | src/Day20.kt:88-90 | mixing one more node of the order mixes it into the ring the earlier nodes left |
| Day20.ReadCoordinates | src/Day20.kt:91 | sums the values 1000, 2000 and 3000 places after the zero |
| Day20.Part1 | src/Day20.kt:85-92 | part 1 fails exactly when the input is not a non-empty list of numbers with exactly one zero, and is the grove coordinate sum after one round of the corrected mixing (a node whose walk is empty stays put); where the source drops a node, as on [0, 2, 5], the source gives 10 and the model 7 |
| Day20.Scaled | src/Day20.kt:95 | multiplies every item by the key, which keeps exactly the zeros zero |
| Day20.ScaledZeroCount | src/Day20.kt:95 | scaling by a non-zero key keeps the number of zeros |
| Day20.Part2 | src/Day20.kt:94-103 | part 2 is the grove coordinate sum after ten rounds of the corrected mixing on the values times 811589153, failing on the same inputs as part 1 |
| Day21.ToMonkeyJob | src/Day21.kt:23-32 | a line parses only when it has a name and at least one more word |
| Day21.ParseJobText | src/Day21.kt:12-32 | parsing the text a job prints as gives back the job |
| Day21.ParseValueText | src/Day21.kt:19-26 | `name: value` parses back to the value job |
| Day21.ParseOperationText | src/Day21.kt:12-31 | `name: left op right` parses back to the operation job |
| Day21.ParseJobs | src/Day21.kt:33 | the list parses exactly when every line does, one job per line in order |
| Day21.AssociateByName | src/Day21.kt:33 | every parsed name is a key, every value is one of the parsed jobs, filed under its own name |
| Day21.FileStep | src/Day21.kt:33 | filing one more job keeps the table well formed and covering exactly the jobs seen |
| Day21.LastWins | src/Day21.kt:33 | a job whose name does not occur later is the one the table keeps, as `associateBy` keeps the last |
| Day21.ToMonkeyJobs | src/Day21.kt:33 | the table exists exactly when every line parses, and is well formed |
| Day21.Apply | src/Day21.kt:43-49 | an operation fails exactly on an unknown operator or a division by zero, and division truncates toward zero |
| Day21.EvalMonotone | src/Day21.kt:35-55 | a monkey's number, once found at some depth, is the same at every greater depth |
| Day21.EvalExtend | src/Day21.kt:35-55 | more jobs do not change a number already determined |
| Day21.SoundOperation | src/Day21.kt:39 | a job still waiting for an operation is the job from the input |
| Day21.ValueDepth | src/Day21.kt:50 | every number the reduction filled in is what that monkey yells in the original jobs |
| Day21.ReduceStep | src/Day21.kt:40-51 | replacing a job whose operands are known by its result keeps every known number correct |
| Day21.FailureWitness | src/Day21.kt:43-48 | an operation that cannot be computed on known operands means the original jobs fail |
| Day21.Complete | src/Day21.kt:35-55 | when no more jobs can be reduced, every monkey whose number is determined holds that number |
| Day21.NoFailureAtFixedPoint | src/Day21.kt:35-55 | a completed reduction never left a failing operation behind |
| Day21.ReplaceLowersCount | src/Day21.kt:50 | replacing an operation job by a number lowers the count of operation jobs by one |
| Day21.OperationJobs | src/Day21.kt:39 | `filterIsInstance` lists exactly the operation jobs, each once |
| Day21.StillPendingAfter | src/Day21.kt:39-53 | replacing one listed job leaves the later listed jobs as they were |
| Day21.Without | src/Day21.kt:66 | removing a name keeps the other names, each once |
| Day21.MonkeyJobs.constructor | src/Day21.kt:33 | the mutable map holds the parsed table |
| Day21.MonkeyJobs.Remove | src/Day21.kt:66 | removes the key and returns the job it held, if any |
| Day21.MonkeyJobs.ReduceJob | src/Day21.kt:40-52 | replaces the job by its value when both operands are numbers, keeping every known number correct, and reports a failing operator |
| Day21.MonkeyJobs.ReducePass | src/Day21.kt:39-53 | one pass keeps the numbers correct and either reaches a fixed point unchanged or lowers the number of operation jobs |
| Day21.MonkeyJobs.Reduce | src/Day21.kt:35-55 | the loop ends at a fixed point whose numbers are correct, and fails exactly when the original jobs contain a failing operation |
| Day21.Part1 | src/Day21.kt:57-62 | part 1 is what root yells, and fails exactly when the input does not parse, an operation fails or root's number is not determined |
| Day21.TraverseRenders | src/Day21.kt:79-93 | the string `traverse` appends is the rendering of the job's expression tree, and exists exactly when the tree does |
| Day21.TermMeaning | src/Day21.kt:79-93 | the expression tree evaluates, for every number h the human might yell, to what the monkey yells |
| Day21.EquationMeaning | src/Day21.kt:72-96 | the solved side yells its number whatever the human yells, and the open side yells what its expression evaluates to |
| Day21.Part2 | src/Day21.kt:64-98 | part 2's equation is the solved side's number, `=`, and the rendered expression of root's other operand, whose value is what that monkey yells for every human number; unparsable input or a missing human number gives no equation |
| Utils.ProductPair | src/Utils.kt:27 | `reduce(Int::times)` over two numbers is their product |
| Utils.ProductTriple | src/Utils.kt:27 | `reduce(Int::times)` over three numbers is their product |
| Utils.ProductConcat | src/Utils.kt:27 | the product of two joined non-empty lists is the product of their products |
| Utils.ProductZero | src/Utils.kt:27 | the product is zero exactly when one of the numbers is |
| Utils.SumConcat | src/Day01.kt:24 | the sum of two lists joined is the sum of their sums |
| Utils.SumNonNegative | src/Day01.kt:24 | a sum of non-negative numbers is non-negative |
| Utils.SumOptions | src/Day02.kt:36-40 | a `sumOf` whose per-item conversion may throw succeeds exactly when every item converts |
| Utils.SumOptionsBounds | src/Day02.kt:36-40 | a sum of items each between lo and hi lies between n times lo and n times hi |
| Utils.MapAll | src/Day04.kt:3 | `map` with a throwing conversion succeeds exactly when every element converts, giving one result per element in order |
| Utils.Max | src/Day01.kt:18 | `maxOf` is an element of the list that no element exceeds |
| Utils.MaxAppend | src/Day01.kt:18 | the maximum of a list with one more element is the larger of the old maximum and that element |
| Utils.Min | src/Day18.kt:19 | `minOf` is an element of the list that no element is below |
| Utils.Reverse | src/Day05.kt:11 | `reversed()` lists the same items from the last to the first |
| Utils.ReverseReverse | src/Day05.kt:61 | reversing twice gives the list back |
| Utils.SortAscending | src/Day07.kt:102 | `sorted()` is ascending and a permutation of its input |
| Utils.SortDescending | src/Day01.kt:25 | `sortedDescending()` is descending and a permutation of its input |
| Utils.DescendingHeadIsMax | src/Day01.kt:25-26 | the first element of a descending permutation is the list's maximum |
| Utils.TDiv | src/Day21.kt:47 | Kotlin's `/` truncates toward zero: the remainder is smaller than the divisor and has the dividend's sign |
| Utils.TRem | src/Day20.kt:34 | Kotlin's `%` gives the remainder with the dividend's sign, completing the truncating division |
| Utils.TRemNonNegative | src/Day20.kt:34 | on non-negative dividends and positive divisors Kotlin's `/` and `%` agree with Euclidean division |
| Text.RemovePrefix | src/Day11.kt:45-51 | `removePrefix` strips the prefix when the string starts with it and leaves the string alone otherwise |
| Text.RemoveSuffix | src/Day21.kt:25 | `removeSuffix` strips the suffix when the string ends with it and leaves the string alone otherwise |
| Text.FirstOccurrence | src/Day16.kt:13 | the first place at or after k where the separator occurs, or none when it occurs nowhere there |
| Text.Split | src/Day16.kt:13 | `split` with a string separator gives pieces that join back to the input and contain no separator |
| Text.SplitOn | src/Day21.kt:24 | `split` on a character gives pieces that join back to the input |
| Text.SplitWithoutSeparator | src/Day16.kt:13 | a string without the separator splits into itself alone |
| Text.SplitAfterFirst | src/Day16.kt:13 | splitting at the first separator gives the text before it and the split of the rest |
| Text.SplitJoin | src/Day21.kt:24 | splitting the pieces joined by a character they do not contain gives the pieces back |
| Text.SplitOnTwo | src/Day04.kt:2 | a string with one separator splits into the two sides |
| Text.ParseInt | src/Day04.kt:2 | `toInt` accepts exactly an optional sign followed by at least one decimal digit, and a negative result has a leading '-' |
| Text.BlankIsNotNumber | src/Day01.kt:5 | a blank line never parses as a number, so the blank-line test and `toInt` never both accept a line |
| Text.ParseInts | src/Day18.kt:4 | converting every piece succeeds exactly when each piece converts, giving one number per piece in order |
| Text.NatToString | src/Day21.kt:76 | the decimal digits of a natural number read back as that number |
| Text.IntToString | src/Day21.kt:76 | a printed number is non-empty, starts with '-' exactly when it is negative, and is otherwise all decimal digits |
| Text.NumberOmits | src/Day21.kt:76 | a printed number contains no character other than digits and the minus sign |
| Text.ParseIntToString | src/Day21.kt:19-26 | parsing the printed form of a number gives the number back |
| Text.ConcatSplit | src/Day03.kt:14 | concatenating two lists of chunks is concatenating their concatenations |
| Text.ConcatMembership | src/Day03.kt:14 | an item is in the concatenation exactly when it is in one of the chunks |
| Text.Chunked | src/Day13.kt:81 | `chunked(size)` gives non-empty chunks of at most size items, all full but the last, that concatenate to the input |

## Left out

- File reading (`readInput`, `readTextInput`), `md5`, printing and the `check(...)` calls against sample answers: they are I/O. The sample inputs are files that are not part of this model.
- Machine integer widths: `Int` and `Long` are unbounded `int`s throughout. The model does not capture overflow of sums, products, worry levels, distances or coordinates; the exceptions are the `Int.MAX_VALUE` distance sentinel of day 12 and `toInt` overflow in the day 13 parser.
- Character classes are ASCII where Kotlin's are Unicode. `Day03.Priority` tests 'a'..'z' where `isLowerCase` accepts every lower-case letter, so 'é' gets priority 195 here and 137 in Kotlin. `Day08.ToGrid` accepts only '0'..'9' where `digitToInt` also converts the other Unicode decimal digits. `Day13.DigitRunEnd` stops at the first character outside '0'..'9' where `isDigit` accepts every Unicode digit. `Text.ParseInt` reads only ASCII digits where `toInt`, `toLong` and `toLongOrNull` also read the other Unicode decimal digits. The whitespace of `isBlank` (`Text.IsWhitespace`) is the JVM's full set.
- Regular-expression parsing (days 15 and 19): the readings and blueprints are parameters holding the captured numbers, so the `!!` on a failed match is not modelled.
- Day11.Turn: Kotlin's `takeTurn` loops until the queue is empty, which never happens when a monkey keeps throwing an item to itself; the model cuts each turn after `fuel` throws, a parameter of `Turn`, `TurnsUpTo`, `Round`, `Rounds`, `Business`, `Solve`, `Part1`, `Part2` and the class methods, and then returns `None` (`Exhausts` says when). `TurnFuel` shows the cut is invisible whenever the Kotlin loop ends within the bound, and `ThrowsAwayEnds` gives a sufficient bound for monkeys that never target themselves.
- Day12: only the `Int.MAX_VALUE` sentinel's overflow is modelled; sums of real distances are assumed not to overflow.
- Day13.Sort: states sortedness and permutation, not stability.
- Day15: rows that hold no blocked area never become a `groupBy` key and are not searched; the search lemmas assume every row has one.
- Day16: the `Long` bitmask of opened valves is a set of bit positions, and part 1 and part 2 require at most 64 valves and well-formed tunnels (`getValue` and `maxOf` would throw otherwise).
- Day17: the body of `followOuterWall` is a parameter of which only the subset property is used. `Long.MAX_VALUE` as the number of rocks is not an upper bound here. That the fast-forward agrees with simulating every rock is not proved: `SimulateFallingRocks`, `Part1` and `Part2` are tied to the rock-by-rock `HeightAfter` only when no pattern key repeats (`NoRepeat`), that is when no skip happens; otherwise only the bounds are proved.
- Day18: `HashSet` iteration order is replaced by first-occurrence order; the counts are shown not to depend on it. Deep recursion (a JVM stack overflow) is not modelled.
- Day19: the pruning rules are modelled as written; that they keep the optimum is not proved.
- Day20: nodes are identified by their input position. `Part1` and `Part2` use the corrected mixing of the Findings table, so they do not agree with the source on inputs where a value is a non-zero multiple of size - 1. The constructor's exceptions (empty list, zero count other than one) are its preconditions. The product by 811589153 is not reduced to 64 bits.
- Day21.Part2: the equation is returned instead of printed, and `buildString` is modelled as the string it builds. The traversal is cut off after as many levels as there are jobs, and a missing job is rendered as `x` as in the source. Its contract covers the failing cases of parsing and of a missing human job, not every failed cast.
- Utils.Product: the exception `reduce` throws on an empty list is a precondition.

## Findings

| source | as written | input that shows it | evidently intended | confidence | as-written member | corrected member |
|---|---|---|---|---|---|---|
| src/Day15.kt:57 | the scan of a row stops while `solution < maximum`, so the last column is never considered | one sensor at (0,0) whose beacon is at (0,1), maximum 1: (1,1) is uncovered but part 2 finds nothing | scan up to and including the last column (`solution <= maximum`), giving 4000001 | not executed | Day15.Part2MissesLastColumn | Day15.Part2CorrectedComplete |
| src/Day20.kt:34-53 | a non-zero value that is a multiple of size - 1 walks no steps, so the node is linked after itself and drops out of the ring | [0, 2, 5]: value 2 in a ring of 3 walks 2 % 2 = 0 steps | leave the ring unchanged, as for a zero value | not executed | Day20.SelfLinkWhenWalkIsEmpty | Day20.MutableRingBuffer.DoMixing |
