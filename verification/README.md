# Advent of Code 2024 solvers, modelled in Dafny

The repository is a set of independent batch puzzle solvers, one Go file per
day. Each one reads a text file, parses it into slices, grids or small structs,
runs its own algorithm and prints a number. This project models the solvers of
days 1, 2 and 4 to 14. Each day is one Dafny module in its own file (`day1.dfy` …
`day14.dfy`). They share one module, `GoText` (`gotext.dfy`), which writes out
what the Go library calls they use do: `strings.Split`, `strings.Fields`,
`strings.TrimSpace`, `strings.Contains`, `strconv.Atoi`, `strconv.ParseInt` and
`strconv.FormatInt`. ASCII only, on unbounded integers.

Each day keeps the form of its Go file:

- **Value code becomes functions and lemmas.** Parsers, rule checks, the recursive
  stone expansion and the arithmetic searches become functions. Lemmas state what
  they mean.
- **Step-by-step Go code becomes methods.** Each method's `ensures` either
  states the property outright (a count, a dedup without loss) or ties its
  result and new state to a specification function. Lemmas then prove the
  properties of that function.
- **Structs updated through pointers become classes.** Examples are the Day 4, 6
  and 8 matrices, the Day 9 disk map, the Day 10 trail list, the Day 11 memo and
  the Day 12 garden. Their methods carry `modifies` frames, and the functions
  and predicates that read their fields carry `reads` frames.
- **Grids become arrays.** The Go code's `[][]T` grids are `array2` fields. A
  slice that Go shares with a caller and changes in place is an `array`, as in
  Day 2's part 2 shift and Day 5's update list.
- **Files and printing become parameters.** Every solver takes the file content
  as a `string` parameter and returns the number it would print.
- **Panics become preconditions.** Where the Go code would panic (an index out of
  range, a missing separator), the model has a `requires`. Day 4 and Day 12
  also require a rectangular grid, which excludes some ragged grids the Go code
  runs without panicking (see "Left out").
- **Endless loops get fuel.** Where the Go code can loop forever (Day 5's repair
  fixpoint, Day 6's guard walk), the method takes a `fuel` bound and reports
  when it runs out.

## Model

| member | source | states |
|---|---|---|
| Day1.GetInputs | Day/Day1.go:96-113 | The two lists are the fields before and after the three-space separator of every line, each parsed with Atoi. A field that does not parse is skipped, so the lists can differ in length. |
| Day1.AppendParsed | Day/Day1.go:103-112 | The list grows by the parsed value exactly when Atoi accepts the field, and is unchanged otherwise. |
| Day1.Column | Day/Day1.go:99-100 | One field per line. |
| Day1.PairLineSplits | Day/Day1.go:100 | A line written as two IDs joined by three spaces splits back into the two renderings and holds no newline. |
| Day1.ParsedFormatted | Day/Day1.go:103-111 | Parsing the decimal renderings of a list of integers gives the list back. |
| Day1.GetInputsReadsColumns | Day/Day1.go:96-113 | Round trip: for any two equally long non-empty ID lists written side by side, one pair per line, GetInputs reads back exactly those two lists. |
| Day1.Insert | Day/Day1.go:48-49 | Insertion keeps every element and adds x: the length grows by one and the multiset gains x. |
| Day1.InsertSorted | Day/Day1.go:48-49 | Inserting into an ascending list keeps it ascending. |
| Day1.SortSeq | Day/Day1.go:48-49 | The reference ascending arrangement has the same length and the same multiset as its input. |
| Day1.SortSeqSorted | Day/Day1.go:48-49 | The reference arrangement is ascending. |
| Day1.SortedUnique | Day/Day1.go:48-49 | Two ascending lists with the same multiset are equal, so sorting has one possible result. |
| Day1.SortedIsSortSeq | Day/Day1.go:48-49 | Any ascending permutation of a list is its reference arrangement. |
| Day1.LeastFrom | Day/Day1.go:48-49 | The index returned holds a least element of the array's suffix. |
| Day1.SortInts | Day/Day1.go:48-49 | sort.Ints: afterwards the array is ascending, is a permutation of what it held, and equals the reference arrangement. |
| Day1.DistanceZero | Day/Day1.go:52-57 | The total distance is never negative. It is zero exactly when the left list equals the matching prefix of the right list. |
| Day1.SumDistances | Day/Day1.go:52-57 | The loop returns the sum of the absolute differences of same-index pairs. |
| Day1.SortedDistance | Day/Day1.go:47-57 | Sorting both lists, then summing: the result is the distance between the two sorted lists, and it is non-negative. |
| Day1.SolutionA | Day/Day1.go:40-60 | Part A is the distance between the sorted left IDs and the sorted right IDs that GetInputs read, and it is non-negative. |
| Day1.OccurrencesMultiplicity | Day/Day1.go:134-139 | The counted occurrences of an ID equal its multiplicity in the right list. |
| Day1.SimilarityDisjoint | Day/Day1.go:131-143 | The similarity score is 0 when no left ID occurs in the right list. |
| Day1.SimilarityOrderFree | Day/Day1.go:131-143 | The score depends only on the multiset of the right list, not its order. |
| Day1.CountOccurrences | Day/Day1.go:134-139 | The inner loop counts exactly the occurrences of the left ID. |
| Day1.SolutionB | Day/Day1.go:123-146 | Part B is the sum, over the left IDs, of each ID times its number of occurrences in the right list. |
| Day1.Day1 | Day/Day1.go:22-32 | Both answers on one input, each as its part states. |
| Day2.ProcessInputs2 | Day/Day2.go:76-116 | Part 1 rule: the answer is 1 exactly when the report has at least two levels, is strictly rising or strictly falling, and every step is at most 3; otherwise 0. |
| Day2.PassesKeepForgiveInRange | Day/Day2.go:127-188 | Each of the three passes keeps its verdict in {0, 1} and the forgiven index either -1 or a level after the first. |
| Day2.Pt2Bounds | Day/Day2.go:127-202 | The forgiving check answers 0 or 1, and the index it forgives, if any, lies between 1 and the last level, so the removal slices exist. |
| Day2.RisingStrict | Day/Day2.go:132-145 | With forgiveness spent, the rising pass from pair i sets the verdict to 1 exactly when the row rises strictly from level i on. With no pair left, it keeps the state. |
| Day2.FallingStrict | Day/Day2.go:148-166 | With forgiveness spent and nothing forgiven, the falling pass from pair i sets the verdict to 1 exactly when the row falls strictly from level i on. |
| Day2.GradualStrict | Day/Day2.go:169-188 | With forgiveness spent and nothing forgiven, the gradual pass from pair i sets the verdict to 1 exactly when every step from level i on is at most 3. |
| Day2.Pt2WithoutForgiving | Day/Day2.go:127-202 | With allowForgive false, processInputs2pt2 gives exactly the part 1 verdict and forgives nothing. |
| Day2.RisingKeeps | Day/Day2.go:132-145 | A rising pass over a strictly rising row leaves its state unchanged. |
| Day2.FallingKeeps | Day/Day2.go:148-166 | A falling pass over a strictly falling row leaves its state unchanged. |
| Day2.GradualKeeps | Day/Day2.go:169-188 | A gradual pass over a row whose steps are all at most 3 leaves its state unchanged. |
| Day2.Pt2AcceptsSafe | Day/Day2.go:127-202 | Every report the part 1 rule accepts, the forgiving check accepts too. |
| Day2.AcceptsUntolerable | Day/Day2.go:148-188 | As written: the forgiving check accepts [1, 5, 9], although no single removal makes that report safe. |
| Day2.RejectsTolerable | Day/Day2.go:132-166 | As written: the forgiving check rejects [1, 2, 1, 0], although removing its first level makes it safe. |
| Day2.SafeAfterRemovingBelowMeans | Day/Day2.go:118-126 | The search over removals succeeds exactly when some level below n can be removed to leave a safe report. |
| Day2.TolerantVerdict | Day/Day2.go:118-126 | Corrected part 2 rule, as the function's comment describes it: 1 exactly when the report is safe or becomes safe without one of its levels, 0 otherwise. |
| Day2.RisingPass | Day/Day2.go:132-145 | The loop over the array computes the rising pass of the specification. |
| Day2.FallingPass | Day/Day2.go:148-166 | The loop computes the falling pass, skipping the forgiven pair. |
| Day2.GradualPass | Day/Day2.go:169-188 | The loop computes the gradual pass, skipping the forgiven pair. |
| Day2.ProcessInputs2Pt2 | Day/Day2.go:127-202 | The answer is the forgiving verdict of the original row. When a level was forgiven, the caller's array now holds the row without that level, followed by the old last level. Otherwise the array is unchanged. |
| Day2.Shift | Day/Day2.go:191-193 | append(rowList[:f], rowList[f+1:]...) on the shared backing array: the later levels move one place down and the last slot keeps its old value. |
| Day2.GatherInputs2 | Day/Day2.go:208-221 | One fresh row is appended. It holds, in order, the values of the line's whitespace-separated fields that parse, and the earlier rows are kept. |
| Day2.Rows | Day/Day2.go:33-37 | One report per input line. |
| Day2.SafeCount2Bounds | Day/Day2.go:47-61 | The part 2 count lies between 0 and the number of reports. |
| Day2.DistinctAppend | Day/Day2.go:208-221 | Appending a fresh row keeps every row a separate array. |
| Day2.GatherAll | Day/Day2.go:33-37 | Reading every line gives one fresh, separate row per line holding that line's levels. |
| Day2.CountSafe | Day/Day2.go:47-61 | The count is the sum of the forgiving verdicts of the rows as read. The fallback check on line 57 never runs, because the copy is as long as the row. |
| Day2.Day2 | Day/Day2.go:19-67 | safeCount2 is the number of reports that the forgiving check accepts. |
| Day4.Rank | Day/Day4.go:20 | Each direction has a position in CompassDirections, and that position holds it. |
| Day4.RankOf | Day/Day4.go:20 | CompassDirections lists each direction once. |
| Day4.WalkBack | Day/Day4.go:221-297 | Walking k steps in a direction and k steps in the opposite one returns to the start. |
| Day4.Word | Day/Day4.go:177-297 | A word read from a cell over `reach` steps has reach + 1 letters. |
| Day4.OutOfReachMeans | Day/Day4.go:185-209 | From a cell on the grid, the bounds test that calcMasList and calcStarList make before reading a word fails exactly when every letter of the word lies on the grid. |
| Day4.PassedNone | Day/Day4.go:222 | Before the first direction of the loop, the star list is unchanged. |
| Day4.PassedStep | Day/Day4.go:222-296 | Handling direction k of CompassDirections writes the word into a chosen direction where the word fits, keeps the entry otherwise, and advances the pass by one direction. |
| Day4.PassedAll | Day/Day4.go:222-296 | After all eight directions, the star list is the list before the pass, respelled. |
| Day4.RespelledFacts | Day/Day4.go:177-297 | After a pass, every entry is still empty or a word that fits on the grid, and every chosen direction whose word fits holds that word. |
| Day4.StarIsXmas | Day/Day4.go:99-109 | Once calcStarList has run, an entry reads "XMAS" exactly when the four letters in that direction spell XMAS on the grid. |
| Day4.XmasReadBackwards | Day/Day4.go:87-111 | Every XMAS read from a cell is also a SAMX read back from its last letter, in the opposite direction, and that reading fits on the grid. |
| Day4.CornerCount | Day/Day4.go:150-163 | foundMas counts at most the four corners. |
| Day4.CornerCountOf | Day/Day4.go:150-163 | foundMas is the number of corners, of NW, NE, SW and SE, that read MAS towards the centre. |
| Day4.CornerCountAtMostTwo | Day/Day4.go:150-166 | At most two corners can read MAS, because opposite corners would need an M where the other needs an S. So the test `foundMas >= 2` means exactly two. |
| Day4.NoMasBothWays | Day/Day4.go:150-166 | MAS cannot be read both ways between the same two cells. |
| Day4.MasLetters | Day/Day4.go:188-214 | Reading MAS is reading 'M', 'A' and 'S' one step apart on the grid. |
| Day4.CrossIsXShape | Day/Day4.go:130-168 | Part 2 counts a cell exactly when it is an 'A' off the border whose two diagonals each hold one 'M' and one 'S', the X-MAS shape. |
| Day4.OffGridNoMas | Day/Day4.go:137-148 | A corner outside the grid reads nothing, as the Go code leaves that word empty. |
| Day4.StarIsMas | Day/Day4.go:137-152 | Once calcMasList has run, a diagonal entry reads "MAS" exactly when the three letters in that direction spell MAS on the grid. |
| Day4.CellMatrix.constructor | Day/Day4.go:314-333 | getCellMatrix: one cell per character, holding its letter, with an empty word for every direction. |
| Day4.CellMatrix.BlankStarList | Day/Day4.go:324-329 | The initial star list maps every direction to "". |
| Day4.CellMatrix.SetStar | Day/Day4.go:188-214 | Storing a word that fits changes only that entry of that cell and keeps the matrix valid. |
| Day4.CellMatrix.ReadWord | Day/Day4.go:228-294 | The concatenated cell values are the word read in that direction. |
| Day4.CellMatrix.CalcStarList | Day/Day4.go:221-297 | Only this cell's star list changes. Every direction in which three more letters fit gets its four-letter word, and the other entries are kept. |
| Day4.CellMatrix.CalcMasList | Day/Day4.go:177-217 | Only this cell's star list changes. Every diagonal in which two more letters fit gets its three-letter word, and N, E, S and W are kept. |
| Day4.CellMatrix.Pass | Day/Day4.go:222-296 | The loop over CompassDirections shared by both calculations: the star list is respelled and the other cells are untouched. |
| Day4.CellMatrix.PassDirection | Day/Day4.go:223-295 | One case of the switch: the word is written exactly when the direction is chosen and the word fits. |
| Day4.CellMatrix.StarLine | Day/Day4.go:89-96 | One line of the first loop of part1 or part2: every cell of that line has been through the pass, and the other lines are untouched. |
| Day4.CellMatrix.StarAll | Day/Day4.go:89-96 | The first loop of part1 or part2: every cell has been through the pass. |
| Day4.CellMatrix.Part1 | Day/Day4.go:87-111 | xmasCount is the number of (cell, direction) pairs from which XMAS reads on the grid. |
| Day4.CellMatrix.LineXmas | Day/Day4.go:102-108 | One line of the counting loop counts that line's XMAS readings. |
| Day4.CellMatrix.CellXmas | Day/Day4.go:103-107 | The loop over one star list counts the directions that read XMAS. The Go map is unordered, but the count does not depend on the order. |
| Day4.CellMatrix.Part2 | Day/Day4.go:116-173 | masCount is the number of cells holding an 'A' with at least two MAS corners. |
| Day4.CellMatrix.LineCross | Day/Day4.go:131-169 | One line of the counting loop counts that line's X-MAS centres. |
| Day4.CellMatrix.CornerWords | Day/Day4.go:134-163 | foundMas is the number of corners reading MAS towards the cell. |
| Day4.CellMatrix.CountMas | Day/Day4.go:151-163 | The four tests add one per corner word equal to "MAS". |
| Day4.CellMatrix.CornerEntry | Day/Day4.go:137-148 | The entry read from a corner is "MAS" exactly when MAS reads on the grid from that corner towards the centre. |
| Day4.Day4 | Day/Day4.go:26-82 | Both counts on one cell matrix: part 1's XMAS readings and part 2's X-MAS centres. |
| Day5.SliceContains | Day/Day5.go:260-267 | contains is exactly membership of the string in the list. |
| Day5.MustFollow | Day/Day5.go:137-145 | There is at most one entry per rule. |
| Day5.MustFollowMeaning | Day/Day5.go:198-206 | A page is on the must-come-before list exactly when it is the text before the first bar of some rule whose text contains a bar followed by the page. This is a substring test, as in the Go code. |
| Day5.NoneListed | Day/Day5.go:209-214 | The scan finds nothing exactly when no page of the range is on the list. |
| Day5.ValidateOrder | Day/Day5.go:196-217 | validateOrder is true exactly when no page after index k is on the must-come-before list of the page at k. |
| Day5.ValidateOrderMeaning | Day/Day5.go:196-217 | In terms of the rules: the page at k is out of order exactly when some later page is the left side of a rule naming it. |
| Day5.GetMiddlePage | Day/Day5.go:128-130 | len/2 leaves as many pages before it as after, or one more before it when the length is even, and is an index of a non-empty update. |
| Day5.ListAddAt | Day/Day5.go:182-191 | With the index in range, the result is the list with the new element right after that index. Otherwise it is a copy. |
| Day5.ListRemAt | Day/Day5.go:169-178 | The result is the list without index posRem when that index holds remElement, and a copy otherwise. |
| Day5.AddThenRemove | Day/Day5.go:169-191 | Removing what was just added, one place further on, gives the list back. |
| Day5.MoveOrder | Day/Day5.go:135-165 | moveOrder keeps the length and the multiset of pages. It leaves an in-order page where it is, and otherwise moves it to just after the first later page that must precede it. |
| Day5.FirstPredecessorUnique | Day/Day5.go:149-162 | That first later predecessor is unique. |
| Day5.AddThenRemoveEarlier | Day/Day5.go:154-155 | listAddAt after index i, then listRemAt at k, is the page at k moved to just after i. |
| Day5.MovedKeepsPages | Day/Day5.go:154-155 | Such a move keeps the length and the multiset of pages. |
| Day5.CheckUpdate | Day/Day5.go:57-63 | The inner loop's allValid is true exactly when every page of the update is in order. |
| Day5.MiddleSumsPartition | Day/Day5.go:52-124 | Every update falls in exactly one of part 1's sum and the sum over the updates that break a rule. |
| Day5.Day5Part1 | Day/Day5.go:52-75 | middleOfTruth is the sum of the middle pages, read with Atoi (0 when that fails), of the updates that respect every rule. |
| Day5.InvalidIndices | Day/Day5.go:82-93 | Every listed index names an update that breaks a rule. |
| Day5.InvalidIndicesComplete | Day/Day5.go:82-93 | Every update that breaks a rule is listed. |
| Day5.InvalidMiddleSumByIndex | Day/Day5.go:112-121 | Summing by the listed indices, before any reordering, gives the sum over the updates that break a rule. |
| Day5.ByIndexStepValid | Day/Day5.go:90-92 | An update that respects the rules adds no index and nothing to the sum. |
| Day5.ByIndexStepInvalid | Day/Day5.go:90-92 | An update that breaks a rule adds its index and its middle page. |
| Day5.MiddleSumAtSnoc | Day/Day5.go:114-121 | One more listed index adds that update's middle page. |
| Day5.MiddleSumAtPrefix | Day/Day5.go:114-121 | The sum by index only reads the listed updates. |
| Day5.Day5Part2 | Day/Day5.go:80-124 | The repair passes keep every update's length and pages and leave the already valid updates alone. If they finish within the fuel, every update respects the rules and the answer sums the middle pages of the updates first listed as invalid. None means the fuel ran out, where the Go loop would run forever. |
| Day5.ListInvalidUpdates | Day/Day5.go:82-93 | The first loop lists exactly the indices of the updates that break a rule, in order. |
| Day5.SumMiddlePages | Day/Day5.go:113-121 | The last loop sums the middle pages of the listed updates as they now stand. |
| Day5.RepairPass | Day/Day5.go:98-109 | One pass over the listed updates keeps lengths and pages and never touches a valid update. When nothing had to move, nothing changed and every update respects the rules. |
| Day5.RepairUpdate | Day/Day5.go:100-108 | Only the one update changes, and it keeps its pages. When no page had to move, the update already respected every rule. |
| Day5.BlankIndex | Day/Day5.go:226-231 | The first empty row, or the number of rows: every earlier row is non-empty. |
| Day5.UpdatesOf | Day/Day5.go:239-256 | Every update read has at least one page, since Split never returns an empty list. |
| Day5.GetPageOrderRules | Day/Day5.go:222-234 | The rules are the rows before the first empty row. |
| Day5.GetUpdates | Day/Day5.go:239-256 | The updates are the rows after the first empty row, each split on commas. There are none when the input has no empty row, and each has at least one page. |
| Day5.Day5 | Day/Day5.go:15-47 | Part 1 is the middle-page sum of the valid updates read from the input. When part 2 finishes, its answer is the middle-page sum of some repair of the input's updates: every update then respects the rules, keeps its pages, and an update that was already valid is unchanged. |
| Day5.Part2OnSlice | Day/Day5.go:44 | day5part2 on the update slice: the same conclusion about the slice it rewrites in place. |
| Day6.LastCaretUnique | Day/Day6.go:57-66 | The grid has only one last '^' in row-major order, so the scan's guard position is determined by the input. |
| Day6.ScanStep | Day/Day6.go:58-64 | One cell of the guard scan: a '^' moves the guard there facing north, and any other character leaves it as it was. |
| Day6.ScanNextRow | Day/Day6.go:57-65 | The end of one row of the scan is the start of the next. |
| Day6.ScanDone | Day/Day6.go:56-66 | After the scan, a grid with a '^' has the guard on its last '^' facing north. A grid without one keeps the zero guard at (0, 0) with no heading. |
| Day6.SameGrid | Day/Day6.go:102-112 | Helper, not a model of Go lines: two grids of one shape that agree cell by cell are equal. |
| Day6.RowVisited | Day/Day6.go:240-244 | The visited count of a row prefix is at most its length. |
| Day6.GridVisited | Day/Day6.go:238-245 | The visited count of the first m rows is at most m times the width. |
| Day6.RowVisitedPositive | Day/Day6.go:240-244 | A row prefix holding a visited cell has a count of at least 1. |
| Day6.GridVisitedPositive | Day/Day6.go:238-245 | A grid holding a visited cell has a count of at least 1. |
| Day6.InitialGrid | Day/Day6.go:43-53 | The grid NewMatrix builds has one line per input line, each as wide as the first line. |
| Day6.StartUnique | Day/Day6.go:56-66 | The input determines the starting guard: on the last '^' facing north, or the zero guard without one. |
| Day6.Step | Day/Day6.go:120-196 | One MoveGuard call on values keeps the grid's shape. |
| Day6.StepFacts | Day/Day6.go:120-196 | One call keeps every obstacle and marks visited the cell it enters, and no other. It returns false exactly when the walk is halted: a death loop on the guard's cell, or a refused step off the grid that changes nothing but the cleared flag. A guard on the grid stays on it and on a visited cell. |
| Day6.Run | Day/Day6.go:230-232 | `for MoveGuard() {}` cut off after fuel calls keeps the grid's shape. |
| Day6.RunFacts | Day/Day6.go:230-232 | A run keeps every obstacle. When it stops within fuel, the guard is halted: in a death loop on its cell, or facing the edge. A guard on the grid stays on it and on a visited cell. |
| Day6.RunAfterStep | Day/Day6.go:230-232 | A run of at least one call is that call followed by the rest of the run, or the end of the run when the call returned false. |
| Day6.RunVisits | Day/Day6.go:230-245 | After a run, the visited cells are those visited before and those the guard entered on the way. |
| Day6.Reset | Day/Day6.go:102-112 | CellReset on values keeps the grid's shape. |
| Day6.ResetKeepsObstaclesOnly | Day/Day6.go:102-112 | Grids with the same obstacles reset to the same grid, so a reset forgets everything but the obstacles. |
| Day6.Block | Day/Day6.go:269 | Putting an obstacle on one cell keeps the grid's shape. |
| Day6.Trial | Day/Day6.go:254-277 | One trial reports a death loop only for a free cell that is not the guard's start. |
| Day6.TrialKeepsObstaclesOnly | Day/Day6.go:258-265 | A trial depends only on the grid's obstacles, so the trials of the loop do not disturb one another. |
| Day6.BlockersBefore | Day/Day6.go:258-279 | The cells tried so far whose trial traps the guard are all free, on the grid and not the start. |
| Day6.AllStopNext | Day/Day6.go:259-278 | One more stopped trial extends the stopped prefix by one cell. |
| Day6.AllStopNextRow | Day/Day6.go:258-279 | The end of one line of trials is the start of the next. |
| Day6.BlockersNext | Day/Day6.go:259-278 | One more trial adds its cell to the blockers exactly when it traps the guard. |
| Day6.BlockersNextRow | Day/Day6.go:258-279 | The end of one line of blockers is the start of the next. |
| Day6.Matrix.Grid | Day/Day6.go:32-36 | The cell matrix read as a grid value of its size, cell for cell. |
| Day6.Matrix.constructor | Day/Day6.go:41-73 | NewMatrix keeps the input lines and builds one cell per position of the first line's width. A cell is obstructed exactly at '#' and visited exactly at '^'. The guard stands on the last '^' facing north, or is the zero guard when there is none. |
| Day6.Matrix.FillCells | Day/Day6.go:43-53 | The first scan gives each position a fresh cell, obstructed exactly at '#'. |
| Day6.Matrix.PlaceGuard | Day/Day6.go:56-66 | The second scan marks every '^' visited and leaves the guard on the last one facing north. Without a '^' the guard stays at (0, 0) with no heading. |
| Day6.Matrix.ScanRow | Day/Day6.go:58-65 | One row of the second scan extends what has been scanned to the start of the next row. |
| Day6.Matrix.ScanCell | Day/Day6.go:59-64 | One cell of the second scan extends what has been scanned by one position. |
| Day6.Matrix.CellReset | Day/Day6.go:102-112 | Every cell loses its visit mark and its four counters, and keeps its obstacle. |
| Day6.Matrix.MoveGuard | Day/Day6.go:120-196 | The new grid, guard and result are exactly Step of the old ones. The properties are proved about Step in StepFacts. |
| Day6.Matrix.Walk | Day/Day6.go:230-232 | Calling MoveGuard until it returns false, within fuel calls, gives exactly Run of the old state, and keeps every obstacle. |
| Day6.Matrix.CountVisited | Day/Day6.go:238-245 | The counting loop returns the number of visited cells. |
| Day6.Matrix.Part1 | Day/Day6.go:227-247 | There is an answer exactly when the walk stops within fuel. The answer is the number of visited cells after that walk, at most the grid's size. It is at least 1 when the guard started on its visited '^'. |
| Day6.Matrix.TryBlock | Day/Day6.go:260-277 | One trial gives exactly Trial of the grid as it was: reset the guard and cells, block the cell only when it is free and not the start, and walk. Obstacles are as before afterwards. |
| Day6.Matrix.BlockedWalk | Day/Day6.go:268-275 | Blocking a free cell, walking and unblocking gives Run of the blocked grid, and keeps every obstacle. |
| Day6.Matrix.TryRow | Day/Day6.go:259-278 | One line of trials adds exactly the line's blockers to the count, or finds a trial that did not stop. |
| Day6.Matrix.Part2 | Day/Day6.go:252-283 | There is an answer exactly when every trial stops within fuel. The answer is the number of cells whose trial traps the guard: free cells, other than the start, whose blocking ends in a death loop. Obstacles are as they were. |
| Day6.Day6 | Day/Day6.go:202-222 | For the starting guard the input determines, part 1 is Run of the initial grid's walk and its visited count. Part 2 is the number of trapping blockers of a fresh initial grid. Each has an answer exactly when its walks stop within fuel, with the bounds of each part. |
| Day7.ConcatMatchesText | Day/Day7.go:62-65 | The concatenation operator's text round trip, two decimal renderings joined and parsed back (0 on a parse error), equals the arithmetic concatenation in every sign case. |
| Day7.ConcatNonNegative | Day/Day7.go:64-65 | For non-negative operands, the joined text parses to the left operand shifted by the right one's digit count, plus the right one. |
| Day7.ConcatNegativeLeft | Day/Day7.go:64-65 | A negative left operand keeps its minus sign in front of the joined digits. |
| Day7.ConcatNegativeRight | Day/Day7.go:64-65 | A negative right operand puts a minus sign inside the text, so the parse fails and the result is 0. |
| Day7.CalcResultsLength | Day/Day7.go:53-79 | calcNextInput appends one result per choice of the remaining operators: 2 or 3 to the power of the number of values left. |
| Day7.CalcResultsComplete | Day/Day7.go:53-79 | Every allowed choice of the remaining operators has its left-to-right value among the appended results. |
| Day7.CalcResultsSound | Day/Day7.go:53-79 | Every appended result is the left-to-right value of some allowed choice of the remaining operators. |
| Day7.EquationResultsLength | Day/Day7.go:126-135 | An equation with n values gets 2^(n-1) results in part 1 and 3^(n-1) in part 2. |
| Day7.EquationResultsMeaning | Day/Day7.go:126-135 | A number is among an equation's results exactly when some allowed choice of n-1 operators, applied left to right from the first value, gives it. |
| Day7.EquationResultsAsSearch | Day/Day7.go:129-133 | The three calls from the first value are the search started from 0 with a '+'. |
| Day7.EquationResultsSound | Day/Day7.go:129-133 | Every result of an equation comes from some allowed operator choice. |
| Day7.EquationResultsComplete | Day/Day7.go:129-133 | Every allowed operator choice gives a result of the equation. |
| Day7.Part1ResultsArePart2Results | Day/Day7.go:75-77 | Allowing concatenation only adds results: every part 1 result is a part 2 result. |
| Day7.ResultList.constructor | Day/Day7.go:127 | The shared result list starts empty. |
| Day7.CalcNextInput | Day/Day7.go:53-79 | The recursive search appends, to what the list already holds, exactly the results of the specification in the order +, *, concatenation. |
| Day7.SolveEquation | Day/Day7.go:126-135 | The three top-level calls leave exactly the equation's results. |
| Day7.ParseValues | Day/Day7.go:28-31 | One value per field, each read with Atoi and 0 when it does not parse. |
| Day7.NewEquation | Day/Day7.go:22-38 | The target is the text before ": ", read with ParseInt (0 on error). The values are the space-separated fields after it, each read with Atoi (0 on error, kept). No results are known yet. |
| Day7.EquationLineRoundTrip | Day/Day7.go:22-38 | A line written as "target: v1 … vn" parses back to that target and those values. |
| Day7.SumSuccessTargets | Day/Day7.go:138-148 | The matching loop adds each equation's target once when it occurs among its results, and nothing otherwise. |
| Day7.Solved | Day/Day7.go:112-135 | The solved equations are one per line, in order, each with its parsed target and values and all its results. |
| Day7.ParseEquations | Day/Day7.go:112-117 | The parsing loop gives one equation per line, as NewEquation reads it. |
| Day7.SolveEquations | Day/Day7.go:126-135 | The solving loop gives each equation all its results and changes nothing else. |
| Day7.Day7Part1 | Day/Day7.go:110-154 | The equations are the solved input lines, and the answer sums the targets found among their results. |
| Day7.Day7 | Day/Day7.go:87-103 | Part 1 and part 2 are the success sums of the input solved without and with concatenation. |
| Day7.Part2FindsMore | Day/Day7.go:158-161 | With non-negative targets, part 2's sum is at least part 1's. |
| Day7.SampleEquation | Day/Day7.go:19-21 | The line "190: 10 19" has the results 29 and 190, so part 1 counts it. |
| Day8.RowBrothersMembers | Day/Day8.go:104-108 | A line's brothers are exactly its cells, before the scan position, that hold the frequency and are not the antenna itself. |
| Day8.RowBrothersRowMajor | Day/Day8.go:104-108 | A line's brothers lie in that line, listed left to right. |
| Day8.BrothersMembers | Day/Day8.go:101-111 | getBrotherList lists exactly the other antennas of the frequency in the scanned lines. |
| Day8.BrothersRowMajor | Day/Day8.go:101-111 | getBrotherList lists them in row-major order, so each at most once. |
| Day8.BrotherIsElsewhere | Day/Day8.go:105 | A brother is on the grid, holds the same frequency, and is never the antenna itself. |
| Day8.WaveLeavesGrid | Day/Day8.go:179-183 | For two distinct antennas on the grid, both antinodes are off the grid once the wave exceeds height plus width, so the wave loop ends. |
| Day8.FromStaysOff | Day/Day8.go:131-143 | An antinode behind the antenna that has left the grid stays off it at every later wave. |
| Day8.IntoIsFrom | Day/Day8.go:146-147 | The antinode beyond the brother is the antinode behind the brother of the reversed pair. |
| Day8.PairAntiNodes | Day/Day8.go:126-158 | Both positions a pair sends out at a wave are antinodes, and marked when they land on the grid. |
| Day8.CoveredPrefixGrows | Day/Day8.go:179-184 | Finishing one more brother keeps the earlier brothers' antinodes covered. |
| Day8.BrothersCovered | Day/Day8.go:175-184 | Once every listed brother is covered, every pair the antenna forms is covered. |
| Day8.MarksStaySound | Day/Day8.go:126-158 | Adding one wave's antinodes of an antenna pair keeps every marked cell an antenna or an antinode. |
| Day8.CoveredGrows | Day/Day8.go:179-184 | Marking more cells keeps a covered pair covered. |
| Day8.LineAntennas | Day/Day8.go:51-54 | A line prefix holds at most as many antennas as characters. |
| Day8.RowAntiNodes | Day/Day8.go:222-229 | A line prefix holds at most as many counted cells as cells. |
| Day8.GridAntiNodes | Day/Day8.go:221-230 | The first m lines hold at most m times the width counted cells. |
| Day8.RowCountsMarked | Day/Day8.go:222-229 | Where the non-empty lists are exactly the marked cells, a line's count is its number of marked cells. |
| Day8.GridCountsMarked | Day/Day8.go:221-230 | Likewise for the whole grid. |
| Day8.RowMarkedBounds | Day/Day8.go:51-54 | Every antenna marks its own cell, so a line marks at least its antennas and at most its cells. |
| Day8.GridMarkedBounds | Day/Day8.go:220-231 | The answer lies between the number of antennas and the grid's size. |
| Day8.Matrix.constructor | Day/Day8.go:41-63 | day8NewMatrix keeps the lines and builds one cell per position of the first line's width. An antenna cell holds its frequency and lists it once, and a '.' cell is empty. The marked cells are exactly the antennas. |
| Day8.Matrix.InitLine | Day/Day8.go:45-56 | One line of day8NewMatrix: its cells are built from its characters, and its antennas join the marked cells. |
| Day8.Matrix.BrotherList | Day/Day8.go:101-111 | getBrotherList returns the other antennas of the frequency, in row-major order. |
| Day8.Matrix.LineBrothers | Day/Day8.go:104-108 | The inner scan over one line returns that line's brothers. |
| Day8.Matrix.CalcAntiNodesByWave | Day/Day8.go:126-158 | The frequency is appended to the list of each of the wave's two antinodes that lands on the grid. The result says whether either did, and nothing else changes. |
| Day8.Matrix.MarkInGrid | Day/Day8.go:136-143 | One antinode is recorded exactly when it lands on the grid, which is what the result reports. |
| Day8.Matrix.Append | Day/Day8.go:138-141 | The frequency is appended to one cell's list, which is then marked. No other cell changes. |
| Day8.Matrix.SpreadWaves | Day/Day8.go:180-183 | The wave loop for one brother ends, and leaves every antinode behind the antenna that lands on the grid marked. Only antinodes are added. |
| Day8.Matrix.WaveStep | Day/Day8.go:181 | One call of the wave loop continues exactly when an antinode landed on the grid, and marks the one behind the antenna when it did. |
| Day8.Matrix.AntennaAntiNodes | Day/Day8.go:171-185 | For one cell: an antenna gets its brothers, and every pair it forms is covered afterwards. |
| Day8.Matrix.CalcAntiNodes | Day/Day8.go:167-188 | Afterwards, a cell has a non-empty list exactly when it holds an antenna or is an antinode of some pair of one frequency. |
| Day8.Matrix.CountAntiNodes | Day/Day8.go:220-230 | The counting loop returns the number of cells with a non-empty list. |
| Day8.Day8 | Day/Day8.go:202-234 | The answer is the number of grid cells that hold an antenna or an antinode. |
| Day9.DigitOrZero | Day/Day9.go:44 | Atoi of one character is a single digit: the digit's value for a digit, 0 otherwise. |
| Day9.Repeat | Day/Day9.go:51-58 | n copies of the value. |
| Day9.LayoutLength | Day/Day9.go:35-64 | The disk has as many cells as the input's digits add up to. |
| Day9.LayoutFileCount | Day/Day9.go:35-64 | File k occupies exactly as many cells as the digit at index 2k says, and none when there is no such digit. |
| Day9.CellOfIndexIs | Day/Day9.go:45-59 | The digit at index i lays down file k exactly when i is 2k: the ID goes up by one before each file digit after the first. |
| Day9.RepeatCount | Day/Day9.go:51-58 | n copies of x hold x n times and nothing else. |
| Day9.LayoutCells | Day/Day9.go:35-64 | Every cell of a fresh layout is free or holds the ID of a file digit. |
| Day9.FirstPosition | Day/Day9.go:134-141 | -1 exactly when the ID is absent. Otherwise the index holds the ID and no earlier cell does. |
| Day9.RunEnd | Day/Day9.go:114-122 | The run of the ID from p extends to the returned end and no further. |
| Day9.RunEndAt | Day/Day9.go:114-122 | A run of the ID closed at q ends at q. |
| Day9.FitFrom | Day/Day9.go:151-173 | The first free run at or after a position that fits the length, or -1: it fits, and no run between the position and it does. |
| Day9.FileLength | Day/Day9.go:111-124 | 0 exactly when the ID is absent. Otherwise the cells from the ID's first position for that many cells all hold the ID. |
| Day9.LastFileID | Day/Day9.go:91-100 | -1 exactly when every cell is free. Otherwise an ID present on the disk. |
| Day9.FirstFitIs | Day/Day9.go:151-173 | A position with what the scan of getFirstEmptyPositionByLength establishes is the first fitting run. |
| Day9.DefragStepMoves | Day/Day9.go:192-203 | One turn of the pass, when the first fitting run starts before the file: the file is non-empty and fits between the two. No earlier run fits. The run's cells were free and now hold the ID, the file's cells held the ID and are now free, and every other cell is unchanged. When no run starts before the file, the disk is unchanged. |
| Day9.MovedCells | Day/Day9.go:198-201 | Helper: the cells of a finished move, position by position. |
| Day9.DiskMap.constructor | Day/Day9.go:35-64 | day9NewDiskMap lays the input out digit by digit: file lengths at even indices, free lengths at odd ones. |
| Day9.DiskMap.GetLastFileID | Day/Day9.go:91-100 | -1 when every cell is free. Otherwise the ID of a file cell with only free cells after it, which is LastFileID of the map. |
| Day9.DiskMap.GetFileLength | Day/Day9.go:111-124 | The length of the first run of the ID, 0 when the ID is absent: FileLength of the map. |
| Day9.DiskMap.GetFirstPositionByFileID | Day/Day9.go:134-141 | The first index holding the ID, or -1. |
| Day9.DiskMap.GetFirstEmptyPositionByLength | Day/Day9.go:151-173 | The first free run that is closed by a file cell and fits the length. Failing that, the free run reaching the end of the disk, whatever its length. Failing that, -1. Every earlier free run is closed and too short, so the result is FirstFit of the map. |
| Day9.DiskMap.MoveFile | Day/Day9.go:198-201 | The copy loop moves the file's cells into the free cells and frees the old ones. The multiset of cells is kept, and the sum of the file cells' positions drops. |
| Day9.DiskMap.DefragmentWholeFilesOnce | Day/Day9.go:187-206 | The new map is exactly Defrag of the old one: DefragStep for every file ID from the last one down to 0, as DefragStepMoves describes each turn. The pass keeps the disk's size and every file's cell count. The result is true exactly when the map changed, and then the file cells sit further left on balance. |
| Day9.DiskMap.CalculateChecksum | Day/Day9.go:215-223 | The decimal text of the sum of ID times position over the file cells, which parses back to that sum. |
| Day9.MomentUpdate | Day/Day9.go:199-200 | Writing one cell changes the sum of file positions by that cell's position, depending on whether it held a file and whether it does now. |
| Day9.SwapKeepsMultiset | Day/Day9.go:199-200 | Moving a cell into a free cell and freeing the source keeps the multiset of cells. |
| Day9.Moved | Day/Day9.go:198-201 | The partial move keeps the disk's size. |
| Day9.MoveStep | Day/Day9.go:198-201 | One more iteration of the copy loop writes the next cell to its target and frees its source. |
| Day9.MoveOneCell | Day/Day9.go:198-201 | One cell of a move keeps the multiset of cells and lowers the sum of file positions by the distance moved. |
| Day9.FitBeforeFile | Day/Day9.go:194-197 | When the chosen free run starts before the file, the whole file fits there: the run is closed by a file cell, so it is at least as long as the file. |
| Day9.Day9 | Day/Day9.go:234-263 | The disk is exactly Defrag of the input's layout from its last file ID down, and the checksum is the decimal text of that disk's checksum. The disk has the input's size and cells, and its file cells are no further right on balance. |
| Day10.Elevation | Day/Day10.go:66 | Atoi of one character, its error ignored: a digit's value, 0 for anything else. |
| Day10.ElevAt | Day/Day10.go:171 | Every map elevation lies between 0 and 9. |
| Day10.BuildMap | Day/Day10.go:55-69 | One row per line, each as wide as the first line. A character gives its digit value, and cells past the end of a shorter line stay 0. |
| Day10.RowZeros | Day/Day10.go:83-87 | The elevation-0 cells of a row prefix, left to right and in that row. |
| Day10.ZeroCells | Day/Day10.go:82-88 | The elevation-0 cells of the first m rows lie on the map, in row-major order. |
| Day10.RowZerosMeaning | Day/Day10.go:83-87 | A position is listed for a row exactly when it is in that row's prefix and has elevation 0. |
| Day10.ZeroCellsMeaning | Day/Day10.go:82-88 | The trail heads are exactly the elevation-0 cells. |
| Day10.FindTrailHeads | Day/Day10.go:81-88 | The scan lists every elevation-0 cell once, in row-major order. |
| Day10.PossibleSteps | Day/Day10.go:200-218 | At most four steps, each on the map and one orthogonal step away. |
| Day10.PossibleStepsComplete | Day/Day10.go:200-218 | Every orthogonal neighbour on the map is among the steps. |
| Day10.TrailsHeaded | Day/Day10.go:173-188 | Every trail recorded from a position is headed at the search's trail head and ends on an elevation-9 cell. |
| Day10.FoundMeansTrail | Day/Day10.go:173-189 | A reported success always comes with a recorded trail. |
| Day10.ClimbHeights | Day/Day10.go:175 | Along a climb the elevation rises by exactly one per step. |
| Day10.ExtendClimb | Day/Day10.go:175-185 | A climb extends downwards by an adjacent cell one lower. |
| Day10.TrailsSound | Day/Day10.go:169-190 | Every trail recorded from a position ends a climb of at least one step out of it. |
| Day10.ClimbRecorded | Day/Day10.go:173-188 | Whatever one turn of the step loop records stays in the loop's record. |
| Day10.TrailsComplete | Day/Day10.go:169-190 | Every climb of at least one step to an elevation-9 cell has its trail, headed at the search's head and ending at the climb's tail, among the recorded trails. |
| Day10.Prefixed | Day/Day10.go:185 | Helper: each path with one cell put in front. |
| Day10.TracksAppend | Day/Day10.go:173-188 | Helper: trail lists that match climb lists one to one match when joined. |
| Day10.TracksPrefixed | Day/Day10.go:185 | Helper: putting the current cell in front of each climb leaves the trails they end in unchanged. |
| Day10.TrailsTrackClimbs | Day/Day10.go:169-190 | The loop over the steps records, in order, one trail per climb it meets, ending where that climb ends. |
| Day10.ClimbsSound | Day/Day10.go:169-190 | Every climb the search meets from a position is a climb out of it to an elevation-9 cell. |
| Day10.ViaSound | Day/Day10.go:174-187 | The climbs through one step one higher are climbs out of the current position. |
| Day10.ClimbUp | Day/Day10.go:175-185 | A climb splits into its first step, one higher and adjacent, and the climb from there, or is that single step when it reaches elevation 9. |
| Day10.ClimbDown | Day/Day10.go:175-185 | A climb from an adjacent cell one higher extends to a climb from the current position. |
| Day10.ClimbsMet | Day/Day10.go:173-188 | Whatever one turn of the step loop meets stays among the loop's climbs. |
| Day10.ClimbsComplete | Day/Day10.go:169-190 | Every climb out of a position to an elevation-9 cell is met by the search. |
| Day10.PrefixedMember | Day/Day10.go:185 | Helper: a climb with the current cell put in front is in the prefixed list. |
| Day10.PossibleStepsDistinct | Day/Day10.go:200-218 | The possible steps are distinct positions. |
| Day10.DistinctAppend | Day/Day10.go:173-188 | Helper: joining two duplicate-free lists with no common element keeps it duplicate-free. |
| Day10.PrefixedDistinct | Day/Day10.go:185 | Helper: putting one cell in front keeps distinct paths distinct. |
| Day10.ClimbsDistinct | Day/Day10.go:169-190 | The search meets no climb twice: every climb met goes through one of the steps, and climbs through different steps differ. |
| Day10.ViaDistinct | Day/Day10.go:174-187 | The climbs through one step are distinct and all go through that step. |
| Day10.TrailsPerClimb | Day/Day10.go:169-190 | The trails recorded from a position correspond one to one, in order, to the climbs out of it to an elevation-9 cell. Each climb appears once, and its trail ends where it ends. |
| Day10.SearchStep | Day/Day10.go:98-102 | One head's search extends the record by that head's trails. |
| Day10.AllTrailsPerClimb | Day/Day10.go:98-102 | The search records as many trails as the heads have climbs. |
| Day10.AllClimbsMeaning | Day/Day10.go:98-102 | With distinct heads, no climb is met twice, and the climbs met are exactly the climbs out of one of the heads. |
| Day10.HikingTrailIsClimb | Day/Day10.go:81-102 | Helper: a hiking trail is a climb out of an elevation-0 cell. |
| Day10.HikingTrailsMet | Day/Day10.go:81-102 | With the elevation-0 cells as heads, the climbs met are exactly the hiking trails of the map, each once. |
| Day10.AllTrailsHeaded | Day/Day10.go:98-102 | Every recorded trail is headed at one of the trail heads. |
| Day10.TrailLog.constructor | Day/Day10.go:96 | The trail slice starts empty. |
| Day10.TrailLog.TakeNextStep | Day/Day10.go:169-190 | The recursive search appends exactly the trails from the position. It returns whether its last climbing step succeeded. |
| Day10.TrailLog.TakeStep | Day/Day10.go:174-187 | A step one higher either completes a trail or continues the search, and overwrites foundTrail. Any other step changes nothing. |
| Day10.TrailLog.SearchAll | Day/Day10.go:98-102 | The search loop appends every head's trails, head after head. |
| Day10.RemoveDuplicates | Day/Day10.go:111-123 | The dedup loop keeps exactly the trails seen, each once. |
| Day10.HeadScore | Day/Day10.go:134-140 | A head's score is at most the number of trails. |
| Day10.Score | Day/Day10.go:132-142 | The score loops return the sum over the heads of each head's trail count. |
| Day10.HeadMatchesOnce | Day/Day10.go:133-142 | With distinct heads, a trail headed at one of them is counted once. |
| Day10.HeadMatchesNone | Day/Day10.go:133-142 | A trail headed elsewhere is not counted. |
| Day10.TotalScoreAppend | Day/Day10.go:133-142 | One more trail adds the number of heads it matches. |
| Day10.ScoreCountsEveryTrail | Day/Day10.go:132-157 | With distinct heads and every trail headed at one of them, the total score is the number of trails. |
| Day10.TotalScoreEmpty | Day/Day10.go:132-142 | No trails score 0. |
| Day10.ScoreTrails | Day/Day10.go:111-157 | Part 1 is the number of distinct (head, tail) trails, and part 2 the number of recorded trails. |
| Day10.Solve | Day/Day10.go:32-160 | An empty input gives no answer. Otherwise part 1 counts the distinct recorded (head, tail) trails over all elevation-0 heads. Part 2 counts them all, which is the number of climbs the heads have: by HikingTrailsMet, the number of distinct hiking trails of the map. |
| Day11.FormattedLength | Day/Day11.go:102-103 | The length of a stone's decimal text is at least one. |
| Day11.Blinks | Day/Day11.go:83-118 | A stone always becomes at least one stone. |
| Day11.FormattedLengthIsTextLength | Day/Day11.go:102-103 | The length the rules test is that of FormatInt's text, minus sign included. |
| Day11.SplitStoneByPowersOfTen | Day/Day11.go:104-107 | Cutting an even-length stone's text in the middle and parsing both halves is division and remainder by the power of ten that covers the right half. |
| Day11.SplitDigits | Day/Day11.go:105-107 | Cutting a run of digits is division and remainder by a power of ten. |
| Day11.SplitDigitsSum | Day/Day11.go:105-107 | A run of digits is its left part shifted by the right part's length, plus the right part, which is below that power of ten. |
| Day11.SplitNonNegative | Day/Day11.go:104-107 | For a non-negative stone the halves are the quotient and the remainder. |
| Day11.SplitStoneOfText | Day/Day11.go:102-107 | splitStone parses the two halves of the given rendering, with parse errors giving 0. |
| Day11.HalvesOfNegative | Day/Day11.go:104-107 | For a negative stone, the left half carries the sign and is 0 when it is the bare minus sign. The right half is the remainder of the magnitude. |
| Day11.SplitNegative | Day/Day11.go:104-107 | The text split agrees with the arithmetic halves for negative stones too. |
| Day11.NegativeText | Day/Day11.go:102 | A negative stone renders as a minus sign followed by the digits of its magnitude. |
| Day11.NegativeHalves | Day/Day11.go:105-107 | The two halves of "-" followed by digits, cut in the middle, parse to the signed quotient and the remainder. |
| Day11.NegativeRightHalf | Day/Day11.go:107 | The right half of a negative text is a run of digits. |
| Day11.NegativeLeftHalf | Day/Day11.go:106 | The left half of a negative text parses to minus its digits, or to 0 when it is the bare sign. |
| Day11.BlinksOfZero | Day/Day11.go:97-99 | Rule 1: a 0 counts as a 1 with one blink fewer. |
| Day11.BlinksOfOddLength | Day/Day11.go:109-111 | Rule 3: another odd-length stone counts as 2024 times itself with one blink fewer. |
| Day11.BlinksOfEvenLength | Day/Day11.go:103-108 | Rule 2: an even-length stone counts as its two halves with one blink fewer. |
| Day11.BlinksAtMostDoubling | Day/Day11.go:83-118 | A stone becomes at most 2^blinks stones. |
| Day11.Pow2 | Day/Day11.go:108 | Helper for BlinksAtMostDoubling, not a model of the Go line: powers of two are positive. |
| Day11.BlinkMemo.constructor | Day/Day11.go:19 | The memo table starts empty. |
| Day11.BlinkMemo.BlinkRecurse | Day/Day11.go:83-118 | The memoised count equals the rules' count. With blinks left, the key is stored afterwards, and no stored entry changes. With none, the table is untouched. |
| Day11.BlinkMemo.ApplyRules | Day/Day11.go:96-113 | The uncached branch applies one of the three rules and returns the rules' count. |
| Day11.BlinkMemo.BlinkHalves | Day/Day11.go:103-108 | Rule 2 inside blinkRecurse counts both halves. |
| Day11.BlinkMemo.CallSplitStone | Day/Day11.go:105-107 | The text split returns the arithmetic halves. |
| Day11.BlinkMemo.Store | Day/Day11.go:116 | Storing a count that agrees with the rules keeps every entry of the table correct. |
| Day11.ExtendsTransitive | Day/Day11.go:116 | Keeping every earlier entry is transitive over calls. |
| Day11.TotalBlinksAppend | Day/Day11.go:72-76 | One more starting stone adds its own count. |
| Day11.TotalBlinksStep | Day/Day11.go:72-76 | The total over a suffix is its first stone's count plus the rest. |
| Day11.TotalAtLeastStoneCount | Day/Day11.go:72-76 | Every starting stone contributes at least one stone. |
| Day11.TotalBlinksPermutation | Day/Day11.go:72-76 | The order of the starting stones does not change the total. |
| Day11.TotalBlinksRemove | Day/Day11.go:72-76 | The total is any one stone's count plus the total without it. |
| Day11.ParseStones | Day/Day11.go:51-59 | The input split on single spaces, with fields that do not parse skipped. |
| Day11.Day11 | Day/Day11.go:26-80 | The answer is the sum over the parsed stones of the rules' count, accumulated through one shared memo table. |
| Day11.OneBlinkExample | Day/Day11.go:97-112 | One blink turns 125 and 17 into three stones. |
| Day11.SplitDropsLeadingZeros | Day/Day11.go:105-107 | 1000 splits into 10 and 0, since "00" parses as 0. |
| Day12.InBoundsNeighbours | Day/Day12.go:133-147 | The valid neighbours are exactly the top, right, bottom and left neighbours that lie inside the grid. |
| Day12.AppendKeepsNoDuplicates | Day/Day12.go:158 | Appending a plot that is not yet listed keeps a region's plot list free of repeats. |
| Day12.AppendKeepsLinked | Day/Day12.go:182 | Appending a plot next to a listed plot keeps the list connected. |
| Day12.AppendKeepsRegionList | Day/Day12.go:180-182 | Appending a new same-plant neighbour of a listed plot keeps a well-formed region list well formed. |
| Day12.ListedNeighbours | Day/Day12.go:240-250 | The count of neighbours found in the region is at most the number of neighbours looked at. |
| Day12.PerimeterOf | Day/Day12.go:229-255 | The perimeter of a region lies between 0 and four times its area. |
| Day12.SamePlantNeighbours | Day/Day12.go:241-245 | The count of in-grid same-plant neighbours is at most the number of neighbours looked at. |
| Day12.Fences | Day/Day12.go:229-255 | The number of plot sides facing the edge or another plant lies between 0 and four sides per plot. |
| Day12.ListedNeighboursPositive | Day/Day12.go:244-249 | A neighbour that is in the grid and listed in the region is counted. |
| Day12.LinkedPerimeterBound | Day/Day12.go:229-255 | A connected region of two or more plots has a perimeter of at most three per plot. |
| Day12.PerimeterPrefixBound | Day/Day12.go:231-253 | When every plot has a listed neighbour, each plot adds at most 3 to the perimeter. |
| Day12.RegionPrice | Day/Day12.go:88 | The price of a region, area times perimeter, is never negative. |
| Day12.PriceOfId | Day/Day12.go:86-89 | The price of a region id is never negative, and an id with no region adds nothing. |
| Day12.PriceOf | Day/Day12.go:85-90 | The total price over any order of ids is never negative. |
| Day12.PriceOfRemove | Day/Day12.go:86-89 | The total is any one region's price plus the total over the other ids. |
| Day12.RemoveMatching | Day/Day12.go:86 | Removing one occurrence of the same id from two orderings of the same ids leaves two orderings of the same ids. |
| Day12.PriceIndependentOfOrder | Day/Day12.go:85-90 | The total price is the same whatever order the map of regions is walked in. |
| Day12.PlantsBeforeSound | Day/Day12.go:110-114 | Every plant collected so far grows on a plot already scanned. |
| Day12.PlantsBeforeComplete | Day/Day12.go:110-114 | The plant of every plot already scanned has been collected. |
| Day12.Garden.constructor | Day/Day12.go:51-63 | The plots are the trimmed input lines, every plot starts without a region, and there are no regions yet. |
| Day12.Garden.Claim | Day/Day12.go:180-182 | An unassigned same-plant neighbour of a plot of region k gets region k and is appended to its list. The bookkeeping holds, and exactly one plot stops being free. |
| Day12.Garden.Found | Day/Day12.go:165-173 | A new region id is opened with the single plot, and that plot records the id. |
| Day12.Garden.RegionSpread | Day/Day12.go:197-226 | Spreading ends with the grown region closed. No region is added or removed, the grown region only gains plots, and no plot is freed. |
| Day12.Garden.SpreadPass | Day/Day12.go:199-225 | A pass that adds a plot uses up a free plot. A pass that adds none leaves the state as it was, with no plot of the region next to an unassigned plot of its plant. |
| Day12.Garden.SpreadFromPlot | Day/Day12.go:209-220 | If no neighbour of the plot is absorbed, the state is unchanged and every neighbour is off the grid, of another plant or already assigned. |
| Day12.Garden.Absorb | Day/Day12.go:213-217 | Absorbing a neighbour uses up one free plot and only grows the region. |
| Day12.Garden.GetRegionsFromPlots | Day/Day12.go:124-194 | After the scan no plot is free, every region is closed and well formed, and the region ids are exactly 0 up to the returned count. |
| Day12.Garden.ScanPlot | Day/Day12.go:130-189 | After the scan step for one plot, that plot has a region, the bookkeeping holds, and the ids stay contiguous. |
| Day12.Garden.AssignPlot | Day/Day12.go:149-175 | An unassigned plot joins a neighbour's region or opens the next id. An assigned plot is left alone. |
| Day12.Garden.JoinRegion | Day/Day12.go:152-162 | In the row-major scan the join loop never finds an assigned same-plant neighbour, so no region is updated there. |
| Day12.Garden.JoinNeverHappens | Day/Day12.go:154-161 | When every region is closed, a same-plant neighbour of an unassigned plot is itself unassigned. |
| Day12.Garden.SpreadToNeighbours | Day/Day12.go:178-185 | Spreading to the neighbours keeps the plot's region and the set of region ids. It only uses up free plots and reports the plot's region when one was updated. |
| Day12.Garden.ClaimNeighbour | Day/Day12.go:179-184 | A neighbour is claimed only when it is an unassigned plot of the same plant. Otherwise nothing changes. |
| Day12.Garden.GetPlants | Day/Day12.go:108-121 | Each plant of the grid is listed exactly once, and nothing else is listed. |
| Day12.Garden.CalcPerimeter | Day/Day12.go:229-255 | The perimeter is 4 minus the listed in-grid neighbours, summed over the region's plots. |
| Day12.Garden.TotalPrice | Day/Day12.go:85-90 | The price loop over any ordering of the region ids sums area times perimeter over the regions. |
| Day12.Garden.PlotInExactlyOneRegion | Day/Day12.go:124-194 | After the scan every plot is listed in the region it records, in no other region, and only once there. |
| Day12.Garden.Partition | Day/Day12.go:124-194 | After the scan the regions cover the grid and do not overlap. Each is a connected list of one plant that holds every same-plant neighbour of its plots. |
| Day12.Garden.AdjacentSamePlantShareRegion | Day/Day12.go:124-194 | After the scan, adjacent plots with the same plant have the same region. |
| Day12.Garden.ListedAreSamePlant | Day/Day12.go:244-249 | In a closed region, the neighbours found in the list are exactly the in-grid same-plant neighbours. |
| Day12.Garden.PerimeterCountsFences | Day/Day12.go:229-255 | calcPerimeter of a closed region counts exactly the sides facing the edge or another plant. |
| Day12.Garden.SettledFromNeighbours | Day/Day12.go:209-220 | A plot none of whose four neighbours can be absorbed has no unassigned same-plant neighbour. |
| Day12.Garden.SpreadFromSettled | Day/Day12.go:199-225 | When every plot of a region is settled, the region has no unassigned same-plant neighbour. |
| Day12.Garden.SpreadCloses | Day/Day12.go:197-226 | A region that has spread fully is closed, so all regions are closed. |
| Day12.PlantsMeaning | Day/Day12.go:108-121 | The collected plants are exactly the characters of the grid's plots. |
| Day12.Ids | Day/Day12.go:86 | The ids 0 up to n - 1 in increasing order. |
| Day12.IdsCount | Day/Day12.go:86 | Each id below n occurs exactly once in the id list, and no other value occurs. |
| Day12.IdsListKeys | Day/Day12.go:86 | The ids 0 up to n - 1 are an ordering of a key set that holds exactly those ids. |
| Day12.BuildRegions | Day/Day12.go:51-82 | Parsing and the region search give a garden over the trimmed lines whose regions partition the grid. The region ids run from 0 up to the count. |
| Day12.Day12 | Day/Day12.go:26-105 | The plant list has each plant once. The regions partition the grid into maximal connected same-plant lists. The total price is the same for every order of walking the regions. |
| Day13.Quot | Day/Day13.go:150 | Go's division: the remainder is smaller than the divisor and is zero or has the dividend's sign. |
| Day13.QuotExact | Day/Day13.go:148-150 | Dividing a multiple of b by b gives the factor back. |
| Day13.RunsBelowSound | Day/Day13.go:148-166 | Every recorded run lands on the prize in both coordinates, uses an A count below the bound, and costs 3 per A press plus 1 per B press. |
| Day13.RunsBelowComplete | Day/Day13.go:148-166 | Every way of landing on the prize with an A count below the bound is recorded. |
| Day13.RunsBelowIncreasing | Day/Day13.go:148-166 | The runs are recorded in strictly increasing order of A presses. |
| Day13.SearchRuns | Day/Day13.go:147-167 | The search loop appends exactly the runs for A counts 0 up to prizeX / buttonAX, exclusive, and keeps the earlier runs. It needs buttonBX to be nonzero only when the loop body runs, that is when prizeX / buttonAX is positive. |
| Day13.ZeroBSearched | Day/Day13.go:147-150 | A machine with buttonBX zero and prizeX / buttonAX zero is searched without dividing by buttonBX and records no run. |
| Day13.MissedAtTheBound | Day/Day13.go:148 | With A = (2, 2), B = (3, 7) and the prize at (10, 10), five A presses win, yet the exclusive bound records no run. |
| Day13.AllRunsComplete | Day/Day13.go:148-166 | With the inclusive bound and buttons that move forward, every winning pair of press counts is recorded. |
| Day13.PressesWithinBound | Day/Day13.go:148 | A winning A count with forward-moving buttons is at most prizeX / buttonAX. |
| Day13.CheapestIsMinimum | Day/Day13.go:186-192 | There is a winner exactly when there is a run. The winner is one of the runs, and no run costs less. |
| Day13.CheapestIsFirst | Day/Day13.go:189 | Among the runs of least cost, the first one recorded wins. |
| Day13.Winner | Day/Day13.go:187-192 | The winner loop returns the cheapest run, the first among equals, or none when there are no runs. |
| Day13.CorrectedWinnerIsCheapest | Day/Day13.go:147-192 | With the inclusive bound, a machine that can be won gets a winner that costs no more than any winning pair of press counts. |
| Day13.WinnerCount | Day/Day13.go:184-197 | At most one winner is counted per machine. |
| Day13.WinnerCostsNonNegative | Day/Day13.go:185-196 | When all run costs are non-negative, the total of the winners' costs is too. |
| Day13.Tally | Day/Day13.go:184-197 | The tally loop counts the machines that have a winner and sums the winners' costs. |
| Day13.NewMachine | Day/Day13.go:38-59 | newMachine reads its lines in order: each button line sets its button's movement, a prize line sets the prize, other lines are skipped, and there are no runs. |
| Day13.LineWords | Day/Day13.go:44 | A line joined from words that hold no space and no newline splits on spaces back into those words. |
| Day13.ButtonLineHead | Day/Day13.go:43-47 | A button line is told apart by its "Button A:" or "Button B:" head. |
| Day13.PrizeLineHead | Day/Day13.go:51 | A prize line starts with "Prize:" and with neither button head. |
| Day13.ReadNumbers | Day/Day13.go:45-46 | The slices newMachine takes of "X+n," and "Y+n" parse back to n. |
| Day13.ReadButtonLine | Day/Day13.go:43-50 | A button line written in the puzzle's format is readable, and newMachine takes both of its numbers for that button. |
| Day13.ReadPrizeLine | Day/Day13.go:51-54 | A prize line written in the puzzle's format is readable, and newMachine takes both of its numbers as the prize. |
| Day13.StanzaLines | Day/Day13.go:40 | A stanza splits on newlines into its button A, button B and prize lines. |
| Day13.ReadThreeLines | Day/Day13.go:42-56 | Three readable lines are read one after another. |
| Day13.NewMachineReadsStanza | Day/Day13.go:38-59 | newMachine reads back the six numbers of any stanza written in the puzzle's format. |
| Day13.NewMachines | Day/Day13.go:128-132 | The parsing loop builds one machine per stanza, in order. |
| Day13.SearchAll | Day/Day13.go:147-167 | The search loop gives every machine its runs. |
| Day13.Day13 | Day/Day13.go:76-201 | The answer counts the machines that have a winner and sums their least costs, over the machines parsed from the blank-line-separated stanzas. |
| Day14.ParseRobots | Day/Day14.go:101-113 | The parsing loop builds one robot per line of the trimmed input, in order. |
| Day14.PairWordSplits | Day/Day14.go:104-105 | A position or velocity word splits at its comma into the tagged first number and the second number. |
| Day14.ParseRobotLine | Day/Day14.go:102-112 | A robot written as "p=x,y v=vx,vy" is readable and parses back to itself. |
| Day14.WrapAxis | Day/Day14.go:146-161 | After one step, a coordinate at most one room size outside the room is wrapped back in, which is its Euclidean remainder. |
| Day14.Step | Day/Day14.go:145-162 | A step keeps the robot's velocity. |
| Day14.ModAdd | Day/Day14.go:146-155 | Adding to a number does the same to its remainder. |
| Day14.ModShift | Day/Day14.go:150-160 | Adding whole room sizes does not change the remainder. |
| Day14.ModUnique | Day/Day14.go:150-160 | The remainder is the one value in [0, w) that differs from the number by a multiple of w. |
| Day14.SimulateWraps | Day/Day14.go:143-163 | A robot that starts in the room and moves at most one room size per step stays in the room. After n steps it is at its start plus n times its velocity, modulo the room size. |
| Day14.AxisStep | Day/Day14.go:146-161 | One more step on one axis moves the wrapped coordinate on by the velocity. |
| Day14.MoveRobot | Day/Day14.go:145-162 | The step loop leaves the robot where the step function takes it after the given number of steps. |
| Day14.MoveRobots | Day/Day14.go:144-163 | The simulation loop moves every robot by the step function. |
| Day14.CountAt | Day/Day14.go:132-134 | At most every robot stands on one cell. |
| Day14.MarkRobots | Day/Day14.go:171-173 | The marking loop adds to each cell the number of robots standing on it. |
| Day14.ClearRoom | Day/Day14.go:166-170 | The reset loop sets every cell to zero. |
| Day14.QuadrantOf | Day/Day14.go:181-189 | A cell off both middle lines lies in one of four quadrants. A cell on a middle line lies in none. |
| Day14.RobotsSelected | Day/Day14.go:178-192 | At most every robot is counted in a selection. |
| Day14.ColumnSumEmpty | Day/Day14.go:179-191 | A room with no robots sums to zero over a column. |
| Day14.GridSumEmpty | Day/Day14.go:178-192 | A room with no robots sums to zero. |
| Day14.ColumnSumAdd | Day/Day14.go:179-191 | One more robot adds one to a column's sum exactly when it stands on a selected cell of the column. |
| Day14.GridSumAdd | Day/Day14.go:178-192 | One more robot adds one to the grid's sum exactly when it stands on a selected cell of the room. |
| Day14.GridSumCountsRobots | Day/Day14.go:178-192 | Summing the room's counts over the selected cells counts the robots on those cells. |
| Day14.RoomHoldsEveryRobot | Day/Day14.go:171-173 | When every robot is in the room, the counts of the room sum to the number of robots. |
| Day14.AllSelected | Day/Day14.go:171-173 | When every robot is in the room, every robot is selected by the whole room. |
| Day14.OnMiddle | Day/Day14.go:181-189 | At most every robot stands on a middle line. |
| Day14.QuadrantsPartition | Day/Day14.go:178-192 | Every robot in the room is in exactly one quadrant or on a middle line. |
| Day14.CountQuadrants | Day/Day14.go:177-192 | Each quadrant's count is the number of robots standing in that quadrant. |
| Day14.Product | Day/Day14.go:195-198 | The product loop multiplies the counts together, starting from 1. |
| Day14.MultipliedFour | Day/Day14.go:195-198 | The product of four counts is their four-way product. |
| Day14.Day14 | Day/Day14.go:58-204 | The answer is the product of the quadrant counts of the robots after they are parsed and moved 100 steps in the 11 by 7 room. |
| Day14.SlowRobotsStayInRoom | Day/Day14.go:143-163 | Robots that start in the room and move at most one room size per step end in the room, so the final marking never indexes outside the room. |
| GoText.Split | Day/Day12.go:51 | strings.Split always returns at least one piece. |
| GoText.SplitJoin | Day/Day12.go:51 | Joining the pieces with the separator gives back the text. |
| GoText.SplitJoinInverse | Day/Day13.go:119 | Text joined from pieces that do not hold the separator's first character splits back into those pieces. |
| GoText.SplitWithoutSep | Day/Day13.go:40 | A text that does not hold the separator's first character is one piece. |
| GoText.IndexFrom | Day/Day5.go:141 | The search finds the first occurrence at or after the start, or reports that there is none. |
| GoText.ContainsMeans | Day/Day5.go:141 | strings.Contains holds exactly when the substring occurs somewhere in the text. |
| GoText.PrefixBeforeFirstOccurrence | Day/Day7.go:22-24 | The text before the first separator does not contain the separator. |
| GoText.Fields | Day/Day2.go:210 | strings.Fields gives non-empty words with no white space in them. |
| GoText.TrimSpace | Day/Day12.go:51 | strings.TrimSpace leaves no white space at either end. |
| GoText.ParseInt | Day/Day2.go:213 | strconv.ParseInt succeeds only on non-empty text and reads a run of digits as its decimal value. |
| GoText.ParseNegative | Day/Day11.go:106 | A minus sign followed by digits parses to minus their value. A minus sign alone is a syntax error. |
| GoText.ParsedInts | Day/Day2.go:210-220 | The parse loop keeps, in order, the values of the fields that parse and skips the rest. When every field parses, every field gives a value. |
| GoText.FormatNat | Day/Day9.go:222 | strconv.FormatInt of a non-negative number is a non-empty run of digits. |
| GoText.FormatNatFacts | Day/Day11.go:102 | The rendering has one character per decimal digit, has no leading zero, and reads back as the number. |
| GoText.ParseFormatRoundTrip | Day/Day11.go:102-107 | Parsing the decimal rendering of any integer gives the integer back. |

## Left out

- Day 3 (`Day/Day3.go`), the shared helpers in `utils` and the `main` program are not part of this model.
- File input: each solver's opening and scanning of its input file, including the error returns when the file is missing or cannot be read. The file content is a parameter instead.
- Printing: every `fmt.Print*` call, the debug dumps of grids, lists and regions, Day 14's `printRoom` and the print methods of the Go structs. Only the value each solver prints as its answer is returned.
- Go's fixed-width integers. `int` and `int64` are unbounded here, so overflow is not modelled. This affects the Day 7 sums, products and concatenations, the Day 9 checksum, Day 11's multiplication by 2024, the Day 12 price, the Day 13 costs and the Day 14 product. Day 2's `strconv.ParseInt(..., 10, 64)` range check is not modelled either.
- Day1.Abs: Day 1 takes the absolute difference through `math.Abs` on `float64`. The model uses the integer absolute value, which agrees for integers up to 2^53.
- Day1.SortInts: Go's `sort.Ints` is library code. It is modelled by a selection sort with the same contract: sorted, and a permutation of the input.
- Day2.CountSafe: the fallback to the unforgiving check at `Day/Day2.go:57` can never run, because `row2` is a copy with the row's length. The model proves this and leaves the branch out.
- Day4: each cell's `starList` is a Go map, and the count at `Day/Day4.go:103` ranges over it in an unspecified order. The model keeps the words in compass-direction order, and the count does not depend on it.
- Day4.Day4: only rectangular grids are modelled, and `Day4.CellMatrix.constructor` requires one too, because the grid is an `array2`. The Go code bounds each read by the length of the row it starts in, so it also runs some ragged grids whose reads stay in range ("XMAS\nX" counts one XMAS and no X-MAS) and panics on others ("XXXX\nX\nX\nX"). Neither kind of ragged input is modelled.
- Day5 and Day6: where the Go code can loop forever (Day 5's repair fixpoint, and Day 6's walk on a grid with no guard or with a guard that never leaves), the methods take a `fuel` bound and return `None` once it runs out.
- Day8: the `brotherList` field of each Go cell is kept as a local list, since nothing outside the pairing loop reads it.
- Day10.TakeStep: the Go code overwrites `foundTrail` on every step and only prints it. The model keeps that overwrite and proves what the last value means.
- Day11.Day11: the Go code fixes the blink count at 75. The model takes the count as a parameter.
- Day12: the Go code walks the map of regions in an unspecified order. The model sums in id order and proves the total is the same for every order (`Day12.PriceIndependentOfOrder`).
- Day12.Day12: only rectangular grids are modelled, and `Day12.BuildRegions` and `Day12.Garden.constructor` require one too, because the garden is an `array2`. The Go code bounds every column by the length of the first line, so it also runs grids whose later lines are longer ("AB\nABC" prints 28) and can panic when a later line is shorter. Neither kind of ragged input is modelled.
- Day13 and Day14: both Go solvers overwrite the file content with built-in sample data. The model takes the input as a parameter and does not model the sample.
- Day13: machines and runs are values. The Go pointers to them are never shared, so nothing aliases.
- Day13.Day13: models the search bound as written. The inclusive bound is modelled and proved separately (see Findings).
- Day14: the 11 by 7 room and the 100 steps are constants, as in the Go code. The Go code indexes the room without a bounds check, so `Day14.Day14` requires every robot to be in the room before and after moving. `Day14.SlowRobotsStayInRoom` shows that this holds for robots that start in the room and move at most one room size per step.
- Day5: `listAddAt` and `listRemAt` build new slices, so the model treats them as functions on values. The one write the caller sees is the store of a repaired update into the caller's update slice (`Day/Day5.go:106`), which the model makes an `array` in `Day5.Day5Part2`.

## Findings

| source | as written | input that shows it | evidently intended | confidence | as-written member | corrected member |
|---|---|---|---|---|---|---|
| Day/Day13.go:148 | The search tries A press counts 0 up to prizeX / buttonAX, exclusive. | A = (2, 2), B = (3, 7), prize (10, 10): five A presses win, and no run is recorded. | Try A press counts up to and including prizeX / buttonAX, so every winning pair is recorded and the cheapest one wins. | not executed | Day13.MissedAtTheBound | Day13.CorrectedWinnerIsCheapest |
| Day/Day2.go:132-188 | The forgiving check skips the forgiven pair without comparing the levels on either side of it. It also spends its one forgiveness on the rising pass before the falling pass runs. | [1, 5, 9] is accepted although no single removal makes it safe. [1, 2, 1, 0] is rejected although removing its first level makes it safe. | A report counts when it is safe or becomes safe without one of its levels. | not executed | Day2.AcceptsUntolerable | Day2.TolerantVerdict |
