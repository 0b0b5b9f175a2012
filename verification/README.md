# Advent of Code 2022 solutions, modelled in Dafny

The repository holds one small Rust program per puzzle of Advent of Code
2022. Each program reads its puzzle input, runs an algorithm over it and
prints an answer. This project models those algorithms. Input parsing
through `sscanf!`, and printing, are left out. Every algorithm takes its
parsed input as parameters. The constants of the programs (the row
2000000, the 4000000 square, 20 and 10000 rounds, 30 and 26 minutes)
stay constants of the model.

One module per program, in one file per program:

| file | module | program |
|---|---|---|
| `common.dfy` | `Common` | shared helpers: `Option`, Rust's truncating `/` and `%`, sums, decimal printing, insertion sort over an ordering |
| `day01.dfy` | `Day01` | calorie counting: group totals, sum of the three largest |
| `day02_part1.dfy` | `Day02Part1` | rock–paper–scissors scoring, both letters are moves |
| `day02_part2.dfy` | `Day02Part2` | rock–paper–scissors scoring, the second letter is the outcome |
| `day03_part1.dfy` | `Day03Part1` | rucksack item shared by the two halves, priorities |
| `day03_part2.dfy` | `Day03Part2` | badge shared by a group of three rucksacks |
| `day04_part1.dfy` | `Day04Part1` | section-range pairs where one range contains the other |
| `day05.dfy` | `Day05` | crate stacks: diagram parsing, one-by-one and block moves |
| `day06.dfy` | `Day06` | first window of distinct characters |
| `day07_part01.dfy` | `Day07Part01` | directory sizes from a shell session, sum of the small ones |
| `day07_part02.dfy` | `Day07Part02` | directory sizes keyed by path, smallest directory to delete |
| `day07_part02_debug.dfy` | `Day07Part02Debug` | the tracing variant of part 2 |
| `day08.dfy` | `Day08` | tree grid: visibility from the edges, scenic scores |
| `day09_part01.dfy` | `Day09Part01` | rope of two knots: cells the tail visits |
| `day09_part02.dfy` | `Day09Part02` | rope of ten knots: cells the last knot visits |
| `day10_part1.dfy` | `Day10Part1` | two-cycle `addx` CPU, signal strength at six cycles |
| `day10_part2.dfy` | `Day10Part2` | the same CPU drawing a 6 by 40 screen |
| `day11_part1.dfy` | `Day11Part1` | monkeys throwing items, 20 rounds with relief by 3, the two busiest monkeys |
| `day11_part2.dfy` | `Day11Part2` | 10000 rounds with levels reduced modulo the product of the divisors |
| `day12.dfy` | `Day12` | hill climbing: the height map, Dijkstra's algorithm backwards from `E`, the drawn route, the fewest steps from `S` and from any `a` |
| `day13.dfy` | `Day13` | nested-list packets: the bracket parser, the packet order, pair sums and the decoder key |
| `day14_part1.dfy` | `Day14Part1` | falling sand in a grid array: rock paths, the three-way fall, the count when a grain leaves the grid |
| `day14_part2.dfy` | `Day14Part2` | falling sand on a map with a floor, until the spawn point is covered |
| `day15_part1.dfy` | `Day15Part1` | sensors and beacons: positions of row 2000000 that some sensor covers |
| `day15_part2.dfy` | `Day15Part2` | the one uncovered position of the 4000000 square, found on the rings just outside the sensors' ranges |
| `day17.dfy` | `Day17` | falling rocks pushed by jets in a 131072-cell buffer, the cycle skip to one trillion rocks |
| `day18.dfy` | `Day18` | lava cubes: exposed faces, flood fill of the outside air, exterior faces |
| `day19_part1.dfy` | `Day19Part1` | robot factories: the depth-first search for geodes in 24 minutes, an unpruned reference, the quality levels |
| `day19_part2.dfy` | `Day19Part2` | the harder-pruned search over 32 minutes and the product of the first three blueprints |
| `day16_part1.dfy` | `Day16Part1` | valve planner, memoised search over moves |
| `day16_part2.dfy` | `Day16Part2` | valve planner for two walkers: Floyd–Warshall, route enumeration, disjoint pairing |
| `day20_part1.dfy` | `Day20Part1` | mixing a circular list by adjacent swaps, grove coordinates |
| `day20_part2.dfy` | `Day20Part2` | keyed values, ten mixing passes with shifts reduced modulo `len - 1` |
| `day21.dfy` | `Day21` | monkeys yelling numbers: recursive evaluation of `root`, the dichotomic search for `humn` |

The headline is the valve planner of day 16.

**Part 1.** `Day16Part1.Best` is the search without its cache. It is
defined as a function over the move, the minutes left and the set of
opened valves. It returns none where the program panics: a tunnel that
leads to a valve missing from the table fails its `unwrap`, and the
search above it fails with it. The memoised search is a family of methods threading the
cache through the calls. Each is proved to return `Best` and to keep
every cache entry equal to `Best` of the call that stored it. The cache
key is proved to be readable back into the move, the time and the sorted
list of opened valves. It is also proved independent of the order in
which the opened valves are listed.

**Part 2.**
- Floyd–Warshall is a triple loop over an `array2`, proved to compute the
  closure function `Closure`. `Closure` is proved to satisfy the triangle
  inequality, to keep the diagonal at zero and never to increase an
  entry.
- The route enumerator is a recursive method proved to append exactly
  the records of the specification function `Enumerate`.
- The pairing loop is proved to return the best total over disjoint
  pairs.

## Model

| member | source | states |
|---|---|---|
| Day01.GroupsPartition | day-01/src/main.rs:10-14 | splitting at blank lines gives one group more than there are blank lines, and the groups together hold every number, in order |
| Day01.GroupTotalsAt | day-01/src/main.rs:12-16 | each bag's total is the sum of its numbers |
| Day01.GroupTotalsSum | day-01/src/main.rs:10-16 | the bag totals add up to the sum of all numbers |
| Day01.SumPermutation | day-01/src/main.rs:17-20 | reordering the totals, as the heap does, keeps their sum |
| Day01.TopThreeOfFew | day-01/src/main.rs:17-20 | with three bags or fewer the answer is the sum of all totals |
| Day01.TopThreeOrderIndependent | day-01/src/main.rs:17-20 | the answer depends only on the multiset of totals, not on the order of the bags |
| Day01.TopThreeAtLeastEach | day-01/src/main.rs:17-20 | with non-negative totals the answer is at least every single bag's total |
| Day01.TopThreeAreLargest | day-01/src/main.rs:17-20 | every total taken is at least every total left out |
| Day02Part1.WinAgainstIsOneBelow | day-02/part-1/src/main.rs:5-18 | a move beats another exactly when its value is one more modulo 3 |
| Day02Part1.WinAgainstCycle | day-02/part-1/src/main.rs:12-18 | "beats" is a 3-cycle: no move beats itself or the move beating it |
| Day02Part1.MoveFromLetter | day-02/part-1/src/main.rs:27-34 | `A`/`X` is rock, `B`/`Y` paper, `C`/`Z` scissors; any other letter is unreachable |
| Day02Part1.GetOutcomeMeaning | day-02/part-1/src/main.rs:36-44 | the round is lost exactly when the opponent's move beats ours, won exactly when ours beats it, drawn exactly when they are equal |
| Day02Part1.GetOutcomeSwap | day-02/part-1/src/main.rs:36-44 | swapping the players turns a win into a loss and back, and keeps a draw |
| Day02Part1.RoundScore | day-02/part-1/src/main.rs:53-68 | a round scores between 1 and 9 |
| Day02Part1.TotalScoreBounds | day-02/part-1/src/main.rs:51-73 | the total of `n` rounds lies between `n` and `9n` |
| Day02Part1.TotalScoreAppend | day-02/part-1/src/main.rs:51-73 | the total of two guides is the sum of their totals |
| Day02Part2.LoseAgainstInverse | day-02/part-2/src/main.rs:11-27 | `lose_against` and `win_against` undo each other |
| Day02Part2.OpponentMove | day-02/part-2/src/main.rs:36-43 | `A`, `B`, `C` give the moves of value 1, 2, 3 |
| Day02Part2.OutcomeFromLetter | day-02/part-2/src/main.rs:45-52 | `X`, `Y`, `Z` give the outcomes worth 0, 3, 6 |
| Day02Part2.MoveForOutcomeReaches | day-02/part-2/src/main.rs:54-60 | the chosen move reaches the requested outcome, and it is the only move that does |
| Day02Part2.RoundScore | day-02/part-2/src/main.rs:68-77 | a round scores between 1 and 9, and its score is the one part 1 gives the chosen move |
| Day02Part2.TotalScoreBounds | day-02/part-2/src/main.rs:66-78 | the total of `n` rounds lies between `n` and `9n` |
| Day03Part1.Priority | day-03/part-1/src/main.rs:9-15 | an item's priority lies in 1..52 and is at most 26 exactly for a lower-case item |
| Day03Part1.PriorityRoundTrip | day-03/part-1/src/main.rs:9-15 | the priority can be read back into the item, and every priority in 1..52 is some item's |
| Day03Part1.PriorityInjective | day-03/part-1/src/main.rs:9-15 | different items have different priorities |
| Day03Part1.FirstCommon | day-03/part-1/src/main.rs:21-25 | a found item is in both lists and is the first item of the first list that occurs in the second; none is found exactly when the lists share nothing |
| Day03Part1.Halves | day-03/part-1/src/main.rs:20 | the two halves put together are the line, and the first has `len / 2` items |
| Day03Part1.RucksackValue | day-03/part-1/src/main.rs:19-26 | a rucksack's value is the priority of the first item of the first half that occurs in the second; only that item must be a letter |
| Day03Part1.RucksackValueOfSharedItem | day-03/part-1/src/main.rs:19-26 | when the halves share exactly one item, the value is that item's priority |
| Day03Part1.TotalBounds | day-03/part-1/src/main.rs:18-27 | the sum over `n` rucksacks lies between `n` and `52n` |
| Day03Part2.Badge | day-03/part-2/src/main.rs:22-27 | a found badge is in all three rucksacks and is the first item of the first rucksack present in the other two; none is found exactly when they share nothing |
| Day03Part2.Groups | day-03/part-2/src/main.rs:19-21 | the lines are cut into `len / 3` consecutive groups of three |
| Day03Part2.BadgeIsSharedItem | day-03/part-2/src/main.rs:21-28 | when the three rucksacks share exactly one item, it is the badge |
| Day03Part2.TotalBounds | day-03/part-2/src/main.rs:19-29 | the sum over `n` groups lies between `n` and `52n` |
| Day03Part2.AnswerIgnoresIncompleteGroup | day-03/part-2/src/main.rs:19-21 | one or two lines after the last full group are dropped |
| Day04Part1.FullyContainsSymmetric | day-04/part-1/src/main.rs:13 | the test does not depend on which elf is listed first |
| Day04Part1.IdenticalRangesCount | day-04/part-1/src/main.rs:13 | two equal ranges count |
| Day04Part1.FullyContainsMeansSubset | day-04/part-1/src/main.rs:13 | for non-empty ranges, the test holds exactly when one range's sections all lie in the other |
| Day04Part1.Count | day-04/part-1/src/main.rs:10-17 | the count never exceeds the number of pairs |
| Day04Part1.CountAppend | day-04/part-1/src/main.rs:10-17 | the count over two lists is the sum of their counts |
| Day04Part1.CountPrefix | day-04/part-1/src/main.rs:10-17 | the fold over the first `k` pairs counts the indices below `k` whose pair passes |
| Day04Part1.CountIsSize | day-04/part-1/src/main.rs:10-17 | the answer is the number of pairs where one range contains the other |
| Day05.FindNumberLine | day-05/src/main.rs:13-21 | the loop stops at the first line whose second character is `1` |
| Day05.CrateAt | day-05/src/main.rs:30-33 | stack `n`'s character sits at column `1 + 4n`, and a crate is there exactly when it is not a space |
| Day05.ParseStacks | day-05/src/main.rs:23-35 | there are `(len + 1) / 4` stacks, and each holds the crates of its column, bottom line first |
| Day05.CrateMover9000 | day-05/src/main.rs:46-49 | moving one crate at a time computes `MoveOneByOne`: the top `amount` crates, reversed, on top of the target |
| Day05.CrateMover9001 | day-05/src/main.rs:52-54 | `split_off` and `append` compute `MoveBlock`: the top `amount` crates, in order, on top of the target |
| Day05.MovesTouchOnlyTwoStacks | day-05/src/main.rs:42-55 | a move changes only the source and target stacks, both crane models leave the same heights, and a move onto the same stack changes nothing in part 2 |
| Day05.MoveConservesCrates | day-05/src/main.rs:42-55 | both crane models keep the total number of crates |
| Day05.SameHeightsFeasible | day-05/src/main.rs:40-55 | whether a list of moves can run depends only on the stack heights |
| Day05.OneByOneFeasible | day-05/src/main.rs:40-55 | the part-1 stacks can run every move the part-2 stacks can |
| Day05.ApplyMoves | day-05/src/main.rs:40-55 | the loop over the moves produces both folds: one-by-one on `stacks`, block on `stacks2` |
| Day05.Tops | day-05/src/main.rs:57-64 | the answer lists the top crate of every stack, in order |
| Day06.UniqueCountMeansDistinct | day-06/src/main.rs:13 | counting unique characters gives the window's length exactly when the characters are pairwise distinct |
| Day06.FirstMarkerFrom | day-06/src/main.rs:12-18 | the search returns the end of the first marker window at or after the start, and none only when there is none |
| Day06.MarkerMeansDistinct | day-06/src/main.rs:12-13 | a window is a marker exactly when its characters are pairwise distinct |
| Day06.FirstMarkerIsFirstDistinctWindow | day-06/src/main.rs:12-26 | the answer is the end of the first window of `n` pairwise distinct characters |
| Day06.PacketBeforeMessage | day-06/src/main.rs:12-26 | a message marker implies a packet marker ending no later |
| Day07Part01.ClassifyPrecedence | day-07/part-01/src/main.rs:14-35 | `$ cd ..` is tested before `$ cd {}`; `$ ls` and `dir` lines match no pattern |
| Day07Part01.ClassifyFile | day-07/part-01/src/main.rs:31-34 | a line of digits, a space and a name is a file of that size |
| Day07Part01.ParseDigits | day-07/part-01/src/main.rs:31 | the `{} {}` pattern reads the decimal value of the leading digits and the rest of the line |
| Day07Part01.StepMeaning | day-07/part-01/src/main.rs:15-34 | `$ cd X` pushes 0; a file adds its size to the last level only; `$ cd ..` pops a size, adds it to the sum when at most 100000, and adds it to the new last level |
| Day07Part01.ApplyLine | day-07/part-01/src/main.rs:15-34 | the loop body for one line performs that step |
| Day07Part01.SumOfSmallDirectories | day-07/part-01/src/main.rs:9-37 | the loop computes the sum of the step function's run from `[0]` |
| Day07Part01.StepConservesSizes | day-07/part-01/src/main.rs:15-34 | each step keeps the sum of the levels equal to the file sizes read |
| Day07Part01.RunConservesSizes | day-07/part-01/src/main.rs:14-35 | over a whole session, the levels add up to the sizes of all files listed |
| Day07Part01.StepBounds | day-07/part-01/src/main.rs:15-34 | with non-negative sizes the levels stay non-negative and the sum grows by at most 100000 per `$ cd ..` |
| Day07Part01.RunSumBounds | day-07/part-01/src/main.rs:14-37 | the answer is at most 100000 times the number of `$ cd ..` lines |
| Day07Part02.JoinPrefixLonger | day-07/part-02/src/main.rs:17-26 | the directories on the current path have pairwise different keys |
| Day07Part02.StepMeaning | day-07/part-02/src/main.rs:15-35 | `$ cd X` pushes X and sets its entry to 0; a file adds to the current entry only; `$ cd ..` adds the directory's entry to its parent's, then pops |
| Day07Part02.ApplyLine | day-07/part-02/src/main.rs:15-35 | the loop body for one line performs that step |
| Day07Part02.ReadSession | day-07/part-02/src/main.rs:12-36 | the loop computes the step function's run from an empty map and path |
| Day07Part02.Unwound | day-07/part-02/src/main.rs:38-42 | closing directories leaves only the outermost one open |
| Day07Part02.Unwind | day-07/part-02/src/main.rs:38-42 | the loop of `path.len() - 1` steps computes `Unwound` |
| Day07Part02.StepReachable | day-07/part-02/src/main.rs:24-29 | entering a directory with a non-empty name never stores the empty key |
| Day07Part02.CdConservesSizes | day-07/part-02/src/main.rs:24-29 | entering a directory keeps the sum of the entries on the path |
| Day07Part02.FileConservesSizes | day-07/part-02/src/main.rs:31-34 | a file line adds its size to the sum of the entries on the path |
| Day07Part02.CdUpConservesSizes | day-07/part-02/src/main.rs:16-22 | leaving a directory keeps the sum of the entries on the path |
| Day07Part02.StepConservesSizes | day-07/part-02/src/main.rs:15-35 | each step keeps every file counted exactly once on the path |
| Day07Part02.RunConservesSizes | day-07/part-02/src/main.rs:15-36 | over a session, the entries on the path add up to the sizes of all files listed |
| Day07Part02.UnwoundConservesSizes | day-07/part-02/src/main.rs:38-42 | closing the open directories keeps that sum |
| Day07Part02.CommandsNamesNonEmpty | day-07/part-02/src/main.rs:24 | the `$ cd {}` pattern reads a non-empty name |
| Day07Part02.OutermostHoldsAllFiles | day-07/part-02/src/main.rs:12-44 | after the session and the closing loop, the outermost directory's entry is the total size of all files |
| Day07Part02.SmallestAbove | day-07/part-02/src/main.rs:47-49 | sorting and finding the first size above the threshold gives the smallest size above it |
| Day07Part02.Values | day-07/part-02/src/main.rs:47 | the collected sizes are exactly the map's values |
| Day07Part02.Solve | day-07/part-02/src/main.rs:10-51 | the answer is a directory's size above `30000000 - (70000000 - total)`, and no directory above it is smaller |
| Day07Part02Debug.ClassifyDebugAgrees | day-07/part-02/src/main-debug.rs:17-73 | the tracing dispatch agrees with part 2's, except that lines part 2 ignores may be recognised as `$ ls` or `dir` |
| Day07Part02Debug.StepAgrees | day-07/part-02/src/main-debug.rs:36-54 | the recognised `$ ls` and `dir` lines change nothing |
| Day07Part02Debug.RunAgrees | day-07/part-02/src/main-debug.rs:17-73 | the tracing loop reads exactly the sessions part 2 reads, into the same map and path |
| Day07Part02Debug.ApplyLineDebug | day-07/part-02/src/main-debug.rs:18-72 | the tracing loop body performs the step of its dispatch |
| Day07Part02Debug.ReadSessionDebug | day-07/part-02/src/main-debug.rs:13-73 | the tracing loop ends in part 2's map and path |
| Day07Part02Debug.SolveDebug | day-07/part-02/src/main-debug.rs:12-116 | the tracing program's answer meets part 2's contract over the same directories |
| Day08.HasSmallerTrees | day-08/src/main.rs:9-34 | the walk returns true exactly when every tree between the start and the edge, in the given non-zero direction, is lower |
| Day08.ViewCountMeaning | day-08/src/main.rs:36-64 | the view count covers the trees up to and including the first one at least as high, or up to the edge; every tree counted is on the map |
| Day08.ViewCountUnique | day-08/src/main.rs:36-64 | that description fixes the count |
| Day08.ClearIffViewReachesEdge | day-08/src/main.rs:9-64 | a tree is visible from a side exactly when its view that way reaches the edge unblocked |
| Day08.NumTreesViewed | day-08/src/main.rs:36-64 | the counting walk returns the view count |
| Day08.SolveRow | day-08/src/main.rs:83-102 | one row of the nested loop counts its visible interior trees and finds its best score |
| Day08.Solve | day-08/src/main.rs:67-103 | the visible count is the number of border trees plus the visible interior trees (the border count as corrected under Findings), and the best score is the best interior score or 0 |
| Day08.BorderVisible | day-08/src/main.rs:79 | every border tree is visible |
| Day08.BorderFormulaAsWritten | day-08/src/main.rs:79 | `2w + 2h - 4` counts the border trees on every map of at least two rows and two columns, and not on a single tree |
| Day08.VisibleCountIsVisibleTrees | day-08/src/main.rs:79-91 | the border count plus the visible interior trees is the number of visible trees on the map |
| Day08.SingleTreeMiscounted | day-08/src/main.rs:79 | on a one-tree map, `2w + 2h - 4` plus the interior gives 0 while one tree is visible |
| Day08.BestIsMaximum | day-08/src/main.rs:94-101 | the best score is at least every interior tree's score and is one of them, or 0 when there is no interior tree |
| Day09Part01.Normalize | day-09/part-01/src/main.rs:10-18 | the result is 0, 1 or -1 exactly when the argument is zero, positive or negative |
| Day09Part01.NormalizeIsSign | day-09/part-01/src/main.rs:10-18 | the result times the argument is its absolute value, and negating the argument negates the result |
| Day09Part01.HeadMovesOneCell | day-09/part-01/src/main.rs:40-47 | `U`, `D`, `R` and `L` move the head by exactly one cell; any other letter leaves it in place |
| Day09Part01.FollowMeaning | day-09/part-01/src/main.rs:49-56 | a touching tail stays; otherwise it moves by at most one cell on each axis, closing the king-move distance by one, and touches a head at most two cells away |
| Day09Part01.FollowKeepsAdjacent | day-09/part-01/src/main.rs:40-56 | when the head moves to a touching cell from a cell touching the tail, the tail ends touching it |
| Day09Part01.StepOnce | day-09/part-01/src/main.rs:40-56 | one step moves the head and lets the tail follow; the visited set gains the tail's cell, which it already held when the tail did not move |
| Day09Part01.ApplyMove | day-09/part-01/src/main.rs:40-56 | the steps of a move line (none for a count below 1) give the rope of `RunMove` and record every tail cell along the way |
| Day09Part01.Simulate | day-09/part-01/src/main.rs:23-98 | the result is the number of distinct cells among the origin and the tail's cell after every step |
| Day09Part01.StepKeepsAdjacent | day-09/part-01/src/main.rs:40-56 | a step keeps the tail touching the head |
| Day09Part01.RunMoveKeepsAdjacent | day-09/part-01/src/main.rs:40-56 | so does a whole move line |
| Day09Part01.TailStaysAdjacent | day-09/part-01/src/main.rs:35-56 | after any list of moves from the origin the tail touches the head |
| Day09Part01.TailStepsAreSmall | day-09/part-01/src/main.rs:49-56 | a step moves the tail to a cell touching its previous one |
| Day09Part01.TailsMoveRecordsAll | day-09/part-01/src/main.rs:49-56 | every cell the tail stands on after a step of the move is recorded |
| Day09Part01.TailsMoveRecordsOnly | day-09/part-01/src/main.rs:49-56 | every recorded cell is one the tail stood on after some step |
| Day09Part02.Pull | day-09/part-02/src/main.rs:57-72 | the knot-following loop run up to knot `n` keeps the length, the head and the knots from `n` on |
| Day09Part02.PullMeaning | day-09/part-02/src/main.rs:57-72 | each knot below `n` ends at the follow of its original position towards the new position of the knot before it |
| Day09Part02.StepMeaning | day-09/part-02/src/main.rs:48-72 | in a step knot 0 moves by the direction and every later knot, in order, follows the knot before it |
| Day09Part02.TwoKnotsArePartOne | day-09/part-02/src/main.rs:48-72 | with two knots a step is the step of part 1 |
| Day09Part02.PullKeepsConnected | day-09/part-02/src/main.rs:57-72 | each followed knot moves to a cell touching its old one and touches the knot before it |
| Day09Part02.StepKeepsConnected | day-09/part-02/src/main.rs:48-72 | a step keeps every knot touching the one before it |
| Day09Part02.RunMoveKeepsConnected | day-09/part-02/src/main.rs:48-73 | so does a whole move line |
| Day09Part02.RopeStaysConnected | day-09/part-02/src/main.rs:27-73 | after any list of moves from ten knots at the origin, every knot touches the one before it |
| Day09Part02.StepOnce | day-09/part-02/src/main.rs:49-72 | one step returns the rope of `Step` and records knot 9's cell, and only knot 9's |
| Day09Part02.ApplyMove | day-09/part-02/src/main.rs:46-73 | the steps of a move line give the rope of `RunMove` and record every cell of knot 9 along the way |
| Day09Part02.Simulate | day-09/part-02/src/main.rs:27-124 | the result is the number of distinct cells among the origin and knot 9's cell after every step |
| Day10Part1.ParseInteger | day-10/part-1/src/main.rs:21 | a parsed integer is a non-empty text without spaces |
| Day10Part1.LastSpace | day-10/part-1/src/main.rs:21 | the position found holds a space and no later one does; none is found only in a line without spaces |
| Day10Part1.ParseInstructionLines | day-10/part-1/src/main.rs:14-26 | `noop` reads as `Noop`, and a word, a space and an integer read as `AddX` of that integer |
| Day10Part1.ValidPrefix | day-10/part-1/src/main.rs:14-26 | the instructions read are the parses of the first lines, up to the first line that does not parse |
| Day10Part1.TraceLength | day-10/part-1/src/main.rs:45-66 | the instructions run for one cycle per `noop` and two per `addx` |
| Day10Part1.StartsAtOne | day-10/part-1/src/main.rs:31 | `x` is 1 during the first cycle |
| Day10Part1.NoopTiming | day-10/part-1/src/main.rs:63-65 | `noop` takes one cycle and leaves `x` unchanged |
| Day10Part1.AddXTiming | day-10/part-1/src/main.rs:45-61 | `addx v` takes two cycles with `x` unchanged and adds `v` after the second |
| Day10Part1.TracePrefix | day-10/part-1/src/main.rs:45-70 | the cycles of fewer instructions are a prefix of the cycles of more |
| Day10Part1.CycleValue | day-10/part-1/src/main.rs:45-70 | during the cycles of an instruction `x` is the value the instructions before it leave, and after the last one it is the final value |
| Day10Part1.StrengthStep | day-10/part-1/src/main.rs:36-43 | one more cycle adds cycle times `x` exactly when it is a checkpoint |
| Day10Part1.StrengthOfNone | day-10/part-1/src/main.rs:33 | the strength starts at 0 |
| Day10Part1.StrengthOfAll | day-10/part-1/src/main.rs:35-43 | over all 220 cycles the strength is the sum of the products at cycles 20, 60, 100, 140, 180 and 220 |
| Day10Part1.MachineValue | day-10/part-1/src/main.rs:35-55 | at the start of a cycle the register holds that cycle's value |
| Day10Part1.FinishAddX | day-10/part-1/src/main.rs:45-55 | completing a pending `addx` adds its argument and clears it, ending that instruction's cycles |
| Day10Part1.Fetch | day-10/part-1/src/main.rs:57-66 | reading the next instruction starts its cycles: a `noop` completes at once and an `addx` becomes pending |
| Day10Part1.MachineBound | day-10/part-1/src/main.rs:35-71 | the cycles run never exceed the cycles of the instructions, and not while an `addx` is pending |
| Day10Part1.FetchLine | day-10/part-1/src/main.rs:14-26 | reading a line that does not parse panics; any other line read is the next instruction |
| Day10Part1.FinishInput | day-10/part-1/src/main.rs:67-70 | at the end of the input every line has been read and the current cycle is the last one |
| Day10Part1.AddStrength | day-10/part-1/src/main.rs:36-43 | the test at the top of a cycle adds cycle times `x` at the checkpoints |
| Day10Part1.Execute | day-10/part-1/src/main.rs:45-70 | the second half of a cycle completes a pending `addx`, or reads the next instruction, or stops at the end of the input, or panics on a line that does not parse |
| Day10Part1.SignalStrength | day-10/part-1/src/main.rs:29-73 | panics exactly when a line that does not parse is read within 220 cycles; otherwise the result adds cycle times `x` at the checkpoints among the cycles run |
| Day10Part2.PixelMeaning | day-10/part-2/src/main.rs:49-53 | a pixel is `#` exactly when the sprite centre `x` is at most one column away, and `.` otherwise |
| Day10Part2.CycleCell | day-10/part-2/src/main.rs:45-47 | each of the 240 cycles draws on a cell of the 6 by 40 screen, and no two cycles draw on the same cell |
| Day10Part2.DrawPixel | day-10/part-2/src/main.rs:46-53 | a cycle writes its own pixel and leaves every other cell unchanged |
| Day10Part2.DrawScreen | day-10/part-2/src/main.rs:38-85 | panics exactly when a line that does not parse is read within 240 cycles; otherwise every cell drawn holds its pixel and the cells of cycles not run still hold a space |
| Day20Part1.ModFloor | day-20/part-1/src/main.rs:15-17 | the result lies in `[0, base)` for every positive base |
| Day20Part1.ModFloorIsRemainder | day-20/part-1/src/main.rs:15-17 | `mod_floor(a, base)` is the floored remainder of `a`, congruent to `a` modulo `base` |
| Day20Part1.ModFloorTests | day-20/part-1/src/main.rs:19-32 | the eleven values fixed by `test_mod_floor`, among them `mod_floor(-1, 3) == 2` and `mod_floor(-4, 3) == 2`; part 2 repeats the same test at day-20/part-2/src/main.rs:21-34 |
| Day20Part1.ModFloorSmall | day-20/part-1/src/main.rs:15-17 | on `[0, base)` `mod_floor` changes nothing |
| Day20Part1.Items | day-20/part-1/src/main.rs:42-49 | one item per number, in order, whose id is its original index and whose value is the number |
| Day20Part1.ItemsDistinct | day-20/part-1/src/main.rs:42-49 | no two items share an id |
| Day20Part1.FindFirst | day-20/part-1/src/main.rs:56 | the index of the first item satisfying the predicate, or none exactly when no item does |
| Day20Part1.Position | day-20/part-1/src/main.rs:56 | the scan of the array returns the first matching index, or none |
| Day20Part1.Swap | day-20/part-1/src/main.rs:66-68 | the swap through `tmp` keeps the length and the multiset of items, and puts the item from `i` at `j` |
| Day20Part1.MoveSteps | day-20/part-1/src/main.rs:61-68 | any number of wrapped adjacent swaps keeps the list a permutation of its items |
| Day20Part1.MoveStepsTracks | day-20/part-1/src/main.rs:61-68 | after `n` swaps in direction `sign` the moved item stands at `mod_floor(index + sign * n, len)` |
| Day20Part1.MoveItem | day-20/part-1/src/main.rs:61-75 | the in-place inner loop leaves the array equal to `MoveSteps` of its old contents |
| Day20Part1.MoveOne | day-20/part-1/src/main.rs:56-75 | moving one item (found by id, `abs(value)` swaps in the sign's direction) keeps the multiset of items |
| Day20Part1.ItemIsFound | day-20/part-1/src/main.rs:56 | an item of the list is always found by its id, so the `unwrap` never panics during mixing |
| Day20Part1.Mixed | day-20/part-1/src/main.rs:53-85 | moving the items one by one in their original order keeps the multiset of items |
| Day20Part1.GroveSum | day-20/part-1/src/main.rs:87-91 | there is no answer (the `unwrap` panics) exactly when no value is 0 |
| Day20Part1.GroveSumMeaning | day-20/part-1/src/main.rs:87-91 | with the first 0 at `index`, the answer is the sum of the values at `(index + 1000) % len`, `(index + 2000) % len` and `(index + 3000) % len` |
| Day20Part1.MixPass | day-20/part-1/src/main.rs:53-85 | the in-place loop over the original items leaves the array equal to `Mixed` of its old contents |
| Day20Part1.GroveCoordinates | day-20/part-1/src/main.rs:87-91 | the three reads after the first 0 give `GroveSum` of the mixed array |
| Day20Part1.Solve | day-20/part-1/src/main.rs:37-98 | the answer is `GroveSum` of the items mixed once in their original order |
| Day20Part2.Keyed | day-20/part-2/src/main.rs:42-49 | one item per number whose id is its index and whose value is the number times the decryption key 811589153 |
| Day20Part2.KeyedZero | day-20/part-2/src/main.rs:42-49 | a keyed value is 0 exactly when the number is 0 |
| Day20Part2.Shift | day-20/part-2/src/main.rs:64-65 | fewer than `len - 1` swaps are made for any value |
| Day20Part2.ShiftIsReducedDistance | day-20/part-2/src/main.rs:64-65 | `abs(value % (len - 1))` is `abs(value)` reduced modulo `len - 1`, for negative values too |
| Day20Part2.MoveReduced | day-20/part-2/src/main.rs:62-76 | moving one item by the reduced count, in the direction of the unreduced value, keeps the multiset of items |
| Day20Part2.SmallMoveAsPartOne | day-20/part-2/src/main.rs:64-66 | a value shorter than `len - 1` moves exactly as in part 1 |
| Day20Part2.MixedReduced | day-20/part-2/src/main.rs:61-77 | one pass over the items in their original order keeps the multiset of items |
| Day20Part2.Rounds | day-20/part-2/src/main.rs:60-78 | any number of passes keeps the length and the multiset of items |
| Day20Part2.MixPass | day-20/part-2/src/main.rs:61-77 | the in-place pass leaves the array equal to `MixedReduced` of its old contents |
| Day20Part2.Solve | day-20/part-2/src/main.rs:37-91 | at most one number is a panic (`% 0`, or the missing 0); otherwise the answer is `GroveSum` after ten passes over the keyed items |
| Day20Part2.SolveDefined | day-20/part-2/src/main.rs:60-80 | with at least two numbers there is an answer exactly when one of the numbers is 0 |
| Day21.Apply | day-21/src/main.rs:32-38 | there is no number exactly for an unknown operator (`unreachable!`) or a division by zero; `/` truncates toward zero |
| Day21.GetValue | day-21/src/main.rs:23-42 | a missing monkey has no number (`unreachable!`) and a monkey that yells a number yields it; the recursion ends because every operation refers to lower-ranked monkeys |
| Day21.RankIrrelevant | day-21/src/main.rs:23-42 | the number a monkey yells does not depend on which ranking shows the definitions acyclic |
| Day21.OperationValue | day-21/src/main.rs:28-38 | an operation yells its operator applied to the numbers of its two operands |
| Day21.Step | day-21/src/main.rs:93-112 | the search goes up while the first operand is larger and down while it is smaller; the increment halves at each change of direction and never grows; `humn_value` moves by the new increment, minus 1 |
| Day21.Probe | day-21/src/main.rs:83-87 | after `humn` is set to `h`, the difference of the two operands' numbers, and none exactly when one of them panics |
| Day21.SearchOnce | day-21/src/main.rs:82-113 | one iteration panics with no number, stops at `humn_value` on a difference of 0, and otherwise continues from `Step` |
| Day21.FoundBalances | day-21/src/main.rs:83-91 | a number the search stops at makes both operands of `root` yell the same number |
| Day21.SearchSettled | day-21/src/main.rs:82-113 | once the search has stopped, more iterations change nothing |
| Day21.SearchLoop | day-21/src/main.rs:79-113 | the in-place loop from `humn_value` 0, increment 1000000000, going up, returns `Search` from that start |
| Day21.Compare | day-21/src/main.rs:83-87 | the insert into `items` sets `humn` and leaves the rest as it was; the result is `Probe` |
| Day21.Advance | day-21/src/main.rs:93-112 | the in-place update of `humn_value`, `increment` and `is_incrementing` is `Step` |
| Day21.Solve | day-21/src/main.rs:45-118 | part 1 is the number of `root`; part 2 panics when part 1 does or `root` is no operation, and is otherwise the search on `root`'s operands |
| Day11Part1.WorryNonNegative | day-11/part-1/src/main.rs:108-126 | with non-negative constants, `compute_worry_level` of a non-negative level is non-negative, for both operators and every choice of `old` operands |
| Day11Part1.Target | day-11/part-1/src/main.rs:174-180 | the item goes to `true_monkey_id` when the divisor divides the tested level and to `false_monkey_id` otherwise |
| Day11Part1.TotalItemsUpdate | day-11/part-1/src/main.rs:146-179 | replacing one monkey changes the total item count by the change in that monkey's list |
| Day11Part1.Throw | day-11/part-1/src/main.rs:140-180 | one throw keeps the number of monkeys and shortens the thrower's list by one |
| Day11Part1.ThrowMoves | day-11/part-1/src/main.rs:146-180 | the thrower loses its first item (FIFO) and gains one inspection; the target receives the new level at the end of its list; every other monkey is unchanged |
| Day11Part1.ThrowConserves | day-11/part-1/src/main.rs:146-179 | a throw keeps the total number of items |
| Day11Part1.Turn | day-11/part-1/src/main.rs:139-144 | a monkey's turn ends with its list empty |
| Day11Part1.TurnConserves | day-11/part-1/src/main.rs:139-181 | a turn keeps the total number of items |
| Day11Part1.TurnCounts | day-11/part-1/src/main.rs:139-149 | a turn adds one inspection per item the monkey held and leaves the other monkeys' counts alone |
| Day11Part1.RoundPrefixConserves | day-11/part-1/src/main.rs:138-182 | the turns of a round keep the total number of items |
| Day11Part1.RoundsConserve | day-11/part-1/src/main.rs:135-183 | any number of rounds keeps the total number of items |
| Day11Part1.Counts | day-11/part-1/src/main.rs:187-189 | the inspection count of each monkey, in order |
| Day11Part1.TopTwoAreLargest | day-11/part-1/src/main.rs:187-193 | each of the two counts multiplied is at least every count left out |
| Day11Part1.TopTwoOrderIndependent | day-11/part-1/src/main.rs:187-193 | the answer does not depend on the order of the counts |
| Day11Part1.TopTwoOfDistinct | day-11/part-1/src/main.rs:187-193 | with two or more monkeys the answer is the product of the counts of two distinct monkeys |
| Day11Part1.ThrowItem | day-11/part-1/src/main.rs:140-180 | one pass of the `loop` leaves the array equal to `Throw` of its old contents |
| Day11Part1.TakeTurn | day-11/part-1/src/main.rs:139-181 | the `loop` leaves the array equal to the monkey's `Turn` |
| Day11Part1.PlayRound | day-11/part-1/src/main.rs:138-182 | the loop over the monkeys performs their turns in index order |
| Day11Part1.PlayRounds | day-11/part-1/src/main.rs:135-183 | the round loop leaves the array equal to `Rounds` of its old contents |
| Day11Part1.Solve | day-11/part-1/src/main.rs:129-201 | the answer is the product of the two largest counts after 20 rounds with the level divided by 3 |
| Day11Part2.Divisors | day-11/part-2/src/main.rs:129-132 | the test divisors of the monkeys, in order |
| Day11Part2.ProductNonZero | day-11/part-2/src/main.rs:129-132 | a product of non-zero divisors is not 0, so `% common_multiplicator` never panics |
| Day11Part2.FactorDividesProduct | day-11/part-2/src/main.rs:129-132 | every factor divides the product |
| Day11Part2.CommonMultipleDivisible | day-11/part-2/src/main.rs:129-132 | `common_multiplicator` is not 0 and every test divisor divides it |
| Day11Part2.ReducedCongruent | day-11/part-2/src/main.rs:166 | `w % common_multiplicator` is congruent to `w`, for negative `w` too |
| Day11Part2.WorryCongruent | day-11/part-2/src/main.rs:105-123 | `compute_worry_level` maps congruent levels to congruent levels, for `+` and `*` with any operands |
| Day11Part2.CongruentDivisibility | day-11/part-2/src/main.rs:166-172 | congruent levels pass or fail the same test for any divisor of the modulus, so the reduction keeps every test |
| Day11Part2.ThrowRelated | day-11/part-2/src/main.rs:137-172 | a reduced throw and an unbounded throw from states with the same counts and congruent items reach such states again |
| Day11Part2.TurnRelated | day-11/part-2/src/main.rs:136-173 | the same for a whole turn |
| Day11Part2.RoundPrefixRelated | day-11/part-2/src/main.rs:135-174 | the same for the turns of a round |
| Day11Part2.RoundsRelated | day-11/part-2/src/main.rs:134-175 | the same for any number of rounds |
| Day11Part2.ReductionKeepsCounts | day-11/part-2/src/main.rs:129-183 | after any number of rounds, the counts with reduced levels equal the counts on unbounded integers |
| Day11Part2.ThrowPassesReduced | day-11/part-2/src/main.rs:166-171 | every level a throw passes on is smaller in magnitude than `common_multiplicator` |
| Day11Part2.Solve | day-11/part-2/src/main.rs:126-188 | the answer is the product of the two largest counts after 10000 reduced rounds, and equals that of 10000 rounds on unbounded integers |
| Day12.CharHeight | day-12/src/main.rs:28-36 | `S` has height 0 and `E` height 25; any other character has a height exactly when it is not below `a`, and then it is its distance from `a` |
| Day12.ParseRow | day-12/src/main.rs:25-38 | a line parses exactly when each of its characters does, into one height per character |
| Day12.ParseRows | day-12/src/main.rs:22-40 | the map parses exactly when each line does, into one row per line |
| Day12.LastIn | day-12/src/main.rs:27-35 | the position the closure leaves for a character in one line is an occurrence with none after it, and none when the line has none |
| Day12.LastOccurrence | day-12/src/main.rs:19-42 | the value left in `start` or `end` is the last occurrence in row-major order, and none exactly when the character does not occur |
| Day12.ParsedEnds | day-12/src/main.rs:18-43 | a parsed map has the shape of the lines, with height 0 at the start and 25 at the end |
| Day12.ParseMapFails | day-12/src/main.rs:36-42 | parsing fails exactly when a character lies below `a` (the subtraction panics) or `S` or `E` is missing (`unwrap` panics) |
| Day12.Walkable | day-12/src/main.rs:45-82 | at most four positions, and exactly the grid neighbours of `p` from which a climber may step up to `p` |
| Day12.PopIndex | day-12/src/main.rs:96-106 | the reversed `Ord` makes the heap pop a state of smallest distance |
| Day12.NotSelfWalkable | day-12/src/main.rs:45-82 | no position is among its own walkable neighbours |
| Day12.ImproveKeepsInv | day-12/src/main.rs:142-156 | storing distance `low + 1` with `previous` the visited position for a neighbour with no entry or a larger one, and pushing its state, keeps every entry linked towards the end and every unvisited entry in the heap |
| Day12.ImproveKeepsRelaxed | day-12/src/main.rs:142-156 | lowering the entry of an unvisited position keeps every visited position relaxed |
| Day12.RelaxStep | day-12/src/main.rs:137-156 | both branches of one inner iteration keep the inner loop's invariant with the neighbour done |
| Day12.RelaxedAll | day-12/src/main.rs:136-157 | once all neighbours of the visited position are done, the algorithm's invariant holds again |
| Day12.RelaxOne | day-12/src/main.rs:137-156 | one iteration of the inner `for` loop keeps its invariant |
| Day12.Expand | day-12/src/main.rs:135-157 | after the inner loop every neighbour of the visited position has an entry at most one larger; no entry is removed or grows and visited entries stay as they were |
| Day12.RemoveKeeps | day-12/src/main.rs:129 | popping one state keeps all the others in the heap |
| Day12.PopKeepsInv | day-12/src/main.rs:129-133 | the popped distance never falls; a popped state of a visited position is skipped with the invariant kept, and one of a new position carries its exact distance |
| Day12.Dijkstra | day-12/src/main.rs:112-158 | on return the end has distance 0 and no `previous`; every other entry links to a walkable position of smaller distance; every position walkable from an entry has an entry at most one larger |
| Day12.ChainFrom | day-12/src/main.rs:162-168 | following `previous` from an entry is a climber's route to the end, no longer than its distance, along which the distances strictly fall |
| Day12.RouteBound | day-12/src/main.rs:128-158 | along any climber's route to the end every position has an entry no larger than the steps left |
| Day12.DistancesAreShortest | day-12/src/main.rs:112-158 | a position has an entry exactly when it lies in the grid and a climber there can reach the end; its distance is the fewest steps |
| Day12.Arrow | day-12/src/main.rs:174-183 | one of `v^<>`, none exactly when neither the rows nor the columns differ by one, and for a neighbour the arrow that points at it |
| Day12.LinksUnique | day-12/src/main.rs:162-168 | the only sequence that follows the links from a position to the end is `ChainFrom` |
| Day12.ChainLinks | day-12/src/main.rs:162-168 | `ChainFrom` follows the links to the end |
| Day12.LinksDistinct | day-12/src/main.rs:162-168 | the positions met along the links are pairwise different and each step joins neighbours |
| Day12.DrawnContents | day-12/src/main.rs:160-186 | the drawing holds exactly the positions met, the arrow towards the next one at each, and `E` at the end |
| Day12.DrawOne | day-12/src/main.rs:163-184 | one iteration moves to `previous`, stops after the end, and draws `E` at the end or the arrow elsewhere |
| Day12.DrawPath | day-12/src/main.rs:160-186 | panics exactly when the start has no entry; otherwise the drawing covers the positions from the start to the end, `E` at the end and the arrow towards the next position at the others |
| Day12.ZerosInRow | day-12/src/main.rs:215-219 | exactly the positions of the row whose height is 0 |
| Day12.ZeroCells | day-12/src/main.rs:211-221 | exactly the positions of the map whose height is 0 |
| Day12.MinDistance | day-12/src/main.rs:223-228 | none exactly when no position has an entry (`unwrap` panics); otherwise a distance some position has and no larger than any other |
| Day12.LowestIsShortest | day-12/src/main.rs:210-228 | the smallest entry over the height-0 positions is the fewest steps from any of them to the end |
| Day12.Solve | day-12/src/main.rs:109-233 | part 1 exists exactly when the start can reach the end and is the fewest steps; part 2 then exists and is the fewest steps from any height-0 position; both are none when parsing panics |
| Day13.ParseI64 | day-13/src/main.rs:46 | a number is read only when it is an optional sign and one or more digits whose value fits in 64 bits |
| Day13.ParseShowInt | day-13/src/main.rs:46 | every 64-bit integer printed in decimal reads back as itself |
| Day13.Close | day-13/src/main.rs:25-34 | the depth scan stops just past a `]` that brings the depth to zero, and fails when the characters run out first |
| Day13.NumberEnd | day-13/src/main.rs:41-44 | the number scan stops at the first comma at or after its start, or at the end |
| Day13.CloseShow | day-13/src/main.rs:25-34 | the depth scan steps over any printed value: its brackets balance |
| Day13.ParseShow | day-13/src/main.rs:15-52 | `parse_list` reads every printed list of 64-bit numbers back as that list |
| Day13.ParseEmpty | day-13/src/main.rs:16-22 | `[]` is the empty list |
| Day13.ParseList | day-13/src/main.rs:15-52 | the loop with its depth counter and recursive calls returns what `Parse` does, `None` on every panic |
| Day13.MatchBracket | day-13/src/main.rs:25-34 | the inner loop finds the index just past the matching bracket, or panics past the end |
| Day13.ScanNumber | day-13/src/main.rs:41-44 | the inner loop finds the end of a number |
| Day13.Promote | day-13/src/main.rs:59-69 | a number meeting a list becomes a one-element list, the other side unchanged |
| Day13.Irreflexive | day-13/src/main.rs:54-81 | no packet comes before itself |
| Day13.Asymmetric | day-13/src/main.rs:54-81 | two packets never both come before each other |
| Day13.PrefixFirst | day-13/src/main.rs:57-78 | a list comes before a longer list that starts with it, and not before itself |
| Day13.PairScore | day-13/src/main.rs:97-102 | a pair counts its 1-based number when its packets are in order and 0 otherwise; it fails when a packet does not parse |
| Day13.SwappedScores | day-13/src/main.rs:91-107 | swapping the packets of every pair, the two sums together stay within `1 + ... + n`: no pair counts both ways |
| Day13.SolvePart1 | day-13/src/main.rs:86-107 | the loop sums the pair scores; a missing line or a bad packet is a panic, so only inputs of `3k + 2` lines give an answer |
| Day13.Packets | day-13/src/main.rs:111-118 | the packets are the non-empty lines with every copy kept, then `[[2]]` and `[[6]]` |
| Day13.LastPosition | day-13/src/main.rs:133-141 | the 1-based position of the last copy of a packet, 0 when absent |
| Day13.DecoderKey | day-13/src/main.rs:133-143 | the loop multiplies the positions of the last `[[2]]` and the last `[[6]]` |
| Day13.DividersCompare | day-13/src/main.rs:120-128 | `[[2]]` comes before `[[6]]` |
| Day13.DividersOrdered | day-13/src/main.rs:117-141 | after the sort both dividers are present and `[[2]]` lies before `[[6]]` |
| Day13.SolvePart2 | day-13/src/main.rs:111-143 | a packet that does not parse makes the answer fail; otherwise the answer is the product of the two divider positions, the first smaller than the second |
| Day14Part1.Points | day-14/part-1/src/main.rs:43-45 | every point of every path appears, and nothing else |
| Day14Part1.MinX | day-14/part-1/src/main.rs:43 | the result is the x of some point and no point has a smaller x |
| Day14Part1.MaxX | day-14/part-1/src/main.rs:44 | the result is the x of some point and no point has a larger x |
| Day14Part1.MaxY | day-14/part-1/src/main.rs:45 | the result is the y of some point and no point has a larger y |
| Day14Part1.BoundsOf | day-14/part-1/src/main.rs:43-45 | no bounds exactly when there is no point (the `unwrap` panics); otherwise every point lies within the bounds |
| Day14Part1.BoundsHoldPoints | day-14/part-1/src/main.rs:43-55 | with no negative y the grid has at least one cell and holds every point |
| Day14Part1.Put | day-14/part-1/src/main.rs:120-124 | writing one cell changes that cell and no other |
| Day14Part1.NewMap | day-14/part-1/src/main.rs:54-62 | a fresh array of `max_y + 1` rows of `max_x - min_x + 1` cells, all `.` |
| Day14Part1.DrawSegment | day-14/part-1/src/main.rs:66-84 | exactly the cells of the segment become `#`: a vertical line when the x agree, else a horizontal line on the first point's row, both ends included in either order |
| Day14Part1.DrawPath | day-14/part-1/src/main.rs:66-84 | exactly the cells on some segment between consecutive points become `#` |
| Day14Part1.DrawPaths | day-14/part-1/src/main.rs:64-85 | exactly the rock cells of all paths become `#`, every other cell keeps its value |
| Day14Part1.RockGrid | day-14/part-1/src/main.rs:53-85 | the grid holds `#` on rock and `.` elsewhere |
| Day14Part1.RockMap | day-14/part-1/src/main.rs:53-85 | the array built holds the rock grid |
| Day14Part1.TargetFrom | day-14/part-1/src/main.rs:90-114 | the result is the first of down, down-left, down-right that is off the grid or `.`, and nothing when all three are blocked |
| Day14Part1.FindTarget | day-14/part-1/src/main.rs:102-114 | the `find_map` loop returns that first neighbour |
| Day14Part1.Write | day-14/part-1/src/main.rs:120-124 | one array write updates the grid held by the array at one cell |
| Day14Part1.Iterate | day-14/part-1/src/main.rs:95-127 | one pass of the loop: spawn a grain, stop when the target is off the grid, panic when writing off the grid, else move or come to rest |
| Day14Part1.Simulate | day-14/part-1/src/main.rs:92-131 | the loop gives the answer of the specification run |
| Day14Part1.Solve | day-14/part-1/src/main.rs:42-131 | the program's answer is that of the specification run on the rock grid |
| Day14Part1.RunStep | day-14/part-1/src/main.rs:94-131 | one more iteration of a running loop is one tick |
| Day14Part1.RunSettled | day-14/part-1/src/main.rs:94-131 | once the loop has stopped, running longer gives the same outcome |
| Day14Part1.TickCells | day-14/part-1/src/main.rs:115-127 | a moving grain goes one row down to its target, clears its old cell to `.` and marks the new one `+`; a grain with all three neighbours blocked becomes `o` and the count grows by one; no other cell changes |
| Day14Part1.TickKeepsRock | day-14/part-1/src/main.rs:120-124 | a tick keeps the falling grain on a `+` cell and every rock cell other than the spawn point rock |
| Day14Part1.RunKeepsRock | day-14/part-1/src/main.rs:94-131 | however long the loop runs, rock other than at the spawn point stays rock |
| Day14Part1.WallAnswer | day-14/part-1/src/main.rs:47-49 | with the corrected bound check the wall input answers 0 |
| Day14Part1.AsWrittenOverrunsRow | day-14/part-1/src/main.rs:47-49 | with the check as written the wall input reaches a position that passes the check but lies past the end of its row |
| Day14Part2.SegmentCells | day-14/part-2/src/main.rs:57-69 | the cells inserted for one segment are exactly those on it |
| Day14Part2.PathCells | day-14/part-2/src/main.rs:52-70 | the cells of a path are exactly those on one of its segments |
| Day14Part2.RockCells | day-14/part-2/src/main.rs:50-71 | the cells of the paths are exactly the rock cells |
| Day14Part2.RockMap | day-14/part-2/src/main.rs:50-71 | the map holds `#` exactly on rock and has no other key |
| Day14Part2.DrawSegment | day-14/part-2/src/main.rs:57-69 | inserting a segment adds `#` on exactly its cells, both ends included in either order, and keeps every other entry |
| Day14Part2.DrawPaths | day-14/part-2/src/main.rs:50-71 | the map built is the rock map |
| Day14Part2.Floor | day-14/part-2/src/main.rs:46 | the floor is two rows below the largest y, and missing when there is no point |
| Day14Part2.TargetFrom | day-14/part-2/src/main.rs:84-96 | the result is the first of down, down-left, down-right that is above the floor and free, a missing entry counting as air; nothing when all three are blocked |
| Day14Part2.FindTarget | day-14/part-2/src/main.rs:84-96 | the `find_map` loop returns that first neighbour |
| Day14Part2.Simulate | day-14/part-2/src/main.rs:74-113 | the loop gives the answer of the specification run |
| Day14Part2.Solve | day-14/part-2/src/main.rs:30-113 | the program's answer is that of the specification run on the rock map |
| Day14Part2.RunStep | day-14/part-2/src/main.rs:76-113 | one more iteration of a running loop is one tick |
| Day14Part2.Resting | day-14/part-2/src/main.rs:101-105 | the resting set holds exactly the `o` cells |
| Day14Part2.TickCells | day-14/part-2/src/main.rs:84-111 | a moving grain goes one row down, above the floor, clearing its old cell to `.` and marking the new one `+`; a blocked grain becomes `o`, the count grows by one, and the program stops exactly when this happens at (500, 0); no other cell changes |
| Day14Part2.MoveKeepsResting | day-14/part-2/src/main.rs:97-98 | a move keeps the set of `o` cells |
| Day14Part2.RestAddsOne | day-14/part-2/src/main.rs:102-104 | coming to rest adds exactly one `o` cell |
| Day14Part2.StartInv | day-14/part-2/src/main.rs:48-75 | a map of rock alone satisfies the loop invariant |
| Day14Part2.TickKeepsInv | day-14/part-2/src/main.rs:76-112 | each tick keeps the count equal to the number of `o` cells, the falling grain on a `+` cell, and all sand above the floor; or it stops with the last grain at (500, 0) |
| Day14Part2.RunKeepsInv | day-14/part-2/src/main.rs:76-113 | the same holds after any number of iterations |
| Day14Part2.AnswerCountsResting | day-14/part-2/src/main.rs:101-111 | an answer is the number of `o` cells on the final map, the grain at (500, 0) included |
| Day14Part2.RunSettled | day-14/part-2/src/main.rs:76-113 | once the loop has stopped, running longer gives the same outcome |
| Day15Part1.SensorMap | day-15/part-1/src/main.rs:24-43 | the sensors are exactly the sensor positions of the reports |
| Day15Part1.LastOf | day-15/part-1/src/main.rs:37-43 | the index names a report of the sensor and no later report names it |
| Day15Part1.LastReportWins | day-15/part-1/src/main.rs:35-43 | a position is a sensor exactly when some report names it, and its radius is the Manhattan distance of its last report (a later insert replaces an earlier one) |
| Day15Part1.Collect | day-15/part-1/src/main.rs:24-49 | the input loop builds that sensor map and the set of every beacon |
| Day15Part1.FoldRowCounts | day-15/part-1/src/main.rs:59-81 | the fold adds the number of positions of its stretch of the row that a sensor covers and that hold no beacon |
| Day15Part1.MinX | day-15/part-1/src/main.rs:51-57 | the result is the x of some sensor or beacon and none has a smaller x |
| Day15Part1.MaxX | day-15/part-1/src/main.rs:51-57 | the result is the x of some sensor or beacon and none has a larger x |
| Day15Part1.Part1Counts | day-15/part-1/src/main.rs:51-81 | the answer is the number of covered positions without a beacon on row 2000000 with x from `min_x - 10000000` to `max_x + 1000000` |
| Day15Part1.Solve | day-15/part-1/src/main.rs:19-83 | the program's answer is that count; nothing when there is no report |
| Day15Part1.ReachLo | day-15/part-1/src/main.rs:72 | no sensor reaches left of the result |
| Day15Part1.ReachHi | day-15/part-1/src/main.rs:72 | no sensor reaches right of the result |
| Day15Part1.CorrectedCountsWholeRow | day-15/part-1/src/main.rs:72-81 | every counted position of the row lies within the sensors' reach, so the corrected count is the number of all of them |
| Day15Part1.ScanMissesCoveredPosition | day-15/part-1/src/main.rs:72 | a covered position without a beacon lies past `max_x + 1000000` and is left out of the count |
| Day15Part2.CandidatesOnRing | day-15/part-2/src/main.rs:67-93 | each of the four positions tried at a step lies exactly `radius + 1` away from the sensor |
| Day15Part2.RingIsCandidates | day-15/part-2/src/main.rs:70-93 | every position at that distance is tried at some step |
| Day15Part2.FirstUncovered | day-15/part-2/src/main.rs:95-113 | nothing exactly when all are covered; otherwise an uncovered one of them |
| Day15Part2.ScanFrom | day-15/part-2/src/main.rs:53-113 | a find is uncovered and on the ring; no find means every tried position is covered, off the square counting as covered |
| Day15Part2.ScanNoneCoversRing | day-15/part-2/src/main.rs:67-113 | a scan without a find leaves no uncovered position on the ring |
| Day15Part2.UncoveredNeighbourOnRing | day-15/part-2/src/main.rs:67-68 | an uncovered position next to a position in range of a sensor lies on that sensor's ring |
| Day15Part2.ScanSensor | day-15/part-2/src/main.rs:68-114 | the loop over `x1` with its `break` returns the scan's find |
| Day15Part2.LastFind | day-15/part-2/src/main.rs:95-113 | a result is the find of one of the scans |
| Day15Part2.LastFindNone | day-15/part-2/src/main.rs:51-115 | nothing is found exactly when no scan finds anything |
| Day15Part2.LastFindIsLast | day-15/part-2/src/main.rs:67-115 | the result is the find of the last sensor whose scan finds something |
| Day15Part2.SearchFindIsUncovered | day-15/part-2/src/main.rs:53-115 | a find lies in the square, out of every sensor's range, on no beacon, and one past some sensor's radius |
| Day15Part2.SearchNoneMeansNoBorderGap | day-15/part-2/src/main.rs:67-115 | when nothing is found, no uncovered position of the square touches a position in any sensor's range |
| Day15Part2.FindBeacon | day-15/part-2/src/main.rs:67-115 | the outer loop gives the search's result |
| Day15Part2.FrequencyDecodes | day-15/part-2/src/main.rs:118 | the frequency gives back x and y for a y below 4000000 |
| Day15Part2.Solve | day-15/part-2/src/main.rs:18-120 | the program's answer is the frequency of the find; nothing where `unwrap` panics |
| Day18.NeighbourIsAdjacent | day-18/src/main.rs:32-48 | each of the six directions leads to a position sharing a face |
| Day18.DirectionOf | day-18/src/main.rs:32-39 | every position sharing a face is one of the six neighbours |
| Day18.LavaMap | day-18/src/main.rs:26-30 | the keys are exactly the input cubes, all lava |
| Day18.Load | day-18/src/main.rs:26-30 | the input loop builds that map |
| Day18.FaceCount | day-18/src/main.rs:43-52 | a cube has at most one counted face per direction |
| Day18.FaceCountNone | day-18/src/main.rs:106-119 | a cube none of whose directions counts adds no face |
| Day18.FaceCountLe | day-18/src/main.rs:43-52 | a rule that takes fewer of a cube's directions counts no more of its faces |
| Day18.TotalRemove | day-18/src/main.rs:42-53 | the total over the cubes is the same whichever cube is taken first, so the map's iteration order does not matter |
| Day18.TotalBound | day-18/src/main.rs:42-53 | at most six counted faces per cube |
| Day18.TotalLe | day-18/src/main.rs:105-120 | a cube-by-cube comparison of counts carries over to the totals |
| Day18.TotalIgnoresZero | day-18/src/main.rs:106-109 | keys without counted faces (the air) add nothing |
| Day18.CountAt | day-18/src/main.rs:43-52 | the inner loop counts the directions whose neighbour the rule takes |
| Day18.CountFaces | day-18/src/main.rs:42-53 | the loop over all keys gives the total, in any iteration order |
| Day18.Part1Bound | day-18/src/main.rs:41-53 | part 1 is at most six times the number of distinct cubes |
| Day18.Lowest | day-18/src/main.rs:58-63 | the result is the least coordinate of some cube and no coordinate is smaller |
| Day18.Highest | day-18/src/main.rs:64-69 | the result is the greatest coordinate of some cube and no coordinate is larger |
| Day18.BoxCells | day-18/src/main.rs:90-98 | the set holds exactly the positions inside the box |
| Day18.BoxSurroundsCubes | day-18/src/main.rs:58-69 | the box from `min - 1` to `max + 1` holds every cube strictly inside, and its corner is no cube |
| Day18.ExtendWalk | day-18/src/main.rs:84-101 | a free box cell next to a reachable cell is reachable |
| Day18.Pushed | day-18/src/main.rs:84-101 | every pushed cell is in the box, not yet a key and next to the popped cell; every such neighbour is pushed |
| Day18.PushNeighbours | day-18/src/main.rs:84-101 | the inner loop appends those cells in direction order |
| Day18.PopKeeps | day-18/src/main.rs:79 | popping the last cell keeps every other queued cell queued |
| Day18.SkipKeepsInv | day-18/src/main.rs:79-82 | skipping a cell that is already a key keeps the fill invariant |
| Day18.PushedQueuesBox | day-18/src/main.rs:90-101 | only box cells that the corner reaches are queued |
| Day18.AddSpreads | day-18/src/main.rs:83-101 | after a pass, every in-box neighbour of air is a key or queued |
| Day18.AddKeepsInv | day-18/src/main.rs:79-101 | a pass that adds air keeps the fill invariant: lava stays lava, air is reachable and in the box |
| Day18.FillShrinksBox | day-18/src/main.rs:83 | adding air leaves one free box cell fewer |
| Day18.FillStep | day-18/src/main.rs:78-102 | one pass keeps the invariant and shrinks either the free part of the box or the queue, so the loop ends |
| Day18.FloodFill | day-18/src/main.rs:72-103 | the fill ends with the invariant and an empty queue |
| Day18.WalkIsFilled | day-18/src/main.rs:72-103 | every cell on a walk from the corner through free box cells ends as a key |
| Day18.FillIsExterior | day-18/src/main.rs:72-103 | the finished fill is the input map plus exactly the box cells the corner reaches, as outside air |
| Day18.ExteriorFace | day-18/src/main.rs:105-120 | a face counts for part 2 exactly when it belongs to a cube and its neighbour is no cube and is reached from the corner |
| Day18.Part2AtMostPart1 | day-18/src/main.rs:105-120 | part 2 is at most part 1 |
| Day18.Solve | day-18/src/main.rs:25-122 | the program prints the total of open faces and the total of exterior faces; part 2 is missing where `unwrap` finds no cube |
| Day16Part1.CacheKeyRoundTrip | day-16/part-1/src/main.rs:54-75 | the key can be read back into the action (its `o`/`g` tag and name), the time field `minutes_left - 1` and the sorted opened names |
| Day16Part1.CacheKeyInjective | day-16/part-1/src/main.rs:54-75 | equal keys come from the same action (so `Open(v)` and `GoTo(v)` never collide), the same minutes and the same multiset of opened names |
| Day16Part1.CacheKeyOrderIndependent | day-16/part-1/src/main.rs:59-64 | two duplicate-free listings of the same opened set give the same key |
| Day16Part1.JoinRoundTrip | day-16/part-1/src/main.rs:59-64 | splitting the comma-joined names at the commas gives the names back |
| Day16Part1.IntToStringRoundTrip | day-16/part-1/src/main.rs:65-73 | the printed time field reads back as the same integer |
| Day16Part1.StrLeTotalOrder | day-16/part-1/src/main.rs:59-63 | the string order used by the sort is a total order |
| Day16Part1.FoldGoToDefined | day-16/part-1/src/main.rs:117-145 | the loop over the tunnels panics exactly when the search of one of its tunnels panics, whatever the best so far |
| Day16Part1.FoldGoToStep | day-16/part-1/src/main.rs:117-158 | one pass of the loop over the tunnels panics when that tunnel's search does and otherwise goes on with the strictly better of the tunnel and the best so far |
| Day16Part1.FoldGoToPicks | day-16/part-1/src/main.rs:114-158 | when no tunnel's search panics, the loop over the tunnels is the choice rule "replace only on a strictly greater total" applied to the tunnel results in listing order |
| Day16Part1.PickFirstBestIsFirstMaximum | day-16/part-1/src/main.rs:147-149 | the choice rule returns the start value or the first entry with the largest total above it, and no entry exceeds it |
| Day16Part1.BestChildPicks | day-16/part-1/src/main.rs:114-197 | when no child panics, the best child is the choice rule over the tunnels in order, then over opening the valve when its rate is non-zero and it is closed |
| Day16Part1.MissingTunnelPanics | day-16/part-1/src/main.rs:117-123 | a move whose valve lists a tunnel to a valve missing from the table panics, as the `find(...).unwrap()` does |
| Day16Part1.WellFormedNeverPanics | day-16/part-1/src/main.rs:117-123 | on a table where every tunnel leads to a listed valve, the search of a listed valve never panics |
| Day16Part1.BestChoosesFirstMaximum | day-16/part-1/src/main.rs:77-210 | when the search does not panic, the valve is listed, no child panics, and the result is the move's own pressure plus the first maximal child total above -1 (or -1 when there is none), and the path is the move's `O`/`G` tag followed by that child's path |
| Day16Part1.ChoiceOutcome | day-16/part-1/src/main.rs:199-210 | adding the own pressure and prefixing the tag to the chosen child gives the result the search returns |
| Day16Part1.KeyOfInjective | day-16/part-1/src/main.rs:54-75 | two calls under the same key have the same action, the same minutes and the same set of opened valves, so they have the same result |
| Day16Part1.KeyNotAmongLonger | day-16/part-1/src/main.rs:227-229 | a call's key is not the key of any running call with more minutes left |
| Day16Part1.OpenKeyListsValve | day-16/part-1/src/main.rs:160-170 | a key shaped like an `Open(v)` key belongs only to a call whose opened list contains `v` |
| Day16Part1.OpenEntryParent | day-16/part-1/src/main.rs:160-183 | a stored call with the key of opening the current valve was explored from a call with the current call's key |
| Day16Part1.OpenLookupMisses | day-16/part-1/src/main.rs:160-170 | the cache lookup made before opening a closed valve never hits |
| Day16Part1.HitIsBest | day-16/part-1/src/main.rs:128-135 | a cache hit returns the result of the search for that call |
| Day16Part1.StoreKeepsCache | day-16/part-1/src/main.rs:227-229 | storing a finished call's result under its key keeps every entry equal to the result of the call that stored it |
| Day16Part1.StoreKeepsParents | day-16/part-1/src/main.rs:227-229 | storing a finished call takes it off the running calls and keeps every stored `Open` call's parent known |
| Day16Part1.NewOpenedValid | day-16/part-1/src/main.rs:89-99 | opening a closed valve appends a new name, so the opened list stays free of duplicates |
| Day16Part1.NewOpenedSet | day-16/part-1/src/main.rs:89-99 | the opened list handed to the children is the caller's set plus the opened valve, and unchanged for a `GoTo` |
| Day16Part1.BestUnfold | day-16/part-1/src/main.rs:84-210 | the values the memoised body computes (own pressure `(minutes_left-1)*rate` for `Open`, 0 otherwise; best child; tag) make up the search result |
| Day16Part1.BestUnfoldNone | day-16/part-1/src/main.rs:114-197 | when a child panics the call panics too |
| Day16Part1.Explore | day-16/part-1/src/main.rs:124-145 | looking a child up and searching on a miss returns the child's search result (none when it panics), keeps the cache correct and stores only calls below the child |
| Day16Part1.VisitFound | day-16/part-1/src/main.rs:124-145 | exploring a tunnel to a listed valve returns the search of walking there and keeps the loop's invariant |
| Day16Part1.VisitTunnel | day-16/part-1/src/main.rs:117-145 | one pass of the tunnel loop returns none when the tunnel's valve is missing (the `unwrap` panic) and otherwise the tunnel move's search result; it advances the fold over the tunnels by that step and keeps the loop's invariant |
| Day16Part1.ExploreTunnels | day-16/part-1/src/main.rs:114-158 | the tunnel loop returns the fold over the tunnels (none as soon as a tunnel panics) and stores neither the current call nor the opening of its valve |
| Day16Part1.ExploreOpen | day-16/part-1/src/main.rs:160-197 | opening the current valve after the tunnels returns none when that search panics, and otherwise the better of it and the tunnels (strictly greater wins); the cache stays correct |
| Day16Part1.ChooseChild | day-16/part-1/src/main.rs:160-197 | the tunnel result combined with the open child gives the best child |
| Day16Part1.ExploreChildren | day-16/part-1/src/main.rs:114-197 | the children loop returns the best child (none when a child panics) and leaves the current key unstored |
| Day16Part1.Finish | day-16/part-1/src/main.rs:199-229 | the call's result is the search result and it is stored under the call's key, which was absent |
| Day16Part1.GetBestTotalForAction | day-16/part-1/src/main.rs:77-232 | returns `(0, "-")` with no minutes left and otherwise the search result, none where the source panics; the cache stays correct and gains entries only for calls below this one |
| Day16Part1.Search | day-16/part-1/src/main.rs:87-230 | the body with time left returns the search result and stores it, or none when a child panics |
| Day16Part1.Solve | day-16/part-1/src/main.rs:235-263 | a missing `AA` is an error; otherwise the answer is the search for walking to `AA` with 31 minutes and nothing opened, none when a tunnel reached leads to an unlisted valve |
| Day16Part2.InitialDistances | day-16/part-2/src/main.rs:121-137 | the matrix is square, non-negative and zero on the diagonal |
| Day16Part2.InitialDistancesEdges | day-16/part-2/src/main.rs:121-137 | an entry is 0 exactly on the diagonal, 1 exactly for a listed tunnel off the diagonal, and 1_000_000_000 otherwise |
| Day16Part2.RelaxVia | day-16/part-2/src/main.rs:42-52 | one round of relaxation through a middle valve sets each entry to the minimum of itself and the detour |
| Day16Part2.StagesNeverIncrease | day-16/part-2/src/main.rs:42-52 | relaxation only lowers or keeps an entry |
| Day16Part2.StagesKeepDiagonal | day-16/part-2/src/main.rs:42-52 | the diagonal stays 0 |
| Day16Part2.StagesNonNegative | day-16/part-2/src/main.rs:42-52 | the entries stay non-negative |
| Day16Part2.RelaxTriangle | day-16/part-2/src/main.rs:42-52 | after relaxing through valves `0..m` every entry is at most every detour through those valves |
| Day16Part2.StagesTriangle | day-16/part-2/src/main.rs:42-52 | after `i` rounds the triangle inequality holds through every middle valve below `i` |
| Day16Part2.ClosureProperties | day-16/part-2/src/main.rs:42-52 | after all rounds, `d[j][k] <= d[j][i] + d[i][k]` for all `i, j, k`, the diagonal is 0, the entries are non-negative and none exceeds its initial value |
| Day16Part2.FloydWarshall | day-16/part-2/src/main.rs:42-52 | the in-place triple loop leaves the matrix equal to the closure of its initial contents |
| Day16Part2.RelaxEntry | day-16/part-2/src/main.rs:47-49 | one inner step writes the minimum of the entry and the detour and keeps the rows already relaxed |
| Day16Part2.RelaxedHolds | day-16/part-2/src/main.rs:44-51 | after the two inner loops the matrix holds one more round of relaxation |
| Day16Part2.NonBrokenValves | day-16/part-2/src/main.rs:143-148 | exactly the indices whose rate is positive, in increasing order |
| Day16Part2.Rates | day-16/part-2/src/main.rs:154-158 | the rates in valve order |
| Day16Part2.Position | day-16/part-2/src/main.rs:151 | the first index named `AA`, or none when no valve is |
| Day16Part2.FindPermutations | day-16/part-2/src/main.rs:66-108 | appends exactly the records of `Enumerate`: this valve opened with `minutes * rate` added, recorded before its children, then each working unvisited valve reachable in time |
| Day16Part2.EnumerateOpens | day-16/part-2/src/main.rs:74-76 | every record contains the visited set and the current valve, and adds only working valves |
| Day16Part2.EnumerateScores | day-16/part-2/src/main.rs:78-107 | with non-negative rates every record scores at least the starting score |
| Day16Part2.EnumerateRecordsSelfFirst | day-16/part-2/src/main.rs:74-85 | the first record is the call's own prefix: the valve's bit set and its pressure added |
| Day16Part2.BestPair | day-16/part-2/src/main.rs:167-180 | returns the largest `score1 + score2` over ordered pairs `i != j` whose sets without the start valve are disjoint, or 0 |
| Day16Part2.BestPairUnique | day-16/part-2/src/main.rs:167-180 | the best pair total is determined by the records |
| Day16Part2.SearchContextValid | day-16/part-2/src/main.rs:154-158 | the context built in `main` has a square non-negative matrix and working valves in range |
| Day16Part2.NewMatrix | day-16/part-2/src/main.rs:121-137 | the fresh matrix holds the initial distances |
| Day16Part2.ShortestDistances | day-16/part-2/src/main.rs:121-141 | the distances are the closure of the initial matrix |
| Day16Part2.Solve | day-16/part-2/src/main.rs:117-185 | a missing `AA` is an error; otherwise the answer is the best disjoint pair among the routes from `AA` with 26 minutes, nothing opened and no pressure |
| Day17.Shape | day-17/src/main.rs:92-134 | the five shapes in the program's order, each with its height equal to its number of rows, a filled cell in its bottom row, and fitting between the walls when it appears at x = 2 |
| Day17.Map.constructor | day-17/src/main.rs:143-146 | the buffer starts with every one of its 131072 cells empty and no drawing recorded |
| Day17.Map.Set | day-17/src/main.rs:19-22 | writes the cell at index `y * 7 + x` and no other |
| Day17.PaintAt | day-17/src/main.rs:19-22 | setting a list of cells to a value changes exactly the cells of the list |
| Day17.RowCells | day-17/src/main.rs:42-47 | the cells one row of a shape sets are exactly its filled columns, offset by `(x, y)` |
| Day17.PieceCells | day-17/src/main.rs:39-49 | the cells `draw_piece` sets are exactly the filled cells of the shape, offset by `(x, y)` |
| Day17.Map.DrawPiece | day-17/src/main.rs:39-49 | forgets the previous drawing, sets exactly the shape's filled cells and records them as the new drawing |
| Day17.Map.DrawRow | day-17/src/main.rs:42-47 | one row of `draw_piece`: sets its filled cells and appends them to the recorded drawing |
| Day17.Map.ClearPreviousPiece | day-17/src/main.rs:51-57 | clears exactly the recorded cells and empties the record |
| Day17.Map.HasCollision | day-17/src/main.rs:59-74 | the answer is the collision predicate on the buffer |
| Day17.Map.RowCollision | day-17/src/main.rs:60-71 | one row of `has_collision`: some filled cell of the row is out of bounds or occupied |
| Day17.CollidesMeans | day-17/src/main.rs:59-74 | a shape collides exactly when one of its filled cells is outside the 7 by 18724 chamber or occupied |
| Day17.FloorCollides | day-17/src/main.rs:63-68 | a shape that does not collide lies at a non-negative row |
| Day17.FreeFits | day-17/src/main.rs:63-64 | a shape that does not collide lies between the two walls |
| Day17.Map.GetRow | day-17/src/main.rs:76-82 | the row holds seven characters, `#` for an occupied cell and `.` for an empty one |
| Day17.PushRock | day-17/src/main.rs:167-171 | clears the drawing, then moves the rock by the jet's push exactly when it does not collide there |
| Day17.FallStep | day-17/src/main.rs:166-216 | one iteration of the inner loop: a rock that moves ends one row lower, drawn at its new place, with the next jet |
| Day17.Descend | day-17/src/main.rs:172-216 | after the push: draw, clear, then land or move one row lower |
| Day17.Land | day-17/src/main.rs:177-216 | the rock rests where it is when one row lower collides, else it is drawn one row lower |
| Day17.StepSettles | day-17/src/main.rs:177-180 | an iteration that ends at rest leaves the rock drawn where it was, records the jet it used, and one row lower collides |
| Day17.FallRests | day-17/src/main.rs:166-217 | a fall that ends rests at or below where it began, never below the floor, drawn in place, with one row lower colliding and the jet index advanced modulo the line length |
| Day17.Drop | day-17/src/main.rs:160-217 | a rock that appears at x = 2 and row `y` rests at or below `y`, drawn in place, with the next jet one past the last used modulo the line length |
| Day17.DropLands | day-17/src/main.rs:166-217 | where the rock rests, one row lower collides |
| Day17.FallOnce | day-17/src/main.rs:167-216 | the buffer operations of one iteration give the iteration of `FallStep` |
| Day17.Lower | day-17/src/main.rs:172-216 | the buffer operations after the push give `Descend` |
| Day17.Alight | day-17/src/main.rs:177-216 | the buffer operations of the downward test give `Land` |
| Day17.Settle | day-17/src/main.rs:166-217 | the inner loop gives the fall of `Fall`, and `highest_non_moving` afterwards is the larger of its old value and the top of the resting rock |
| Day17.DropRock | day-17/src/main.rs:160-217 | spawning and the inner loop give `Drop`, and the new `highest_non_moving` bounds the resting rock |
| Day17.StepKeeps | day-17/src/main.rs:166-216 | an iteration adds no occupied cell but the rock's, and keeps the rock between the walls |
| Day17.DescendKeeps | day-17/src/main.rs:172-216 | the second half of an iteration adds no occupied cell but the rock's |
| Day17.FallKeeps | day-17/src/main.rs:166-217 | a whole fall adds no occupied cell but those of the rock where it rests |
| Day17.DropKeeps | day-17/src/main.rs:160-217 | dropping a rock adds no occupied cell but those of the rock where it rests, between the walls |
| Day17.LandingBelow | day-17/src/main.rs:180 | when every occupied cell was below `highest_non_moving`, it still is below the new value once the rock rests |
| Day17.CyclesAsWritten | day-17/src/main.rs:201 | the cycles skipped as written keep `n` at most one trillion before the `n += 1` |
| Day17.AsWrittenOvershoots | day-17/src/main.rs:201-219 | a cycle of five rocks found at rock 999999999995 makes the loop count one rock more than one trillion |
| Day17.Cycles | day-17/src/main.rs:201-202 | the most whole cycles that leave one trillion rocks or fewer counted after the `n += 1` |
| Day17.Track | day-17/src/main.rs:188-209 | the cycle bookkeeping: a second sighting records the first cycle, a third records the last and skips whole cycles; `n` stays below one trillion |
| Day17.TrackKeeps | day-17/src/main.rs:188-209 | the skip raises `highest_non_moving` by exactly the skipped height, never lowers it, and the skipped height stays between 0 and `highest_non_moving` |
| Day17.Tally | day-17/src/main.rs:182-220 | counts the key of piece, last jet and top row, then ends the iteration: `n` grows and the piece index advances modulo 5 |
| Day17.Record | day-17/src/main.rs:180-220 | the bookkeeping after a rock rests keeps its buffer, takes the next jet and advances the piece index modulo 5 |
| Day17.RecordKeeps | day-17/src/main.rs:180-220 | the bookkeeping keeps the tower invariant and never lowers `highest_non_moving` |
| Day17.DropBelow | day-17/src/main.rs:160-217 | after a rock rests, every occupied cell is below the larger of `highest_non_moving` and the rock's top |
| Day17.TurnRecords | day-17/src/main.rs:160-164 | each rock appears three rows above `highest_non_moving`, then the bookkeeping follows its fall |
| Day17.Turn | day-17/src/main.rs:159-220 | one iteration of the outer loop: the piece index advances modulo 5 and `n` grows without passing one trillion |
| Day17.TurnKeeps | day-17/src/main.rs:159-220 | an iteration keeps every occupied cell below `highest_non_moving`, never lowers it, and raises `n` |
| Day17.Towers | day-17/src/main.rs:159-221 | the state after `k` iterations of the outer loop |
| Day17.TowersKeep | day-17/src/main.rs:159-221 | after any number of iterations every occupied cell lies below `highest_non_moving`, less the skipped height |
| Day17.TowersGrowStep | day-17/src/main.rs:159-221 | neither `n` nor `highest_non_moving` ever decreases from one iteration to the next |
| Day17.PlaceRock | day-17/src/main.rs:159-220 | one pass of the outer loop on the buffer gives `Turn` |
| Day17.Simulate | day-17/src/main.rs:136-223 | the program panics exactly when `Towers` does; otherwise it answers `highest_non_moving` once `n` reaches one trillion, and that height bounds every occupied cell |
| Day19Part1.MakeContext | day-19/part-1/src/main.rs:142-156 | the largest ore cost is one of the four robots' ore costs and no smaller than any of them; the clay and obsidian caps are the obsidian robot's clay cost and the geode robot's obsidian cost |
| Day19Part1.Build | day-19/part-1/src/main.rs:71-117 | building a robot never changes the geodes already opened and never loses a geode robot |
| Day19Part1.RunCons | day-19/part-1/src/main.rs:63-125 | a schedule is run one minute at a time: its first action from the start, the rest from the state after it |
| Day19Part1.BestIsMax | day-19/part-1/src/main.rs:43-130 | no schedule of affordable actions opens more geodes than `Best`, the unpruned search over every action in every minute |
| Day19Part1.BestPlan | day-19/part-1/src/main.rs:43-130 | `Best` is reached: some schedule of that many minutes opens exactly `Best` geodes |
| Day19Part1.Go | day-19/part-1/src/main.rs:43-130 | `go` never returns fewer geodes than it starts with |
| Day19Part1.GoPlan | day-19/part-1/src/main.rs:43-130 | what `go` returns is the geodes of one real schedule of affordable actions of that many minutes: the obsidian robot ends the minute's search and only a geode robot competes with it |
| Day19Part1.GoWithinBest | day-19/part-1/src/main.rs:43-130 | the pruned search never claims more geodes than the unpruned reference |
| Day19Part1.Quality | day-19/part-1/src/main.rs:158-172 | the geodes found for a blueprint from one ore robot in 24 minutes are never negative |
| Day19Part1.QualityWithinBest | day-19/part-1/src/main.rs:158-172 | those geodes are at most the most any 24-minute schedule opens |
| Day19Part1.Contributions | day-19/part-1/src/main.rs:174 | each blueprint contributes its id times its geodes |
| Day19Part1.TotalIsSum | day-19/part-1/src/main.rs:139-182 | the loop's total is the sum of the blueprints' contributions |
| Day19Part2.Child | day-19/part-2/src/main.rs:67-159 | every branch passes down the resources after the minute's mining and the purchase; a geode robot keeps the flags, another robot clears them, and waiting forbids exactly the robots just tried |
| Day19Part2.Go | day-19/part-2/src/main.rs:46-162 | `go` never returns fewer geodes than it starts with |
| Day19Part2.GoPlan | day-19/part-2/src/main.rs:46-162 | what `go` returns is the geodes of one real schedule of that many minutes, and that schedule obeys the pruning at every step: a geode robot whenever affordable, no robot the flags forbid, no robot of a kind already at its cap, no clay robot in the last two minutes |
| Day19Part2.GoWithinBest | day-19/part-2/src/main.rs:46-162 | the pruned search never claims more geodes than the unpruned reference of part 1 |
| Day19Part2.WaitForbidsTried | day-19/part-2/src/main.rs:149-159 | in a pruned schedule, a robot tried in a minute that ends with a wait is not built in the next minute |
| Day19Part2.PrunedCaps | day-19/part-2/src/main.rs:83-133 | a pruned schedule from a start within the caps ends with no more ore, clay or obsidian robots than the caps |
| Day19Part2.Quality | day-19/part-2/src/main.rs:188-207 | the geodes found for a blueprint from one ore robot in 32 minutes are never negative |
| Day19Part2.QualityWithinBest | day-19/part-2/src/main.rs:188-207 | those geodes are at most the most any 32-minute schedule opens |
| Day19Part2.MultiplyFrom | day-19/part-2/src/main.rs:171-218 | from any blueprint before the third, the loop multiplies its running total by the results up to the third |
| Day19Part2.FirstThreeProduct | day-19/part-2/src/main.rs:171-218 | the answer is the product of the first three blueprints' results, or of all of them when there are fewer |

## Left out

- Reading the puzzle input (`stdin_lines`, `sscanf!`, `parse_input`, `parse_monkeys`) and every `println!`: each model takes the parsed values as parameters.
- Fixed-width integer overflow: every model uses unbounded `int`. The programs' inputs keep their `i32`/`i64` values far from the limits.
- The libraries the programs call (`HashMap`, `HashSet`, `BinaryHeap`, `itertools`, `array_tool`) are modelled by Dafny maps, sets and sequences with the properties the programs rely on.
- Day01: the text is given as a list of lines, each blank or one number; `split("\n\n")` and `split_whitespace` become the grouping at blank lines.
- Day03Part1.RucksackValue and Day03Part2.Badge: `intersect` keeps the order of the first list; the model takes the first item of the first list found in the others, which is the same item. Lines are sequences of characters: `split_at` on a byte length, which panics inside a multi-byte character, is modelled as a split at half the number of characters, the same for ASCII lines.
- Day05: the diagram lines and the moves are given as parameters; the `sscanf!` of a move line is left out.
- Day05.FindNumberLine: requires a line whose second character is `1`, with every line before it at least two characters long. Without one the program panics at an `unwrap` (no more lines, or no second character); the model does not represent that panic.
- Day05.ParseStacks: requires at least one diagram line, which `stack_lines[0]` indexes, and every drawn crate in a stack counted from the first line (`ColumnsFit`), since `stacks[n]` is indexed otherwise out of bounds. Both failures are panics that the model does not represent.
- Day05.CrateMover9000: requires `Feasible`: both stack numbers exist and the source holds at least `amount` crates. Otherwise `pop().unwrap()`, `split_off` or the index panics; that panic is not represented.
- Day05.CrateMover9001: requires `Feasible` for the same reason; `split_off` panics when `amount` exceeds the stack's height.
- Day05.ApplyMoves: requires every move to be `Feasible` when it is made (`AllFeasible` on the part-2 stacks, which by `OneByOneFeasible` also covers part 1); the model does not represent the panic of an infeasible move.
- Day05.Tops: requires every stack to be non-empty; `last().unwrap()` panics on an empty stack and that panic is not represented.
- Day07Part01 and Day07Part02: `sscanf!` with `{} {}` and `i64` is modelled by `ParseFileLine`, which accepts an optional `-` sign and decimal digits; the `{}` of `$ cd {}` is read as a non-empty rest of line.
- Day07Part01.SumOfSmallDirectories: requires `StaysInside`: every `$ cd ..` finds at least two open levels. Otherwise `levels.pop()` leaves the stack empty and `last_mut().unwrap()` panics; the model does not represent that panic.
- Day07Part02.ReadSession: requires `Feasible`, built from `CanStep`: at each `$ cd ..` and file line, the directories the program looks up have entries. Otherwise `get(...).unwrap()` or `get_mut(...).unwrap()` panics, which is not represented. `CanStep` also asks for a non-empty path at `$ cd ..`; the program would only go on there with an entry under the empty key, which no session with non-empty `cd` names stores (`StepReachable`).
- Day07Part02.Unwind: requires `CanUnwind`: every directory closed by the final loop and its parent have entries, or the `unwrap` panics; that panic is not represented.
- Day07Part02.Solve: requires the session to be `Feasible` and `CanUnwind` as above, a non-empty path (`path.len() - 1` would underflow), an entry for `/` and some directory above the space to free; each failure is a panic that the model does not represent.
- Day07Part02Debug.SolveDebug: has the same requirements as `Day07Part02.Solve`, for the same reasons.
- Day07Part02Debug: the sorted listings of the directories (lines 94-110) only print and are left out.
- Day07Part02.Values: `HashMap` iteration order is not fixed; the contract states only which values appear, which is all the later sort depends on.
- Day08: the map must be rectangular; the program only needs every row to be at least as wide as the first.
- Day08.Solve: uses the corrected border count `BorderCount`, not the program's `2w + 2h - 4`. The two agree on every map of at least two rows and two columns (`BorderFormulaAsWritten`); on a single row or column the program's count is the one described under Findings.
- Day09Part01 and Day09Part02: the tracking of the head's extent (`min_x` … `max_y`) and the drawing of the visited cells only print and are left out. Part 2 declares its own copy of `normalize`; the model reuses the one of part 1.
- Day10Part1 and Day10Part2: the input lines are a sequence given as a parameter and a panic is a result (`None`, `panicked`). The `{} {}` pattern with a `String` and an `i64` is read as a non-empty word, the last space and an optionally signed run of digits. `draw_crt` and the `println!` traces only print and are left out.
- Day20Part1 and Day20Part2: a panic is a `None` answer. The model states that mixing keeps the items and where the moved item lands; it does not state the cyclic order of the other items. That reducing a shift modulo `len - 1` leaves the cyclic order unchanged is not proved. Part 2 declares its own copy of `mod_floor` and its test; the model reuses the one of part 1. The `println!` of the initial list is left out.
- Day11Part1 and Day11Part2: a monkey's unchanging fields (operation, divisor, targets) are a separate `Rule` sequence next to the array of items and counts. The monkey's `id` field of part 1 is only parsed and printed. The requirement that no monkey throws to itself stands for the `loop` that would otherwise never end; targets out of range and a zero divisor are panics the model excludes. `common_multiplicator` folds from 1 left to right; the model multiplies right to left, which gives the same product.
- Day13: the lines are a sequence given as a parameter and a panic is `None`. `sort_by` is a library sort: its result is a parameter, required to hold the same packets with no packet before one that precedes it. Whether such an order exists for every input depends on the packet order being transitive, which is not proved. Two packets that neither precedes, such as `[1]` and `[[1]]`, may come in either order, and Rust's newer sorts may panic on such a comparator; neither is modelled. The `println!` of the sorted packets is left out. The `depth` counter is an `i32` in the program and a `nat` here.
- Day14Part1 and Day14Part2: the paths are a parameter; the parsing of `x,y -> x,y` lines is left out. Neither loop is proved to end: each runs for at most `fuel` iterations, and an answer of `None` means a panic or an unfinished run. In part 1 the loop never ends once a grain rests at (500, 0), because every later grain rests there too. `draw_map`, the sleep and the `println!` calls only print and are left out.
- Day14Part1.Solve: requires every y to be non-negative. A negative y becomes a huge `usize` index in the program and panics; the model does not follow that path. The loop uses the corrected bound check (see Findings).
- Day15Part1 and Day15Part2: the reports are a parameter; the parsing of the `Sensor at x=…` lines is left out. Coordinates are unbounded integers: the programs' `i64` arithmetic does not overflow on positions of the puzzle's size. The commented-out map printing of part 1 is left out.
- Day15Part2.Solve: the hash map's iteration order is a parameter `order` that lists every sensor once; which find the program keeps depends on it.
- Day15Part2.FrequencyDecodes: holds for y below 4000000 only; at y = 4000000 the frequency of (x, 4000000) equals that of (x + 1, 0).
- Day18: the cubes are a parameter; the parsing of `x,y,z` lines is left out. Coordinates are unbounded integers rather than `i32`. The bounds are taken over the input list, whose elements are exactly the map's keys.
- Day21: the definitions are a parameter; the parsing of `name: …` lines is left out. Evaluation needs the definitions to be acyclic, which the program assumes (a cycle overflows its stack); the model asks for a ranking `rank` that shows it. A panic (`unreachable!`, division by zero, the `unwrap` of a missing `root`) is `None` or `Panic`. Numbers are unbounded integers rather than `i64`.
- Day21.SearchLoop: the search is not proved to end, and on some inputs it does not; it runs for at most `fuel` iterations and `Unfinished` says the fuel ran out. That the number found is the one the puzzle asks for is not stated; the model proves only that it balances `root`.
- Day12: the lines are a parameter; reading standard input and printing the drawn map and the answers are left out. The lines must be non-empty and of one width, as the program indexes `map[0]` and assumes a rectangle. A panic (a character below `a`, a missing `S` or `E`, an unreachable start, no reachable height-0 position) is `None`. Positions and distances are unbounded naturals rather than `usize`.
- Day12.PopIndex: `BinaryHeap` is a sequence and the pop takes the first state of smallest distance; between states of equal distance the program's heap may pick another, which changes which of several shortest links is stored but not any distance.
- Day12.RelaxOne: the two `if let` branches that insert a new entry are one condition, `no entry or a larger one`.
- Day12.Dijkstra: the stored `previous` links are proved to lead to the end along decreasing distances, not to be the particular links the program's heap order yields.
- Day16Part1.GetBestTotalForAction: the `depth` parameter only feeds debug printing and is omitted. The `&mut Context` is threaded through the calls as values (cache in, cache out). Through `CacheHolds` it requires letter names (`Named`), for the reason given under `Day16Part1.Solve`.
- Day16Part1.Solve: valve names must be runs of capital letters (`Named`). The cache key joins the opened names with commas after a tag and the time, and names with digits or commas could make two different calls share a key; the model proves keys injective only for letter names and does not capture such collisions. Inputs name valves with two capital letters.
- Day16Part1.Search: a search that panics returns the cache it was given in place of the partly filled cache the source would leave behind; the program stops at the panic, so nothing reads that cache.
- Day16Part1.Solve: the opened set is a `HashSet` whose iteration order Rust does not fix. The model lists it in insertion order, and `CacheKeyOrderIndependent` shows the key does not depend on that order.
- Day16Part2.Solve: the visited bit set is a `set<nat>`. A `u64` holds at most 64 valves, which the precondition requires.
- Day17: the jet line is a parameter; reading it is left out. `render` (lines 29-37) and the `println!` of the skipped cycles (line 206) only print and are left out. The `[u8; 131072]` buffer is an `array<bool>`, as the program stores only 0 and 1. A panic (an empty jet line, or a draw or `get_row` outside the buffer) is `None`. Positions and counters are unbounded integers rather than `i64` and `usize`; `TOTAL_CYCLES - n` never goes below zero, as the loop runs only while `n` is below one trillion. The `HashMap` of sightings is a Dafny map.
- Day17.Track: skips the corrected number of cycles `Cycles`, not the program's `CyclesAsWritten` (see Findings).
- Day17.Simulate: the answer is stated to be the program's `highest_non_moving`, not the puzzle's tower height. That the two agree depends on the sightings key (shape, jet, top row) recurring only with the tower's true period, which is not proved. The number of outer iterations is a ghost result that names the `Towers` state reached.
- Day19Part1 and Day19Part2: reading the blueprints with `sscanf`, printing them and the running totals are left out; the blueprints are a sequence of values. `i32` is modelled as an unbounded `int`.
- Day19Part1.Go: is proved attained by a schedule and never above the unpruned `Best`, but not equal to it; its pruning (no obsidian robot while obsidian covers the remaining minutes, nothing but a geode robot beside an obsidian robot) can miss the optimum, and the model does not claim it does not.
- Day19Part2.Go: is proved attained by a pruned schedule and never above `Best`, but not equal to it; the flags and caps can miss the optimum and the model does not claim otherwise. The dead store to `stat`'s flags before waiting is not modelled, since waiting overwrites them.
- Day19Part2.Solve: the running product is unbounded, where the program's `i32` could overflow.

## Findings

| source | as written | input that shows it | evidently intended | confidence | as-written member | corrected member |
|---|---|---|---|---|---|---|
| day-08/src/main.rs:79 | the border trees are counted as `2w + 2h - 4` | a map of the single line `5`: the count is 0, yet its one tree is visible | the number of trees on the border, which is `h` for one column and `w` for one row | medium; not executed | Day08.SingleTreeMiscounted | Day08.VisibleCountIsVisibleTrees |
| day-14/part-1/src/main.rs:47-49 | `is_in_bound` compares the x offset `x - min_x` with `max_x` rather than with the row width `max_x - min_x + 1` | the one path `499,0 -> 499,2 -> 500,2`: the first grain falls to (500,1); its down-right neighbour (501,2) passes the check though its column 2 is past a row of 2 cells, so the program indexes past the row and panics | the offset is below the row width, so the grain leaves the grid and the answer is 0 | high; not executed | Day14Part1.AsWrittenOverrunsRow | Day14Part1.WallAnswer |
| day-15/part-1/src/main.rs:72 | the row is scanned up to `max_x + 1000000`, while the left end is `min_x - 10000000` | one sensor at (0, 2000000) with its beacon at (-1500000, 2000000): it covers (1000001, 2000000), which holds no beacon, but the scan stops at x = 1000000 | every covered position of the row is counted: scan from the leftmost to the rightmost x any sensor reaches | medium; not executed | Day15Part1.ScanMissesCoveredPosition | Day15Part1.CorrectedCountsWholeRow |
| day-17/src/main.rs:201 | `max_cycles` is `(TOTAL_CYCLES - n) / cycle_length`; line 219 then adds 1 to `n` for the rock that has just come to rest | a cycle of 5 rocks found at n = 999999999995: the skip sets `n` to one trillion and line 219 makes it one trillion and one, so the height printed is that of one rock more than asked | skip only as many whole cycles as leave room for the rock just counted: `(TOTAL_CYCLES - 1 - n) / cycle_length` | medium; not executed | Day17.AsWrittenOvershoots | Day17.Cycles |
