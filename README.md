# Advent of Code 2024 solutions, modelled in Dafny

This project models the core of a Python repository of Advent of Code 2024
solutions and proves properties of the model. It covers:

- the shared helpers: `Position` (src/aoc/pyutils/position.py), the point
  grid `Grid` (src/aoc/pyutils/grid_points.py), the older (row, col) grid
  (src/aoc/pyutils/grid.py) and `PuzzleMap` (src/aoc/pyutils/puzzle_map.py);
- the puzzle logic of days 2 to 22. Days 6, 19 and 21 have several
  rewrites; each rewrite is modelled on its own, as written, except where a
  line under "## Findings" says the model uses a corrected definition.

One Dafny module stands for one source file:

- `Position`, `GridPoints`, `GridRc` and `PuzzleMap` for the helpers;
- `Day02` … `Day22` for the days;
- `Day06Puzzle`, `Day06Puzzle2` and `Day06Backup` for the three day-6 files;
- `Day19`, `Day19Search`, `Day19Reddit1`, `Day19Reddit2` and `Day19Reddit4`
  for day 19;
- `Day21`, `Day21Scratch`, `Day21BadCode` and `Day21Reddit2` for day 21.

`Common` holds Python's semantics that several modules share:

- `Option`, and `Result` with a `PyError` for each exception the code can raise;
- integer parsing, `//` and `%`, splitting and joining strings;
- sums and flattening.

Code that is written with expressions becomes functions and lemmas.

Code that updates state step by step becomes methods:

- loops become `while` or `for` loops with invariants;
- classes whose fields change keep those fields, with `modifies` and `reads` frames.

Each method is proved against a specification function, or against the
property the source promises.

A search loop the source cannot be shown to finish gets a `fuel: nat`
bound. These are the guard walks, the Dijkstra and breadth-first searches,
`fix_pages_move` and the secret-number loops. Most of them then return
"not finished" in place of running forever; the breadth-first search of
day 21 returns the paths found so far (see "## Left out").

## Model

| member | source | states |
|---|---|---|
| Common.Split | src/aoc/yr_2024/day_19/reddit_2.py:14 | `str.split(sep)`: at least one piece, and no piece contains the separator |
| Common.SplitJoinRoundTrip | src/aoc/yr_2024/day_19/reddit_2.py:14 | joining the pieces of `str.split(sep)` with the separator gives the text back |
| Common.Join | src/aoc/yr_2024/day_21/puzzle.py:124 | `sep.join(pieces)` starts with the first piece and ends with the last, and with two pieces or more the separator follows the first |
| Common.Strip | src/aoc/yr_2024/day_09/puzzle.py:30 | `str.strip()` leaves no whitespace at either end, and leaves text without whitespace at its ends as it is |
| Common.PyInt | src/aoc/yr_2024/day_09/puzzle.py:37 | `int(text)`: ValueError is the only error, the empty text is one, and a string of decimal digits reads as its decimal value |
| Common.PyIntRoundTrip | src/aoc/yr_2024/day_21/puzzle.py:37 | `int(str(n)) == n` for every integer |
| Common.FloorDiv | src/aoc/yr_2024/day_13/puzzle.py:101-102 | Python's `//`: ZeroDivisionError exactly for a zero divisor; otherwise the quotient rounded down, so the divisor times it is at most the dividend and within one divisor of it |
| Common.FloorMod | src/aoc/yr_2024/day_14/puzzle.py:53-54 | Python's `%`: ZeroDivisionError exactly for a zero modulus; otherwise the remainder lies between 0 and the modulus, on the modulus's side |
| Position.FromTuple | src/aoc/pyutils/position.py:21-26 | a Position exactly for a 2-tuple, with those coordinates; TypeError for anything else |
| Position.FromTupleRoundTrip | src/aoc/pyutils/position.py:21-36 | `from_tuple(p.pos)` gives `p` back |
| Position.Equals | src/aoc/pyutils/position.py:38-46 | equal iff row and col match; a 2-tuple is converted first, a tuple of another length raises; any other type is unequal |
| Position.Add | src/aoc/pyutils/position.py:53-57 | defined exactly when the operand converts to a Position; the result differs from `self` by the operand, componentwise |
| Position.Sub | src/aoc/pyutils/position.py:59-63 | defined exactly when the operand converts; the result plus the operand is `self` |
| Position.AddSubRoundTrip | src/aoc/pyutils/position.py:53-63 | `(p + q) - q == p` |
| Position.SubAddTupleRoundTrip | src/aoc/pyutils/position.py:53-63 | `(p - (dr, dc)) + (dr, dc) == p` for a 2-tuple |
| Position.Mul | src/aoc/pyutils/position.py:65-74 | componentwise product with a Position, scaling with an int, TypeError for anything else (tuples included) |
| Position.MulDistributesOverAdd | src/aoc/pyutils/position.py:53-74 | `(p + q) * k == p * k + q * k` |
| Position.Dot | src/aoc/pyutils/position.py:76-80 | TypeError exactly for a non-Position; the four-way product is 0 when any coordinate is 0 |
| Position.DotSymmetric | src/aoc/pyutils/position.py:76-80 | `p.dot(q) == q.dot(p)` |
| Position.Lt | src/aoc/pyutils/position.py:82-91 | true iff the projection of `self` on the direction is below that of the (converted) other |
| Position.LtIrreflexive | src/aoc/pyutils/position.py:82-91 | no position is below itself |
| Position.LtTransitive | src/aoc/pyutils/position.py:82-91 | below is transitive for a fixed direction |
| Position.SortPositions | src/aoc/pyutils/position.py:28-31 | a permutation of the input, ordered by (row, col) |
| Position.SortedPermutationUnique | src/aoc/pyutils/position.py:28-31 | two sorted permutations of one list are equal, so the order is fully determined |
| GridPoints.ManhattanDistance | src/aoc/pyutils/grid_points.py:69-74 | zero exactly when the points coincide |
| GridPoints.ManhattanSymmetric | src/aoc/pyutils/grid_points.py:69-74 | the distance is symmetric |
| GridPoints.ManhattanTriangle | src/aoc/pyutils/grid_points.py:69-74 | the distance obeys the triangle inequality |
| GridPoints.Grid.constructor | src/aoc/pyutils/grid_points.py:21-33 | built from sizes, `rows` rows of `cols` cells, each `default_val` |
| GridPoints.Grid.FromRows | src/aoc/pyutils/grid_points.py:26-29 | built from read rows, the sizes are taken from the rows (the file reading itself is left out) |
| GridPoints.Grid.Get | src/aoc/pyutils/grid_points.py:46-56 | the cell at the point exactly when `in_grid` holds; IndexError otherwise |
| GridPoints.Grid.Set | src/aoc/pyutils/grid_points.py:58-63 | IndexError and no change outside the grid; inside, a following `get` returns the value and every other cell is unchanged |
| GridPoints.Grid.AllMDistances | src/aoc/pyutils/grid_points.py:76-84 | a fresh grid of the same shape whose every cell holds its Manhattan distance from the start |
| GridPoints.Grid.PositionsWithinDist | src/aoc/pyutils/grid_points.py:86-104 | exactly the in-grid points other than the start within the distance, in strict row-major order, though only a window is scanned |
| GridPoints.RegionBoundaries | src/aoc/pyutils/grid_points.py:122-129 | ValueError exactly for an empty region; otherwise the tightest box around it (each bound attained by a point) |
| GridPoints.FindTopRowPoints | src/aoc/pyutils/grid_points.py:131-135 | non-empty; exactly the region's points on its smallest row |
| GridPoints.FindBottomRowPoints | src/aoc/pyutils/grid_points.py:137-141 | non-empty; exactly the region's points on its largest row |
| GridPoints.FindLeftColPoints | src/aoc/pyutils/grid_points.py:143-147 | non-empty; exactly the region's points on its smallest column |
| GridPoints.FindRightColPoints | src/aoc/pyutils/grid_points.py:149-153 | non-empty; exactly the region's points on its largest column |
| GridPoints.Select | src/aoc/pyutils/grid_points.py:131-153 | the comprehension keeps exactly the points that pass, and a row-major region stays row-major |
| GridPoints.SelectAppend | src/aoc/pyutils/grid_points.py:131-153 | the comprehension is a filter in order: over two lists in turn it is the selection from the first followed by the selection from the second, and one point stays exactly when it passes |
| GridPoints.PointAbove | src/aoc/pyutils/grid_points.py:160-163 | None exactly on row 0 or above; otherwise the neighbour one row up |
| GridPoints.PointLeft | src/aoc/pyutils/grid_points.py:165-168 | None exactly on column 0 or left of it; otherwise the neighbour one column left |
| GridPoints.PointBelow | src/aoc/pyutils/grid_points.py:155-158 | as written: None exactly when `row >= rows`; otherwise the neighbour one row down |
| GridPoints.PointRight | src/aoc/pyutils/grid_points.py:170-173 | as written: None exactly when `col >= cols`; otherwise the neighbour one column right |
| GridPoints.PointBelowLeavesGrid | src/aoc/pyutils/grid_points.py:155-158 | from the bottom row `point_below` answers a point outside the grid |
| GridPoints.PointRightLeavesGrid | src/aoc/pyutils/grid_points.py:170-173 | from the last column `point_right` answers a point outside the grid |
| GridPoints.PointBelowInGrid | src/aoc/pyutils/grid_points.py:155-158 | corrected: the neighbour below only when it is in the grid |
| GridPoints.PointRightInGrid | src/aoc/pyutils/grid_points.py:170-173 | corrected: the neighbour to the right only when it is in the grid |
| GridPoints.NeighboursStayInGrid | src/aoc/pyutils/grid_points.py:155-173 | the corrected neighbours of an in-grid point are in the grid, in all four directions |
| GridRc.ManhattanDistance | src/aoc/pyutils/grid.py:57-60 | zero exactly when the cells coincide; at least the row gap and at least the column gap |
| GridRc.ManhattanSymmetric | src/aoc/pyutils/grid.py:57-60 | the distance is symmetric |
| GridRc.Grid.constructor | src/aoc/pyutils/grid.py:12-24 | built from sizes, every one of the `rows`×`cols` cells holds `default_val` (the file branch is not part of this model) |
| GridRc.Grid.Get | src/aoc/pyutils/grid.py:37-45 | the cell exactly when `in_grid` holds; IndexError otherwise |
| GridRc.Grid.Set | src/aoc/pyutils/grid.py:47-51 | IndexError and no change outside the grid; inside, a following `get` returns the value and every other cell is unchanged |
| GridRc.Grid.AllMDistances | src/aoc/pyutils/grid.py:62-69 | a fresh grid of the same shape whose every cell holds its distance from the start |
| GridRc.Grid.PositionsWithinDist | src/aoc/pyutils/grid.py:71-79 | exactly the in-grid cells other than the start within the distance, in strict row-major order |
| PuzzleMap.IncrementsAreClockwiseUnitSteps | src/aoc/pyutils/puzzle_map.py:14-16 | every heading has a unit step, the four steps differ, and each heading's step is the previous one turned clockwise |
| PuzzleMap.PuzzleMap.constructor | src/aoc/pyutils/puzzle_map.py:18-24 | the bounds are 0 and the last index of the rows and of the first row |
| PuzzleMap.ReplaceChar | src/aoc/pyutils/puzzle_map.py:32-36 | ValueError exactly when `n` is not an index; otherwise the prefix before `n`, then `ch`, then the suffix after `n` |
| PuzzleMap.ReplaceOneChar | src/aoc/pyutils/puzzle_map.py:32-36 | a one-character replacement keeps the length and changes only index `n` |
| Day02.CalcDiffs | src/aoc/2024/day_02/puzzle.py:39-40 | one difference fewer than levels, none for an empty report, each the step between neighbours |
| Day02.DiffsReconstruct | src/aoc/2024/day_02/puzzle.py:39-40 | the differences give back every level from the first one |
| Day02.CriteriaMeanSafe | src/aoc/2024/day_02/puzzle.py:49-58 | `check_criteria` on the differences accepts exactly the reports whose levels move strictly one way in steps of 1 to 3 |
| Day02.RemoveAt | src/aoc/2024/day_02/puzzle.py:92 | removing one level shortens the report by one |
| Day02.RemovalChecked | src/aoc/2024/day_02/puzzle.py:91-94 | the criteria on one removal decide whether that removal is safe |
| Day02.KeepRowWithDamp | src/aoc/2024/day_02/puzzle.py:80-97 | the report comes back exactly when it is safe or some one-level removal is safe; None otherwise |
| Day02.NoSafeRemovalAtAll | src/aoc/2024/day_02/puzzle.py:91-97 | once every removal has been tried and failed, no removal is safe |
| Day02.Part1 | src/aoc/2024/day_02/puzzle.py:61-68 | the count of safe reports is at most the number of reports |
| Day02.Part2 | src/aoc/2024/day_02/puzzle.py:100-107 | as written: counts the truthy results of `keep_row_with_damp`, at most the number of reports |
| Day02.EmptyReportDroppedByPart2 | src/aoc/2024/day_02/puzzle.py:100-107 | an empty report is safe in part 1 but is dropped by part 2, which then counts fewer |
| Day02.Part2Kept | src/aoc/2024/day_02/puzzle.py:100-107 | corrected: counts every report the dampener keeps |
| Day02.Part2KeptAtLeastPart1 | src/aoc/2024/day_02/puzzle.py:61-107 | the dampened count is at least the undampened one |
| Day02.Part2AgreesOnNonEmptyReports | src/aoc/2024/day_02/puzzle.py:100-107 | on non-empty reports the written and the corrected part 2 agree |
| Day03.MatchEnd | src/aoc/2024/day_03/puzzle.py:38-40 | a match of `mul\(\d*,\d*\)` starting at an index ends inside the text and has the instruction's shape |
| Day03.MatchShape | src/aoc/2024/day_03/puzzle.py:38-40 | "mul(", digits, ",", digits, ")" is the shape of every match |
| Day03.FindFrom | src/aoc/2024/day_03/puzzle.py:38-40 | every match found from an index has the instruction's shape and together they take no more than the rest of the text (leftmost-first order is FindFromLeftmost) |
| Day03.FindFromLeftmost | src/aoc/2024/day_03/puzzle.py:38-40 | the scan of `re.findall`: no match from an index gives an empty list; otherwise the leftmost match comes first and the scan resumes at its end |
| Day03.FindMatchesInStr | src/aoc/2024/day_03/puzzle.py:38-40 | `re.findall`: no match at all exactly when the pattern matches nowhere; otherwise the leftmost match comes first and the scan resumes where it ends; every match has the instruction's shape |
| Day03.SearchFrom | src/aoc/2024/day_03/puzzle.py:29-30 | `re.search`: the least index from which the pattern matches (nothing matches before it), None exactly when it matches nowhere |
| Day03.EvalMatch | src/aoc/2024/day_03/puzzle.py:27-35 | `eval_match`: None exactly when the pattern matches nowhere in the text; the only failure is ValueError (an empty digit group) |
| Day03.EvalMulText | src/aoc/2024/day_03/puzzle.py:27-35 | evaluating the text of `mul(a,b)` gives back `a * b` |
| Day03.MatchAtStart | src/aoc/2024/day_03/puzzle.py:29-30 | a text laid out as an instruction matches at its start |
| Day03.EvalAtStart | src/aoc/2024/day_03/puzzle.py:27-34 | an instruction at the start with two non-empty digit groups evaluates to the product of its numbers |
| Day03.EmptyDigitsRaise | src/aoc/2024/day_03/puzzle.py:27-34 | `mul(,5)` passes the pattern but `int("")` raises ValueError |
| Day03.TokenMatchesAtStart | src/aoc/2024/day_03/puzzle.py:27-40 | every text `re.findall` returns matches the pattern again at its own first character, so `eval_match` never gives None for it |
| Day03.SumOfTokens | src/aoc/2024/day_03/puzzle.py:48 | summing the evaluated matches never meets a None (no TypeError); the only failure is ValueError |
| Day03.Part1 | src/aoc/2024/day_03/puzzle.py:43-48 | `part1`: the sum over all matches fails, if at all, only with ValueError |
| Day03.TruncateDont | src/aoc/2024/day_03/puzzle.py:60-64 | a prefix of the text with no `don't()` in it, cut exactly where the first `don't()` starts |
| Day03.PieceMatches | src/aoc/2024/day_03/puzzle.py:77-78 | one list per `do()`-separated piece, each the matches of the piece cut at its first `don't()` |
| Day03.Part2Matches | src/aoc/2024/day_03/puzzle.py:72-82 | the matches kept by part 2 all have the instruction's shape (which pieces they come from: Part2WithoutDo, Part2AtFirstDo) |
| Day03.Part2WithoutDo | src/aoc/2024/day_03/puzzle.py:72-82 | text without `do()` keeps exactly the matches before its first `don't()` |
| Day03.Part2AtFirstDo | src/aoc/2024/day_03/puzzle.py:72-82 | at the first `do()` the text is switched on again: the part before keeps its matches up to its first `don't()`, the part after is handled afresh |
| Day03.OnlyLeadingD | src/aoc/2024/day_03/puzzle.py:76 | an occurrence of `do()` holds no `d` after its first character |
| Day03.FirstDo | src/aoc/2024/day_03/puzzle.py:76 | the first `do()` that `str.split` finds in `a + "do()" + b`, when `a` holds none, starts right after `a` |
| Day03.Part2 | src/aoc/2024/day_03/puzzle.py:72-82 | `part2`: the sum over the kept matches fails, if at all, only with ValueError |
| Day03.Part2WithoutSwitches | src/aoc/2024/day_03/puzzle.py:43-82 | on text with neither `do()` nor `don't()` part 2 keeps the same matches as part 1 |
| Day04.Upper | src/aoc/2024/day_04/puzzle.py:42 | `str.upper` on ASCII: same length, lower-case letters raised, every other character kept |
| Day04.XmasHasNoSelfOverlap | src/aoc/2024/day_04/puzzle.py:43-44 | neither XMAS nor SAMX can overlap itself |
| Day04.OverlapSharesBorder | src/aoc/2024/day_04/puzzle.py:43-44 | two overlapping occurrences share a border of the pattern |
| Day04.SkipGap | src/aoc/2024/day_04/puzzle.py:43-44 | counting resumes unchanged across a stretch with no occurrence |
| Day04.CountIsOccurrences | src/aoc/2024/day_04/puzzle.py:43-44 | for a pattern that cannot overlap itself, non-overlapping `str.count` counts every occurrence |
| Day04.NoneNearEnd | src/aoc/2024/day_04/puzzle.py:43-44 | no occurrence starts closer to the end than the pattern's length |
| Day04.CountXmas | src/aoc/2024/day_04/puzzle.py:40-45 | `count_xmas`: every start of XMAS plus every start of SAMX in the upper-cased line, each counted once |
| Day04.MinLengthIsMin | src/aoc/2024/day_04/puzzle.py:83-86 | the shortest line's length, which `zip` cuts to, is attained and bounds every line |
| Day04.TransposeLines | src/aoc/2024/day_04/puzzle.py:83-86 | `zip(*lines)`: column `j` of the lines, as many columns as the shortest line is long |
| Day04.TransposeTwice | src/aoc/2024/day_04/puzzle.py:83-86 | transposing a non-empty rectangle twice gives it back |
| Day04.CellOnItsDiagonal | src/aoc/2024/day_04/puzzle.py:55-80 | every grid cell lies on the diagonal `r + c` of each family, at position `c - FirstCol(r + c)` |
| Day04.CreateDiagonalLines | src/aoc/2024/day_04/puzzle.py:55-80 | IndexError exactly for no lines; otherwise `2 * height` diagonals of each family (not `height + width - 1`, see "## Findings"), diagonal `y` holding the cells with `r + c == y` |
| Day04.DiagonalsFrom | src/aoc/2024/day_04/puzzle.py:62-75 | the inner `while` walks up and right from row `y`, skipping rows past the bottom, and builds exactly the rising diagonal `r + c == y` and its mirror image |
| Day04.DiagonalLines | src/aoc/2024/day_04/puzzle.py:55-80 | the same two families as values |
| Day04.SumCountsIsOccurrences | src/aoc/2024/day_04/puzzle.py:96-99 | summing `count_xmas` over lines misses no occurrence |
| Day04.Part1 | src/aoc/2024/day_04/puzzle.py:89-100 | `part1` as written: every XMAS and SAMX along rows, columns and the `2 * height` diagonals of each family that `create_diagonal_lines` builds |
| Day04.AllDiagonalLines | src/aoc/2024/day_04/puzzle.py:55-80 | the diagonals evidently meant: `height + width - 1` per family, diagonal `y` holding the cells with `r + c == y` |
| Day04.AllDiagonalsCoverEveryCell | src/aoc/2024/day_04/puzzle.py:55-80 | with `height + width - 1` diagonals every cell of the grid lies on one diagonal of each family |
| Day04.Part1Corrected | src/aoc/2024/day_04/puzzle.py:89-100 | `part1` over the complete diagonals: every XMAS read either way along rows, columns and both full diagonal families |
| Day04.SumOccurrencesAppend | src/aoc/2024/day_04/puzzle.py:96-99 | the sum of counts over two lists of lines adds up |
| Day04.Part1CorrectedExtends | src/aoc/2024/day_04/puzzle.py:61 | on a grid wider than tall the corrected count is `part1` plus the occurrences on the diagonals from `2 * height` on |
| Day04.LeadingXmas | src/aoc/2024/day_04/puzzle.py:40-45 | a list of lines that starts with XMAS holds an occurrence |
| Day04.FarDiagonal | src/aoc/2024/day_04/puzzle.py:61-75 | in the four-by-nine example grid the diagonal `r + c == 8` reads XMAS |
| Day04.FarXmasMissed | src/aoc/2024/day_04/puzzle.py:61 | on the four-by-nine example grid `part1` builds only 8 diagonals per family and counts fewer occurrences than the corrected count |
| Day04.FindMatches | src/aoc/2024/day_04/puzzle.py:131-133 | exactly the tuples of the first list that are in the second, no more than the first list holds |
| Day04.FindMatchesAppend | src/aoc/2024/day_04/puzzle.py:131-133 | a filter in order: over two lists in turn it is the matches of the first followed by the matches of the second, and one tuple stays exactly when the second list holds it |
| Day04.AllIndicesFrom | src/aoc/2024/day_04/puzzle.py:112-122 | every index from the start where the pattern occurs, overlaps included, strictly increasing |
| Day04.Find | src/aoc/2024/day_04/puzzle.py:117 | `str.find`: the first occurrence at or after `start`, -1 when there is none |
| Day04.FindAllIndices | src/aoc/2024/day_04/puzzle.py:112-122 | the loop of repeated `find` calls yields exactly every occurrence |
| Day04.MoveFound | src/aoc/2024/day_04/puzzle.py:120-121 | moving the next hit onto the found list keeps the whole list |
| Day04.NoOccurrenceNoIndices | src/aoc/2024/day_04/puzzle.py:118-119 | when `find` answers -1 nothing is left to find |
| Day04.SkipToFound | src/aoc/2024/day_04/puzzle.py:117-121 | the hit `find` returns heads the remaining indices |
| Day04.DiagMatchIsCrossedMas | src/aoc/2024/day_04/puzzle.py:136-148 | with an A in the centre, `diag_match` holds exactly when both diagonals read MAS either way |
| Day04.OccursAtLetter | src/aoc/2024/day_04/puzzle.py:159 | a one-letter pattern occurs exactly where that letter is |
| Day04.IndicesOfA | src/aoc/2024/day_04/puzzle.py:158-161 | each row's list holds only positions of 'A' in that row, none twice |
| Day04.IndicesOfAComplete | src/aoc/2024/day_04/puzzle.py:158-161 | every 'A' of a row is listed for that row |
| Day04.FlattenRowsDistinct | src/aoc/2024/day_04/puzzle.py:162 | flattening rows whose lists are tagged with their own row number and hold no repeats gives a list without repeats |
| Day04.Part2Candidates | src/aoc/2024/day_04/puzzle.py:154-164 | the centres tried are sorted, hold no repeats and are exactly the 'A' cells strictly inside the border |
| Day04.CandidateMember | src/aoc/2024/day_04/puzzle.py:162-164 | membership of the filtered candidates |
| Day04.FilterInterior | src/aoc/2024/day_04/puzzle.py:164 | the interior filter keeps sortedness, no repeats and exactly the interior points |
| Day04.CountMatches | src/aoc/2024/day_04/puzzle.py:165-166 | at most one match per candidate centre |
| Day04.CountMatchesCard | src/aoc/2024/day_04/puzzle.py:165-166 | over candidates without repeats, `sum(results)` is the number of candidates whose diagonals match |
| Day04.Part2 | src/aoc/2024/day_04/puzzle.py:151-166 | `part2`: the number of distinct X-MAS centres, 'A' cells off the border whose two diagonals read MAS either way |
| Day05.RelevantRules | src/aoc/yr_2024/day_05/puzzle.py:78-82 | exactly the rules whose two pages both occur in the update, no more than there were rules |
| Day05.RelevantRulesAppend | src/aoc/yr_2024/day_05/puzzle.py:78-82 | a filter in order: over two rule lists in turn it is the relevant rules of the first followed by those of the second, and one rule stays exactly when both its pages occur |
| Day05.RelevantRulesAgain | src/aoc/yr_2024/day_05/puzzle.py:78-82 | filtering again by an update with the same pages changes nothing (as `fix_pages_move` does when it recurses) |
| Day05.RulePasses | src/aoc/yr_2024/day_05/puzzle.py:85-89 | ValueError exactly when a page of the rule is absent; otherwise true exactly when the first page's index is smaller |
| Day05.ApplyRules | src/aoc/yr_2024/day_05/puzzle.py:92-96 | true exactly when every rule over two present pages has its first page earlier |
| Day05.NoRelevantRulesPass | src/aoc/yr_2024/day_05/puzzle.py:92-96 | with no rule naming two of the pages, any order is accepted |
| Day05.NoRulesForEmptyUpdate | src/aoc/yr_2024/day_05/puzzle.py:78-82 | an empty update has no relevant rule |
| Day05.ApplyRulesPositions | src/aoc/yr_2024/day_05/puzzle.py:92-96 | in an update without repeats that passes, each rule's first page sits left of its second |
| Day05.MiddlePage | src/aoc/yr_2024/day_05/puzzle.py:99-104 | IndexError exactly for an empty update; otherwise the page at `(len - 1) // 2` |
| Day05.MiddleOfOdd | src/aoc/yr_2024/day_05/puzzle.py:99-104 | for an odd length as many pages come before the middle page as after it |
| Day05.SumMiddles | src/aoc/yr_2024/day_05/puzzle.py:112 | the sum raises exactly when an empty update is among those summed |
| Day05.Passing | src/aoc/yr_2024/day_05/puzzle.py:111 | exactly the updates that pass the rules, with order and multiplicity fixed by PassingAppend |
| Day05.PassingAppend | src/aoc/yr_2024/day_05/puzzle.py:111 | the comprehension over two lists of updates in turn is the passing updates of the first followed by those of the second, and one update stays exactly when it passes; so an update listed twice is summed twice |
| Day05.Part1EmptyUpdateRaises | src/aoc/yr_2024/day_05/puzzle.py:107-114 | an empty update passes every rule and makes `part1` raise IndexError |
| Day05.Part1 | src/aoc/yr_2024/day_05/puzzle.py:107-112 | IndexError exactly when an empty update is listed, since it passes every rule; the sum is 0 when no update passes |
| Day05.TallyOf | src/aoc/yr_2024/day_05/puzzle.py:185-189 | the Counter after the loop has exactly the listed pages as keys |
| Day05.TallyCounts | src/aoc/yr_2024/day_05/puzzle.py:185-189 | each count is the number of times the page was listed |
| Day05.ConsDescByCount | src/aoc/yr_2024/day_05/puzzle.py:194 | a head counted at least as often as the sorted rest keeps the order |
| Day05.InsertByCount | src/aoc/yr_2024/day_05/puzzle.py:194 | one insertion by descending count: a permutation of the list plus the new key that stays ordered by count |
| Day05.InsertByCountStable | src/aoc/yr_2024/day_05/puzzle.py:194 | the insertion is stable: among the keys of any one count, the new key comes after those already there, which keep their order |
| Day05.MostCommon | src/aoc/yr_2024/day_05/puzzle.py:194 | `most_common()`: a permutation of the keys in descending order of count |
| Day05.SortByCount | src/aoc/yr_2024/day_05/puzzle.py:194 | the sort by descending count is a permutation in that order |
| Day05.SortByCountStable | src/aoc/yr_2024/day_05/puzzle.py:194 | the sort is stable: the keys of any one count come out in the order they went in, as `most_common()` keeps ties in insertion order, which decides the page returned |
| Day05.TopKey | src/aoc/yr_2024/day_05/puzzle.py:194 | `most_common()[0][0]` is a key counted at least as often as every other, and the first such key in the keys' order (every key before it is counted less often) |
| Day05.Firsts | src/aoc/yr_2024/day_05/puzzle.py:186-187 | the first pages of the rules, one per rule |
| Day05.Seconds | src/aoc/yr_2024/day_05/puzzle.py:186-188 | the second pages of the rules, one per rule |
| Day05.FixOrderNoNetwork | src/aoc/yr_2024/day_05/puzzle.py:178-195 | IndexError when no rule is relevant; otherwise the pages with outgoing rules by descending count, then the page most often second |
| Day05.PrefixStep | src/aoc/yr_2024/day_05/puzzle.py:185-189 | one loop step adds one to the tally of each page of the rule |
| Day05.FixOrderListsEveryRuleHead | src/aoc/yr_2024/day_05/puzzle.py:178-195 | the listed pages are exactly those that start a relevant rule, each once, by descending rule count |
| Day05.FirstsAreHeads | src/aoc/yr_2024/day_05/puzzle.py:186-187 | a page is among the first pages exactly when some rule starts at it |
| Day05.MostCommonOnce | src/aoc/yr_2024/day_05/puzzle.py:194 | `most_common` lists every key of a tally exactly once |
| Day05.Moved | src/aoc/yr_2024/day_05/puzzle.py:215-223 | moving keeps the length |
| Day05.MovedIsPermutation | src/aoc/yr_2024/day_05/puzzle.py:215-223 | a move is a permutation that puts the item at `after`, followed by the page that was there |
| Day05.MovedKeepsDistinct | src/aoc/yr_2024/day_05/puzzle.py:215-223 | moving keeps an update free of repeats |
| Day05.MoveRepairsRule | src/aoc/yr_2024/day_05/puzzle.py:226-231 | after the move for a failing rule, that rule passes |
| Day05.MovedElements | src/aoc/yr_2024/day_05/puzzle.py:215-223 | each page of the moved list comes from a known place of the old one |
| Day05.MoveItem | src/aoc/yr_2024/day_05/puzzle.py:215-223 | on the caller's list, in place: the list becomes the moved list |
| Day05.FixPagesRule | src/aoc/yr_2024/day_05/puzzle.py:226-231 | ValueError and no change exactly when a page of the rule is absent; otherwise the move for that rule, in place |
| Day05.FailingRules | src/aoc/yr_2024/day_05/puzzle.py:241 | exactly the relevant rules that fail on the current pages |
| Day05.FixPagesMove | src/aoc/yr_2024/day_05/puzzle.py:234-252 | the pages stay a permutation of the old ones, and when the repair finishes every rule passes |
| Day06Puzzle.HeadingsAreDirections | src/aoc/yr_2024/day_06/puzzle.py:53 | a heading is exactly one of `DIRECTIONS` |
| Day06Puzzle.ReplaceChar | src/aoc/yr_2024/day_06/puzzle.py:74-84 | as written: ValueError only for `n < 0` or `n > len(s)`; inside, only index `n` changes, to the marker rule's character; at `n == len(s)` a non-marker is appended and a marker raises IndexError |
| Day06Puzzle.ReplaceCharChecked | src/aoc/yr_2024/day_06/puzzle.py:74-84 | corrected: ValueError exactly for an index outside the string, otherwise the same one-cell change |
| Day06Puzzle.ReplaceCharOnePastEnd | src/aoc/yr_2024/day_06/puzzle.py:74-84 | one past the end the written guard lets the call through and the row grows; the corrected one refuses it |
| Day06Puzzle.ReplaceCharAgreesInside | src/aoc/yr_2024/day_06/puzzle.py:74-84 | inside the string both versions agree |
| Day06Puzzle.GuardPosInRow | src/aoc/yr_2024/day_06/puzzle.py:86-90 | None exactly when the row holds no heading; otherwise an index of a heading in the row |
| Day06Puzzle.FindGuard | src/aoc/yr_2024/day_06/puzzle.py:92-98 | as written: only rows whose guard index is truthy count, so a guard in column 0 is skipped; IndexError exactly when every row has no heading or one in column 0; otherwise the first row with a truthy index, and that index |
| Day06Puzzle.FindGuardFixed | src/aoc/yr_2024/day_06/puzzle.py:92-98 | corrected: IndexError exactly when no row holds a heading; otherwise the heading in the first row that holds one |
| Day06Puzzle.FindGuardMissesColumnZero | src/aoc/yr_2024/day_06/puzzle.py:92-98 | `["^."]`: the written search raises, the corrected one finds (0, 0) |
| Day06Puzzle.ExitingIffNextStepLeaves | src/aoc/yr_2024/day_06/puzzle.py:105-113 | the guard is exiting exactly when its next step leaves the map |
| Day06Puzzle.DirIndex | src/aoc/yr_2024/day_06/puzzle.py:117 | `DIRECTIONS.index` of a heading |
| Day06Puzzle.NextDir | src/aoc/yr_2024/day_06/puzzle.py:119-125 | the right turn `DIRECTIONS[(idx + 1) % 4]` is a heading one index further, cyclically |
| Day06Puzzle.FourTurnsIdentity | src/aoc/yr_2024/day_06/puzzle.py:115-127 | four right turns face the guard the way it started |
| Day06Puzzle.AheadStep | src/aoc/yr_2024/day_06/puzzle.py:133-134 | one more step is looking one cell further ahead |
| Day06Puzzle.ReachIsFarthest | src/aoc/yr_2024/day_06/puzzle.py:133-134 | every cell up to the reach is open and the cell after it is an obstacle or off the map |
| Day06Puzzle.MarkAt | src/aoc/yr_2024/day_06/puzzle.py:135 | marking keeps the map's shape |
| Day06Puzzle.MarkAtCell | src/aoc/yr_2024/day_06/puzzle.py:74-84 | marking changes the one cell, as `replace_char` does, and no other |
| Day06Puzzle.Marked | src/aoc/yr_2024/day_06/puzzle.py:133-135 | marking a walk keeps the map's shape |
| Day06Puzzle.MarkedCells | src/aoc/yr_2024/day_06/puzzle.py:129-139 | marking a walk changes exactly the cells walked over, each as `replace_char` does |
| Day06Puzzle.LoopCandidate | src/aoc/yr_2024/day_06/puzzle.py:269-328 | nothing is proposed while exiting; a proposal is the cell ahead, on the map and untouched |
| Day06Puzzle.Proposals | src/aoc/yr_2024/day_06/puzzle.py:133-137 | at most one proposal per cell walked |
| Day06Puzzle.ProposalsAreFreeCells | src/aoc/yr_2024/day_06/puzzle.py:269-328 | every proposal of a walk is an untouched cell on the map one step ahead of a walked cell, and none while exiting |
| Day06Puzzle.NonDots | src/aoc/yr_2024/day_06/puzzle.py:261-267 | no more cells than the line has |
| Day06Puzzle.CountChar | src/aoc/yr_2024/day_06/puzzle.py:264 | `str.count` of one character is its multiplicity |
| Day06Puzzle.CountFormulaIsNonDots | src/aoc/yr_2024/day_06/puzzle.py:261-267 | `len(line) - line.count(".") - line.count("#")` counts exactly the other cells |
| Day06Puzzle.CountNonDots | src/aoc/yr_2024/day_06/puzzle.py:261-267 | the sum is never negative |
| Day06Puzzle.WalkTrack | src/aoc/yr_2024/day_06/puzzle.py:129-139 | the walk loop stops at the farthest reachable cell, its marked copy is the map with the walked cells marked, and its proposals are those of the walked cells |
| Day06Puzzle.TrackMark | src/aoc/yr_2024/day_06/puzzle.py:129-211 | a walk up or down leaves `|`, a walk left or right leaves `-` |
| Day06Puzzle.ReachEnd | src/aoc/yr_2024/day_06/puzzle.py:133-134 | the cell at the reach is on the map and its next step is blocked |
| Day06Puzzle.LegEnd | src/aoc/yr_2024/day_06/puzzle.py:129-148 | where a `find_obstacle_*` walk stops: on the map, with the next step blocked |
| Day06Puzzle.Step | src/aoc/yr_2024/day_06/puzzle.py:129-148 | one successful `find_obstacle_*` call (walk, mark, turn) keeps the map's shape and the guard on it with a heading |
| Day06Puzzle.Round | src/aoc/yr_2024/day_06/puzzle.py:375-376 | one round of the `part1` loop keeps the map's shape, and changes nothing once the guard is exiting |
| Day06Puzzle.Patrol | src/aoc/yr_2024/day_06/puzzle.py:375-376 | any number of rounds keeps the map's shape and the guard on it with a heading |
| Day06Puzzle.PatrolStaysExiting | src/aoc/yr_2024/day_06/puzzle.py:375-376 | once the guard is exiting, further rounds leave the state as it is, so the loop's exit is final |
| Day06Puzzle.MarkCellCounted | src/aoc/yr_2024/day_06/puzzle.py:74-84 | whatever the cell held, a track mark written by `replace_char` leaves a cell `count_non_dots` counts |
| Day06Puzzle.StepCounts | src/aoc/yr_2024/day_06/puzzle.py:261-267 | after one walk a cell is counted exactly when it was counted before or the guard walked over it, and the guard's new cell is counted |
| Day06Puzzle.PatrolCounts | src/aoc/yr_2024/day_06/puzzle.py:261-267 | after any number of rounds a cell is counted exactly when it was counted at the start or the guard walked over it in some round, so the cells the `part1` answer counts are the starting ones plus those the guard walked over |
| Day06Puzzle.Puzzle.constructor | src/aoc/yr_2024/day_06/puzzle.py:56-71 | the guard is found by the corrected search, the heading read from its cell, every list empty and every counter 0 |
| Day06Puzzle.Puzzle.Turn | src/aoc/yr_2024/day_06/puzzle.py:115-127 | ValueError and no change for a direction other than "right" unless exiting; otherwise turns right (kept when exiting), resets `steps` and marks the guard's cell `+`; nothing else changes |
| Day06Puzzle.Puzzle.Walk | src/aoc/yr_2024/day_06/puzzle.py:129-139 | the guard moves to its reach, the step counters grow by the cells walked, the map becomes the marked copy and the proposals are appended |
| Day06Puzzle.Puzzle.FindObstacleUp | src/aoc/yr_2024/day_06/puzzle.py:129-148 | the guard ends at its reach upwards, the step counters grow by the cells walked and the proposals of the walked cells are appended; ValueError when that stop is already in `stops_up`, leaving the marked map and the heading; otherwise it is appended there, the guard's new state is one `Step` and the stop is returned |
| Day06Puzzle.Puzzle.FindObstacleRight | src/aoc/yr_2024/day_06/puzzle.py:150-169 | the same going right: the stop is checked against `stops_right` but appended to `stops_up`; the new state is one `Step`, or the marked map on ValueError |
| Day06Puzzle.Puzzle.FindObstacleDown | src/aoc/yr_2024/day_06/puzzle.py:171-190 | the same going down: checked against `stops_down`, appended to `stops_up`; the new state is one `Step`, or the marked map on ValueError |
| Day06Puzzle.Puzzle.FindObstacleLeft | src/aoc/yr_2024/day_06/puzzle.py:192-211 | the same going left: checked against `stops_left`, appended to `stops_up`; the new state is one `Step`, or the marked map on ValueError |
| Day06Puzzle.Puzzle.Leg | src/aoc/yr_2024/day_06/puzzle.py:235-244 | the walker of the current heading: the guard ends at its stop, counters and proposals grow by the walk, and the new state is one `Step` unless the stop repeats (ValueError) |
| Day06Puzzle.Puzzle.FindObstacle | src/aoc/yr_2024/day_06/puzzle.py:225-254 | nothing changes when the guard is exiting; otherwise it walks as `Leg` does; on success the new state is one `Round` and `counter` grows exactly when the guard is not exiting afterwards |
| Day06Puzzle.Puzzle.Part1 | src/aoc/yr_2024/day_06/puzzle.py:375-379 | only ValueError from a repeated stop; otherwise the state after the rounds is `Patrol`'s, the answer is present exactly when the guard is exiting, and it is the count of marked cells (which `PatrolCounts` characterises) |
| Day06Puzzle2.Position.constructor | src/aoc/yr_2024/day_06/puzzle_2.py:55-58 | a position holds the given row and column |
| Day06Puzzle2.Position.Add | src/aoc/yr_2024/day_06/puzzle_2.py:69-76 | with a tuple: TypeError exactly when it has not two entries; otherwise a fresh position at the sum |
| Day06Puzzle2.Position.AddPosition | src/aoc/yr_2024/day_06/puzzle_2.py:69-72 | with a position: a fresh position at the sum |
| Day06Puzzle2.Position.IAdd | src/aoc/yr_2024/day_06/puzzle_2.py:78-87 | TypeError and no change for a tuple without two entries; otherwise the position moves in place and `+=` rebinds the name to None |
| Day06Puzzle2.Position.Lt | src/aoc/yr_2024/day_06/puzzle_2.py:89-104 | true exactly when the offset from this position to the other has a positive dot product with the direction, so the other lies ahead; never true in both orders |
| Day06Puzzle2.IncrIsIncrements | src/aoc/yr_2024/day_06/puzzle_2.py:116 | the per-heading increments are the `INCREMENTS` table |
| Day06Puzzle2.ProjectionOnIsDotProduct | src/aoc/yr_2024/day_06/puzzle_2.py:89-104 | the projection on a heading is the dot product `lt` computes |
| Day06Puzzle2.LtIsProjectionOn | src/aoc/yr_2024/day_06/puzzle_2.py:89-104 | `lt` along a heading compares the projections on that heading |
| Day06Puzzle2.ProjectionAlongHeading | src/aoc/yr_2024/day_06/puzzle_2.py:89-104 | walking `k` cells ahead raises the projection by exactly `k` |
| Day06Puzzle2.LtAlongHeading | src/aoc/yr_2024/day_06/puzzle_2.py:89-104 | `lt` along a heading orders the cells of a line as walking does |
| Day06Puzzle2.Slide | src/aoc/yr_2024/day_06/puzzle_2.py:214-251 | the walker loop stops at the farthest cell reachable in the heading, on the map, with no further step possible |
| Day06Puzzle2.Listed | src/aoc/yr_2024/day_06/puzzle_2.py:253-260 | after `add_obstacle(end)` the same headings have lists and `end` is listed under the heading |
| Day06Puzzle2.TourLeg | src/aoc/yr_2024/day_06/puzzle_2.py:346-351 | one pass of the `part2` loop body keeps the map's shape, the guard on the map with a heading and a list per heading |
| Day06Puzzle2.TourRound | src/aoc/yr_2024/day_06/puzzle_2.py:345-351 | the same for one test of the loop, and nothing changes once the guard is exiting |
| Day06Puzzle2.Toured | src/aoc/yr_2024/day_06/puzzle_2.py:345-351 | any number of passes keeps the map's shape, the guard on the map with a heading and a list per heading |
| Day06Puzzle2.TourStaysExiting | src/aoc/yr_2024/day_06/puzzle_2.py:345-351 | once the guard is exiting further passes leave the state as it is, so the loop's exit is final |
| Day06Puzzle2.TourFoundGrows | src/aoc/yr_2024/day_06/puzzle_2.py:345-351 | passes only append to the proposed obstacles |
| Day06Puzzle2.TourFound | src/aoc/yr_2024/day_06/puzzle_2.py:345-351 | every obstacle proposed during the passes was proposed by `find_all_loop_spots` on the leg of some pass at which the guard was not exiting |
| Day06Puzzle2.TourLegIs | src/aoc/yr_2024/day_06/puzzle_2.py:346-351 | the loop body's fields, found one by one, make up `TourLeg` |
| Day06Puzzle2.Puzzle.constructor | src/aoc/yr_2024/day_06/puzzle_2.py:118-131 | the guard is found by the corrected search, its heading read from its cell, one empty stop list per heading |
| Day06Puzzle2.Puzzle.Turn | src/aoc/yr_2024/day_06/puzzle_2.py:205-212 | turns right unless exiting, then marks the guard's cell `+` |
| Day06Puzzle2.Puzzle.FindObstacleUp | src/aoc/yr_2024/day_06/puzzle_2.py:214-221 | from the given position (default the guard's cell) the farthest cell reachable going up |
| Day06Puzzle2.Puzzle.FindObstacleRight | src/aoc/yr_2024/day_06/puzzle_2.py:223-231 | the same going right |
| Day06Puzzle2.Puzzle.FindObstacleDown | src/aoc/yr_2024/day_06/puzzle_2.py:233-241 | the same going down |
| Day06Puzzle2.Puzzle.FindObstacleLeft | src/aoc/yr_2024/day_06/puzzle_2.py:243-251 | the same going left |
| Day06Puzzle2.Puzzle.AddObstacle | src/aoc/yr_2024/day_06/puzzle_2.py:253-260 | the stop is listed under the current heading afterwards, appended only when it was not there |
| Day06Puzzle2.Puzzle.FindObstacle | src/aoc/yr_2024/day_06/puzzle_2.py:262-281 | the start itself when the guard is exiting, otherwise the stop from the start in the given heading, on the map; `counter` grows when the guard is not exiting |
| Day06Puzzle2.Puzzle.FindAllLoopSpots | src/aoc/yr_2024/day_06/puzzle_2.py:296-315 | appends exactly the proposals of the cells strictly between the two stops and counts one `find_obstacle` per tested cell |
| Day06Puzzle2.Puzzle.Leg | src/aoc/yr_2024/day_06/puzzle_2.py:346-351 | one pass of the loop body from a guard that is not exiting: the new state is `TourRound`'s, proposals are only appended, and `counter` grows by one plus the cells tested on the leg |
| Day06Puzzle2.Puzzle.Part2 | src/aoc/yr_2024/day_06/puzzle_2.py:345-359 | the state after the passes is `Toured`'s, the answer is present exactly when the guard is exiting, and it is the number of distinct proposed obstacles; the proposals only grow, and each new one comes from a walked leg (`TourFound`) |
| Day06Puzzle2.ScanLeg | src/aoc/yr_2024/day_06/puzzle_2.py:296-315 | the scan loop yields exactly the leg's proposals and tests each cell strictly between the stops |
| Day06Puzzle2.OnLegIsOnMap | src/aoc/yr_2024/day_06/puzzle_2.py:300-301 | a cell of a leg no further along than its stop is on the map |
| Day06Puzzle2.ObstacleFromTestedCell | src/aoc/yr_2024/day_06/puzzle_2.py:302-303 | sent off from a tested cell, `find_obstacle` answers the stop from it, on the map |
| Day06Puzzle2.LoopSpotsFrom | src/aoc/yr_2024/day_06/puzzle_2.py:296-315 | at most one proposal per cell of the leg |
| Day06Puzzle2.LoopSpotsAreRevisits | src/aoc/yr_2024/day_06/puzzle_2.py:296-315 | every proposal lies one cell past a tested cell of the leg, from which the guard, turned right, stops where it already stopped in that heading |
| Day06Puzzle2.NoStopsNoSpots | src/aoc/yr_2024/day_06/puzzle_2.py:308-312 | with no stop listed for the right-turn heading nothing is proposed |
| Day06Backup.CheckForLoop | src/aoc/yr_2024/day_06/puzzle_2.bkp.py:309-311 | hands its argument back unchanged |
| Day06Backup.FindLoopPos | src/aoc/yr_2024/day_06/puzzle_2.bkp.py:313-327 | a position exactly when heading up with the stop no lower than the start, and then the start itself |
| Day06Backup.Puzzle.constructor | src/aoc/yr_2024/day_06/puzzle_2.bkp.py:96-109 | the guard is found by the corrected search, its heading read from its cell, one empty stop list per heading, counters 0 |
| Day06Backup.Puzzle.NextDirection | src/aoc/yr_2024/day_06/puzzle_2.bkp.py:165-169 | the heading one index further, cyclically, different from the current one |
| Day06Backup.Puzzle.Turn | src/aoc/yr_2024/day_06/puzzle_2.bkp.py:171-178 | turns right unless exiting, whatever the argument says, then marks the guard's cell `+` |
| Day06Backup.Puzzle.FindObstacleUp | src/aoc/yr_2024/day_06/puzzle_2.bkp.py:180-185 | the farthest cell reachable going up, in the guard's column, with no further step possible |
| Day06Backup.Puzzle.FindObstacleRight | src/aoc/yr_2024/day_06/puzzle_2.bkp.py:187-192 | the same going right, in the guard's row |
| Day06Backup.Puzzle.FindObstacleDown | src/aoc/yr_2024/day_06/puzzle_2.bkp.py:194-199 | the same going down |
| Day06Backup.Puzzle.FindObstacleLeft | src/aoc/yr_2024/day_06/puzzle_2.bkp.py:201-206 | the same going left |
| Day06Backup.Puzzle.AddObstacle | src/aoc/yr_2024/day_06/puzzle_2.bkp.py:208-214 | ValueError and no change exactly when the stop is listed under the current heading; otherwise it is appended there |
| Day06Backup.Puzzle.FindObstacle | src/aoc/yr_2024/day_06/puzzle_2.bkp.py:216-233 | the guard's cell when exiting, otherwise its stop in its heading; `counter` grows when not exiting |
| Day06Backup.Puzzle.WouldMakeLoop | src/aoc/yr_2024/day_06/puzzle_2.bkp.py:248-307 | appends and returns the first version's candidate; heading left never proposes anything, since `steps` stays 0 |
| Day06Backup.Puzzle.Part1 | src/aoc/yr_2024/day_06/puzzle_2.bkp.py:330-339 | the guard never moves, so the loop ends exactly when it starts out exiting, and then answers the count of marked cells |
| Day06Backup.Puzzle.Part2 | src/aoc/yr_2024/day_06/puzzle_2.bkp.py:352-364 | TypeError exactly when the guard does not start out exiting, since the first round hands `find_loop_pos` the guard's Position object, which it cannot unpack; otherwise the count of marked cells; nothing is ever proposed |
| Day07.Divisible | src/aoc/yr_2024/day_07/puzzle.py:36-37 | ZeroDivisionError exactly for a zero divisor; otherwise true exactly when the divisor divides |
| Day07.Solvable | src/aoc/yr_2024/day_07/puzzle.py:40-64 | False for no numbers; True when the numbers add up to the target |
| Day07.SingleNumber | src/aoc/yr_2024/day_07/puzzle.py:40-64 | a single number answers True when it is the target, False when it only divides it, None otherwise; truthy exactly when it is the target |
| Day07.SumIsAValue | src/aoc/yr_2024/day_07/puzzle.py:49-51 | adding all the numbers is one of the left-to-right evaluations |
| Day07.MulDivCancel | src/aoc/yr_2024/day_07/puzzle.py:63-64 | multiplying by a positive number and dividing again gives back the value |
| Day07.SolvableStep | src/aoc/yr_2024/day_07/puzzle.py:46-64 | one step: truthy exactly for the sum, a solvable subtraction, or a solvable exact division |
| Day07.ValuesStep | src/aoc/yr_2024/day_07/puzzle.py:46-64 | one step of the evaluations: the last number was added or multiplied |
| Day07.SolvableIffSomeEvaluation | src/aoc/yr_2024/day_07/puzzle.py:40-64 | for positive numbers `solvable` is truthy exactly when some left-to-right evaluation with `+` and `*` gives the target |
| Day07.Part1 | src/aoc/yr_2024/day_07/puzzle.py:67-74 | the sum of the targets of the lines `solvable` accepts is non-negative for non-negative targets and 0 when no line has numbers (which targets it sums: Part1SumsReachableTargets) |
| Day07.Part1SumsReachableTargets | src/aoc/yr_2024/day_07/puzzle.py:68-74 | with positive numbers `part1` sums exactly the targets some evaluation of their line reaches |
| Day08.ReplaceChar | src/aoc/yr_2024/day_08/puzzle.py:72-76 | ValueError exactly for an index outside the string; otherwise the same length with only index `n` changed, to `ch` |
| Day08.ElementsAreCells | src/aoc/yr_2024/day_08/puzzle.py:112-116 | the `elements` list holds every cell once, with its own character, in row-major order |
| Day08.CoordsOfSound | src/aoc/yr_2024/day_08/puzzle.py:119-122 | the coordinates listed with a character are exactly those of its pairs, in list order |
| Day08.GroupIsCoordsOf | src/aoc/yr_2024/day_08/puzzle.py:118-123 | the grouping has a key exactly for each listed character not ignored, holding its listed coordinates |
| Day08.GetCoordsWithCounter | src/aoc/yr_2024/day_08/puzzle.py:108-124 | the grouping loop builds exactly that dictionary |
| Day08.CoordsWithCounterExact | src/aoc/yr_2024/day_08/puzzle.py:108-124 | a key for each character on the map that is not ignored, holding every cell with that character once, in row-major order |
| Day08.PairsCount | src/aoc/yr_2024/day_08/puzzle.py:126-128 | `combinations(items, 2)` yields n(n-1)/2 pairs |
| Day08.PairsMembership | src/aoc/yr_2024/day_08/puzzle.py:126-128 | the pairs are exactly `(items[i], items[j])` with `i < j` |
| Day08.AntinodePair | src/aoc/yr_2024/day_08/puzzle.py:130-134 | the antinodes `x + (x - y)` and `y + (y - x)` |
| Day08.KeepPositionsInGrid | src/aoc/yr_2024/day_08/puzzle.py:147-149 | exactly the positions inside the bounds, a sub-multiset of the input |
| Day08.AllAntinodesMembership | src/aoc/yr_2024/day_08/puzzle.py:138-142 | a point is listed exactly when it is an antinode of one of the pairs |
| Day08.FindAntinodesAntennaList | src/aoc/yr_2024/day_08/puzzle.py:136-145 | without repeats and sorted by (row, col); a point is listed exactly when it is an antinode of two of the antennas and lies on the map |
| Day08.PairAntinodeIsAntinode | src/aoc/yr_2024/day_08/puzzle.py:136-145 | an antinode of a listed pair lies at `2a - b` for two antennas at different places |
| Day08.AntinodeIsPairAntinode | src/aoc/yr_2024/day_08/puzzle.py:136-145 | every such point is the antinode of a listed pair |
| Day08.AntennaListAntinodes | src/aoc/yr_2024/day_08/puzzle.py:136-145 | the list holds, once each and sorted by (row, col), exactly the antinodes of pairs of antennas that lie on the map |
| Day08.FilterKeepsOrder | src/aoc/yr_2024/day_08/puzzle.py:147-149 | filtering a sorted list without repeats keeps both |
| Day08.FindAllAntinodes | src/aoc/yr_2024/day_08/puzzle.py:151-158 | one antinode list per frequency found on the map |
| Day08.CellsOfFrequency | src/aoc/yr_2024/day_08/puzzle.py:108-124 | a frequency's list holds exactly its cells, each once |
| Day08.ListedAntinodeIsFrequencyAntinode | src/aoc/yr_2024/day_08/puzzle.py:151-158 | an antinode of a frequency's listed cells is an antinode of that frequency |
| Day08.FrequencyAntinodeIsListed | src/aoc/yr_2024/day_08/puzzle.py:151-158 | an antinode of a frequency is an antinode of its listed cells |
| Day08.FrequencyIsListed | src/aoc/yr_2024/day_08/puzzle.py:151-158 | a frequency with an antinode has a list |
| Day08.CountedAntinodes | src/aoc/yr_2024/day_08/puzzle.py:167-169 | a point is counted exactly when it is on the map and lies at `2a - b` for two different cells holding the same frequency (any character but `.`) |
| Day08.CountDistinctAntinodes | src/aoc/yr_2024/day_08/puzzle.py:167-169 | the size of the union of all frequencies' antinodes, and a point is in that union exactly when it is on the map and lies at `2a - b` for two different cells of one frequency other than `.` |
| Day09.DataAppend | src/aoc/yr_2024/day_09/puzzle.py:152-180 | the ids stored in two lists of blocks are those of each |
| Day09.Regroup | src/aoc/yr_2024/day_09/puzzle.py:115-138 | ids appended to the map and ids taken from the blocks balance |
| Day09.DataUpdate | src/aoc/yr_2024/day_09/puzzle.py:57-74 | taking ids off one block removes exactly those ids from the list |
| Day09.ParsePairs | src/aoc/yr_2024/day_09/puzzle.py:35-37 | ValueError exactly when a character is not a digit; otherwise one block per pair of characters |
| Day09.ParsePairsBlocks | src/aoc/yr_2024/day_09/puzzle.py:35-37 | block `k` has index `k`, its length from digit `2k` and its spaces from digit `2k+1` |
| Day09.Encode | src/aoc/yr_2024/day_09/puzzle.py:26-40 | writing blocks back gives two digits per block |
| Day09.ParsePairsNumbered | src/aoc/yr_2024/day_09/puzzle.py:35-37 | the blocks read are numbered from 0 and hold single digits |
| Day09.ParsePairsEncode | src/aoc/yr_2024/day_09/puzzle.py:35-37 | reading pairs and writing them back gives the same digits |
| Day09.EncodeParsePairs | src/aoc/yr_2024/day_09/puzzle.py:35-37 | writing numbered blocks as digits and reading them back gives the same blocks |
| Day09.ReadData | src/aoc/yr_2024/day_09/puzzle.py:26-40 | with the "0" appended: AssertionError exactly when the text has an even length, ValueError when a character is not a digit, otherwise one block per pair of digits |
| Day09.ReadDataRoundTrip | src/aoc/yr_2024/day_09/puzzle.py:26-40 | `read_data` round trip: the blocks read write back to the disk map plus the added "0"; numbered blocks whose last has no spaces are read back from their digits |
| Day09.TakeStep | src/aoc/yr_2024/day_09/puzzle.py:120-132 | one round of the `add_n_from_end` loop: the next block from the end gives what it can |
| Day09.TakeAppends | src/aoc/yr_2024/day_09/puzzle.py:120-132 | the loop only appends, and appends exactly the ids needed unless it runs off the front |
| Day09.TakeMovesIds | src/aoc/yr_2024/day_09/puzzle.py:120-132 | the loop moves ids from the blocks to the map: none is lost or made up |
| Day09.TakeStepData | src/aoc/yr_2024/day_09/puzzle.py:124-128 | one round moves the ids handed over out of the blocks |
| Day09.Rebalance | src/aoc/yr_2024/day_09/puzzle.py:120-132 | ids appended in one round and in the rounds after it balance with those taken |
| Day09.TakeRunsOut | src/aoc/yr_2024/day_09/puzzle.py:120-132 | the loop runs off the front exactly when more ids are needed than the unvisited blocks hold |
| Day09.UnvisitedStep | src/aoc/yr_2024/day_09/puzzle.py:120-132 | visiting a block leaves its ids out of the unvisited ones |
| Day09.DropEmptyTail | src/aoc/yr_2024/day_09/puzzle.py:102-112 | a prefix of the blocks, ending in a non-empty block, with only empty blocks dropped |
| Day09.DropEmptyTailIs | src/aoc/yr_2024/day_09/puzzle.py:102-112 | the kept prefix ends at the last non-empty block |
| Day09.DropEmptyTailKeepsData | src/aoc/yr_2024/day_09/puzzle.py:102-112 | dropping empty blocks loses no ids from any suffix of the list |
| Day09.SuffixSnoc | src/aoc/yr_2024/day_09/puzzle.py:152-180 | a suffix of a list that ends in a block is the suffix of the rest, plus that block if it reaches that far |
| Day09.DataSingle | src/aoc/yr_2024/day_09/puzzle.py:66 | a single block stores its index `length` times |
| Day09.AddNConserves | src/aoc/yr_2024/day_09/puzzle.py:115-138 | fails exactly when the blocks are not empty and hold fewer ids than needed; otherwise appends exactly that many ids (none with no blocks), moved out of the blocks |
| Day09.TakeAfter | src/aoc/yr_2024/day_09/puzzle.py:152-180 | corrected: taking only from the blocks after the one being filled keeps the list's length |
| Day09.DataSliceUpdate | src/aoc/yr_2024/day_09/puzzle.py:57-74 | taking ids off a block at or after a position removes exactly those ids from the suffix there |
| Day09.TakeAfterStep | src/aoc/yr_2024/day_09/puzzle.py:120-132 | one round of the corrected loop |
| Day09.TakeAfterStepData | src/aoc/yr_2024/day_09/puzzle.py:124-128 | one round of the corrected loop moves the ids handed over out of the blocks |
| Day09.TakeAfterShape | src/aoc/yr_2024/day_09/puzzle.py:120-132 | the corrected loop changes only blocks after the one being filled and only appends ids |
| Day09.TakeAfterMovesIds | src/aoc/yr_2024/day_09/puzzle.py:120-132 | the ids appended are exactly the ids the blocks after the one being filled lose |
| Day09.DataFirst | src/aoc/yr_2024/day_09/puzzle.py:152-180 | the ids of a suffix are those of its first block plus the rest |
| Day09.FillFromStep | src/aoc/yr_2024/day_09/puzzle.py:166-172 | one block of the corrected fill: its ids, then its spaces from the blocks after it |
| Day09.FillFromConserves | src/aoc/yr_2024/day_09/puzzle.py:152-180 | from a block on, the corrected fill writes exactly the ids the remaining blocks hold |
| Day09.FillSpacesCorrected | src/aoc/yr_2024/day_09/puzzle.py:152-180 | corrected: the fill neither loses nor repeats an id; it writes exactly the disk's data |
| Day09.GetHashShift | src/aoc/yr_2024/day_09/puzzle.py:145-150 | a value put in front moves every other value one place right |
| Day09.GetHash | src/aoc/yr_2024/day_09/puzzle.py:145-150 | the value at position 0 does not count, and a list of ids, never negative, hashes to a non-negative sum |
| Day09.FillSpacesRepeatsIds | src/aoc/yr_2024/day_09/puzzle.py:152-180 | as written: on "10131" `fill_spaces` writes [0, 1, 2, 1, 0], repeating ids 1 and 0, and `part1` answers 8 |
| Day09.ReadExample | src/aoc/yr_2024/day_09/puzzle.py:26-40 | "10131" is read as three blocks of length 1, the second with three spaces |
| Day09.FillFirstStep | src/aoc/yr_2024/day_09/puzzle.py:166-172 | block 0 has no spaces: nothing is taken |
| Day09.TakeExample | src/aoc/yr_2024/day_09/puzzle.py:120-132 | block 1's three spaces take block 2, then block 1 itself, then block 0 |
| Day09.FillSecondStep | src/aoc/yr_2024/day_09/puzzle.py:152-180 | every block is then empty and dropped, so the loop stops |
| Day09.ExampleCounts | src/aoc/yr_2024/day_09/puzzle.py:152-180 | id 1 is written twice but stored once |
| Day09.ExampleHash | src/aoc/yr_2024/day_09/puzzle.py:145-150 | the hash of [0, 1, 2, 1, 0] is 8 |
| Day09.FillSpacesCorrectedExample | src/aoc/yr_2024/day_09/puzzle.py:152-180 | corrected: on the same disk map each id is written once and the hash is 5 |
| Day09.Block.constructor | src/aoc/yr_2024/day_09/puzzle.py:43-47 | a block holds its index, length and spaces |
| Day09.Block.RemoveNFromEnd | src/aoc/yr_2024/day_09/puzzle.py:57-74 | hands over `min(n, length)` copies of the index, lowers the length by as many, and reports how many are still needed |
| Day09.SnapPrefix | src/aoc/yr_2024/day_09/puzzle.py:102-112 | the values of a prefix of the blocks are a prefix of their values |
| Day09.SnapAfterRemove | src/aoc/yr_2024/day_09/puzzle.py:57-74 | lowering one block's length changes that block's value and no other |
| Day09.RemoveEmptyBlocksFromEnd | src/aoc/yr_2024/day_09/puzzle.py:102-112 | a prefix of the same block objects, whose values are those of `DropEmptyTail` |
| Day09.TakeFromEnd | src/aoc/yr_2024/day_09/puzzle.py:118-132 | the loop, lowering lengths in place, does what `Take` specifies |
| Day09.TakeFromBlock | src/aoc/yr_2024/day_09/puzzle.py:122-129 | one round: the block `cur_block` from the end gives `min(needed, length)` copies of its index, `needed` drops by that many, and only that block's length changes |
| Day09.AddNFromEnd | src/aoc/yr_2024/day_09/puzzle.py:115-138 | IndexError exactly when `AddN` fails; otherwise the same map, and the blocks it leaves are what `Take` specifies |
| Day09.FillSpaces | src/aoc/yr_2024/day_09/puzzle.py:152-180 | the in-place loop over the blocks answers what `Fill` specifies |
| Day09.ReadBlocks | src/aoc/yr_2024/day_09/puzzle.py:35-37 | one fresh block per pair, all distinct, with the values read |
| Day09.Part1 | src/aoc/yr_2024/day_09/puzzle.py:182-189 | reads, fills and hashes as `Part1Of` specifies |
| Day10.Get | src/aoc/pyutils/grid.py:41-45 | the cell exactly on the grid; IndexError off it |
| Day10.RowZeros | src/aoc/yr_2024/day_10/puzzle.py:62-69 | the cells of one row holding `0`, left to right |
| Day10.ZerosBefore | src/aoc/yr_2024/day_10/puzzle.py:62-69 | the cells holding `0` in the first rows, in row-major order |
| Day10.AppendRowMajor | src/aoc/yr_2024/day_10/puzzle.py:62-69 | a point after every point of a row-major list extends it |
| Day10.ConcatRowMajor | src/aoc/yr_2024/day_10/puzzle.py:62-69 | two row-major lists, the first wholly before the second, join row-major |
| Day10.FindTrailHeads | src/aoc/yr_2024/day_10/puzzle.py:62-69 | exactly the cells holding `0`, in row-major order |
| Day10.EqualsRef | src/aoc/yr_2024/day_10/puzzle.py:90-95 | true exactly when the cell is the digit of the reference value; a non-digit gives False, not ValueError |
| Day10.Adjacent | src/aoc/pyutils/grid.py:71-79 | the in-grid cells at distance one, in the grid scan's row-major order |
| Day10.NeighboursAtOne | src/aoc/pyutils/grid.py:71-79 | up, left, right and down are the points at distance one, in row-major order |
| Day10.KeepIf | src/aoc/yr_2024/day_10/puzzle.py:82-87 | the comprehension keeps exactly the points that pass, and a row-major list stays row-major |
| Day10.KeepIfAppend | src/aoc/yr_2024/day_10/puzzle.py:82-87 | the comprehension is a filter in order: over two lists in turn it is the filter of the first followed by the filter of the second, and one point stays exactly when it passes |
| Day10.FirstIsLeast | src/aoc/pyutils/grid.py:71-79 | the first point of a row-major list comes before every other |
| Day10.RowMajorUnique | src/aoc/pyutils/grid.py:71-79 | two row-major lists of the same points are the same list |
| Day10.AdjacentIsPositionsWithinOne | src/aoc/pyutils/grid.py:71-79 | `positions_within_dist(row, col, 1)` returns exactly these neighbours |
| Day10.KeepLast | src/aoc/yr_2024/day_10/puzzle.py:82-87 | a sublist of the front of a row-major list followed by its last point is row-major |
| Day10.AdjacentP1Points | src/aoc/yr_2024/day_10/puzzle.py:79-88 | IndexError off the grid, ValueError on a non-digit; otherwise exactly the neighbours one higher, in row-major order |
| Day10.AllDigitCellsCons | src/aoc/yr_2024/day_10/puzzle.py:97-107 | a list of positions is all digit cells exactly when its head and its tail are |
| Day10.AdjacentAll | src/aoc/yr_2024/day_10/puzzle.py:102 | the per-position lists, stopping at the first exception: each lists the one-up neighbours of its position |
| Day10.ConsSteps | src/aoc/yr_2024/day_10/puzzle.py:102 | per-position lists extend by a head |
| Day10.AdjacentP1PointsList | src/aoc/yr_2024/day_10/puzzle.py:97-107 | raises exactly when some position is off the grid or not a digit; otherwise every one-up neighbour of some position, once each |
| Day10.ReachSetStep | src/aoc/yr_2024/day_10/puzzle.py:122-135 | a cell is reached in `k` steps exactly when a cell reached in `k - 1` steps steps up to it |
| Day10.ReachSetHeights | src/aoc/yr_2024/day_10/puzzle.py:122-135 | every cell reached in `k` steps holds the start's digit plus `k` |
| Day10.NextReaches | src/aoc/yr_2024/day_10/puzzle.py:97-107 | one round from the cells reached in `j` steps lists those reached in `j + 1` |
| Day10.ClimbReaches | src/aoc/yr_2024/day_10/puzzle.py:124-134 | `k` more rounds list the cells reached in `j + k` steps |
| Day10.ClimbStep | src/aoc/yr_2024/day_10/puzzle.py:124-134 | a round that does not raise hands its list to the rounds after it |
| Day10.CountPeaksIsReachable | src/aoc/yr_2024/day_10/puzzle.py:122-135 | raises exactly when the head is off the grid or not a digit; otherwise the number of distinct cells nine one-up steps reach |
| Day10.ClimbCount | src/aoc/yr_2024/day_10/puzzle.py:124-134 | `k` more rounds count the cells reached in `j + k` steps |
| Day10.OnesReach | src/aoc/yr_2024/day_10/puzzle.py:124-125 | the one-up neighbours list the cells reached in one step |
| Day10.OneStepReach | src/aoc/yr_2024/day_10/puzzle.py:124-125 | the cells reached in one step are the one-up neighbours |
| Day10.RowMajorDistinct | src/aoc/pyutils/grid.py:71-79 | a strictly row-major list has no repeats |
| Day10.PeaksAreNines | src/aoc/yr_2024/day_10/puzzle.py:122-135 | from a trailhead the cells nine steps up hold `9` |
| Day10.PeakCounts | src/aoc/yr_2024/day_10/puzzle.py:199-202 | one count per trailhead |
| Day10.AllOk | src/aoc/yr_2024/day_10/puzzle.py:199-202 | the values of a list of results, or the first exception among them |
| Day10.AllOkValues | src/aoc/yr_2024/day_10/puzzle.py:199-202 | when every result is a value the values come back |
| Day10.PeakCountsAreScores | src/aoc/yr_2024/day_10/puzzle.py:199-202 | no trailhead's count raises, and each count is the number of distinct cells nine one-up steps from it |
| Day10.Part1 | src/aoc/yr_2024/day_10/puzzle.py:180-204 | part 1 never raises and adds up, over every trailhead, the number of distinct cells nine one-up steps reach |
| Day11.DecimalAppend | src/aoc/yr_2024/day_11/puzzle.py:46-53 | reading two digit strings side by side is the first shifted past the second, plus the second |
| Day11.ShiftDigit | src/aoc/yr_2024/day_11/puzzle.py:46-53 | one more digit shifts the value by ten |
| Day11.DecimalBelow | src/aoc/yr_2024/day_11/puzzle.py:46-53 | a digit string reads as less than ten to its length |
| Day11.DecimalAtLeast | src/aoc/yr_2024/day_11/puzzle.py:46-53 | a digit string not starting with `0` reads as at least ten to its length minus one |
| Day11.ToDecimalLeading | src/aoc/yr_2024/day_11/puzzle.py:48 | `str(n)` of a positive number does not start with `0` |
| Day11.DecimalLength | src/aoc/yr_2024/day_11/puzzle.py:48-50 | `len(str(n))` is the number of decimal digits of `n` |
| Day11.EvenSplitRecombines | src/aoc/yr_2024/day_11/puzzle.py:46-53 | the two halves of an even-length decimal string, side by side, give the stone back; the right half has at most half the digits and the left exactly half |
| Day11.Rule01 | src/aoc/yr_2024/day_11/puzzle.py:42-44 | a result exactly for stone 0, and that result is `[1]` |
| Day11.RuleEvenDigits | src/aoc/yr_2024/day_11/puzzle.py:46-53 | a result exactly for an even digit count: two stones that, side by side in decimal, give the stone back; the right has at most half the digits and the left exactly half |
| Day11.RuleOther2024 | src/aoc/yr_2024/day_11/puzzle.py:55-57 | one stone, a multiple of 2024 whose quotient is the old stone, larger unless the stone was 0 |
| Day11.ApplyFirstRule | src/aoc/yr_2024/day_11/puzzle.py:59-67 | a stone becomes one or two stones |
| Day11.ApplyFirstRuleCases | src/aoc/yr_2024/day_11/puzzle.py:42-67 | the rules in priority order: 0 becomes 1, then an even digit count splits, then the factor 2024 |
| Day11.Transforms | src/aoc/yr_2024/day_11/puzzle.py:70 | one replacement per stone |
| Day11.TransformsLength | src/aoc/yr_2024/day_11/puzzle.py:69-72 | the flattened replacements number between one and two per stone |
| Day11.BlinkAll | src/aoc/yr_2024/day_11/puzzle.py:69-72 | a blink keeps every stone and at most doubles the row |
| Day11.BlinkSnoc | src/aoc/yr_2024/day_11/puzzle.py:69-72 | a blink of a list with one more stone ends with that stone's replacement |
| Day11.BlinkAppend | src/aoc/yr_2024/day_11/puzzle.py:69-72 | a blink of two rows side by side is their blinks side by side |
| Day11.BlinkTimes | src/aoc/yr_2024/day_11/puzzle.py:127-134 | `k` blinks never lose a stone, and no stones stay no stones |
| Day11.Puzzle.constructor | src/aoc/yr_2024/day_11/puzzle.py:38-40 | the puzzle holds the stones given |
| Day11.Puzzle.Blink | src/aoc/yr_2024/day_11/puzzle.py:69-72 | every stone replaced, flattened, stored and returned |
| Day11.Part1 | src/aoc/yr_2024/day_11/puzzle.py:127-134 | the number of stones after `blinks` blinks (none when it is not positive) |
| Day11.BlinkBagRemove | src/aoc/yr_2024/day_11/puzzle.py:97-108 | the Counter of one blink does not depend on which stone is taken first |
| Day11.BlinkBagOfList | src/aoc/yr_2024/day_11/puzzle.py:97-108 | the Counter of a row's blink is the blink of the row's Counter |
| Day11.ScaledZero | src/aoc/yr_2024/day_11/puzzle.py:103-108 | no copies of anything |
| Day11.ScaledOneMore | src/aoc/yr_2024/day_11/puzzle.py:103-108 | one more copy of each stone |
| Day11.BlinkBagAll | src/aoc/yr_2024/day_11/puzzle.py:97-108 | all copies of a stone are handled at once by adding its count |
| Day11.BlinkBagOneMore | src/aoc/yr_2024/day_11/puzzle.py:97-108 | one copy and then the other `n` make all `n + 1` |
| Day11.DropOneThenAll | src/aoc/yr_2024/day_11/puzzle.py:97-108 | removing one copy then all copies removes all copies |
| Day11.DropAllSmaller | src/aoc/yr_2024/day_11/puzzle.py:97-108 | the Counter without a stone is smaller |
| Day11.BlinkCounter | src/aoc/yr_2024/day_11/puzzle.py:93-108 | the loop builds exactly the blink of the Counter |
| Day11.AddEach | src/aoc/yr_2024/day_11/puzzle.py:102-108 | `output[new_stone] += to_add` for each new stone adds `to_add` copies of each |
| Day11.BagTimesEmpty | src/aoc/yr_2024/day_11/puzzle.py:83-85 | an empty Counter stays empty |
| Day11.BagTimesOfList | src/aoc/yr_2024/day_11/puzzle.py:74-119 | the Counter after `k` blinks is the Counter of the row after `k` blinks |
| Day11.BagTimesStepUp | src/aoc/yr_2024/day_11/puzzle.py:79-111 | if the Counter after `j` blinks is the Counter of the row after `j` blinks, the same holds after `j + 1` |
| Day11.BagTimesLast | src/aoc/yr_2024/day_11/puzzle.py:79-111 | the last of `k` blinks of a Counter is one blink of the Counter after `k - 1` |
| Day11.BlinkTimesShift | src/aoc/yr_2024/day_11/puzzle.py:109 | one blink followed by `k - 1` is `k` blinks |
| Day11.Helper | src/aoc/yr_2024/day_11/puzzle.py:79-110 | an empty Counter stays empty, at `acc >= blinks` the Counter is the answer, otherwise blink once and recurse: `blinks - acc` blinks of the Counter |
| Day11.BlinkN | src/aoc/yr_2024/day_11/puzzle.py:74-119 | the Counter's total after `blinks` rounds is the number of stones after that many blinks, as `part1` counts them |
| Day12.MatchingSymmetric | src/aoc/yr_2024/day_12/puzzle.py:39-44 | matching neighbours match both ways |
| Day12.DistanceOneIsNeighbour | src/aoc/yr_2024/day_12/puzzle.py:41 | a point at distance one is one of the four neighbours |
| Day12.NeighbourCount | src/aoc/yr_2024/day_12/puzzle.py:88-94 | at most four sides border the same plant |
| Day12.SubsetCardBound | src/aoc/yr_2024/day_12/puzzle.py:88-94 | a subset is no larger |
| Day12.MatchingSetMembership | src/aoc/yr_2024/day_12/puzzle.py:39-44 | the matching set holds exactly the matching neighbours |
| Day12.ReachRefl | src/aoc/yr_2024/day_12/puzzle.py:46-61 | a cell is in its own region |
| Day12.ReachStep | src/aoc/yr_2024/day_12/puzzle.py:46-61 | a matching step extends a region walk |
| Day12.PathSamePlant | src/aoc/yr_2024/day_12/puzzle.py:46-61 | every cell of a walk grows the plant of its first cell |
| Day12.ReachSamePlant | src/aoc/yr_2024/day_12/puzzle.py:46-61 | cells of one region are on the map and grow the same plant |
| Day12.ReachSym | src/aoc/yr_2024/day_12/puzzle.py:46-61 | being in the same region is symmetric |
| Day12.ReachTrans | src/aoc/yr_2024/day_12/puzzle.py:46-61 | being in the same region is transitive |
| Day12.PathStaysIn | src/aoc/yr_2024/day_12/puzzle.py:46-61 | a walk from a closed set stays in it |
| Day12.ClosedContainsReachable | src/aoc/yr_2024/day_12/puzzle.py:46-61 | a closed set holding a cell holds its whole region |
| Day12.RowMajorIsDistinct | src/aoc/yr_2024/day_12/puzzle.py:39-44 | a strictly row-major list has no repeats |
| Day12.AdjacentMatchingPoints | src/aoc/yr_2024/day_12/puzzle.py:39-44 | IndexError exactly off the grid; otherwise exactly the orthogonal neighbours holding the same plant, in row-major order, as many as `NeighbourCount` |
| Day12.VisitKeepsFrontier | src/aoc/yr_2024/day_12/puzzle.py:52-59 | visiting a cell and queueing its unvisited matching neighbours keeps the frontier closed |
| Day12.PopKeepsFrontier | src/aoc/yr_2024/day_12/puzzle.py:59 | popping a cell to visit next keeps the frontier closed |
| Day12.VisitKeepsReachable | src/aoc/yr_2024/day_12/puzzle.py:52-59 | queued neighbours of a reachable cell are reachable |
| Day12.VisitStep | src/aoc/yr_2024/day_12/puzzle.py:52-59 | a visit keeps the loop invariant and leaves fewer cells unvisited |
| Day12.PopStep | src/aoc/yr_2024/day_12/puzzle.py:59 | a pop keeps the loop invariant |
| Day12.FloodDone | src/aoc/yr_2024/day_12/puzzle.py:46-61 | when the search set runs dry the visited cells are exactly the start's region |
| Day12.ContiguousMatchingRegion | src/aoc/yr_2024/day_12/puzzle.py:46-61 | IndexError exactly off the grid; otherwise exactly the cells in the start's region, all of its plant, closed under matching steps, whatever order the set pops in |
| Day12.UnionContains | src/aoc/yr_2024/day_12/puzzle.py:63-82 | a cell of one region is in the union |
| Day12.UnionWitness | src/aoc/yr_2024/day_12/puzzle.py:63-82 | a cell of the union is in some region |
| Day12.ComponentIsRegion | src/aoc/yr_2024/day_12/puzzle.py:46-61 | the cells reachable from one start form a region |
| Day12.NewRegionDisjoint | src/aoc/yr_2024/day_12/puzzle.py:71-80 | the region of a cell not yet seen shares no cell with the earlier regions |
| Day12.UnionSnoc | src/aoc/yr_2024/day_12/puzzle.py:81 | `points_seen.union(new_region)` adds the new region's cells |
| Day12.AllContiguousRegions | src/aoc/yr_2024/day_12/puzzle.py:63-82 | the regions partition the map: each is a whole region, no two share a cell, every cell is in one |
| Day12.NeighbourTotalRemove | src/aoc/yr_2024/day_12/puzzle.py:92-93 | the summed neighbour counts do not depend on the order the set is iterated |
| Day12.NeighbourTotalBound | src/aoc/yr_2024/day_12/puzzle.py:92-93 | the summed counts are at most four per cell |
| Day12.PerimeterLength | src/aoc/yr_2024/day_12/puzzle.py:88-94 | IndexError exactly when a cell is off the grid; otherwise four sides per cell less one per matching neighbour, between 0 and 4·area |
| Day12.PriceBounds | src/aoc/yr_2024/day_12/puzzle.py:96-100 | area times a perimeter of at most 4·area is between 0 and 4·area² |
| Day12.FencePrice | src/aoc/yr_2024/day_12/puzzle.py:96-100 | IndexError exactly when a cell is off the grid; otherwise area times perimeter, at most 4·area² |
| Day12.AreaSumIsUnionSize | src/aoc/yr_2024/day_12/puzzle.py:63-82 | disjoint regions' areas add up to the size of their union |
| Day12.PartitionCoversEachCellOnce | src/aoc/yr_2024/day_12/puzzle.py:63-82 | a partition's areas add up to the number of cells |
| Day12.Part1 | src/aoc/yr_2024/day_12/puzzle.py:139-146 | the sum of the fence prices of a partition of the map into regions, never negative |
| Day13.ParseCoord | src/aoc/yr_2024/day_13/puzzle.py:48-56 | a failure is IndexError or ValueError |
| Day13.IntTextHasNoSeparators | src/aoc/yr_2024/day_13/puzzle.py:54-55 | the text of a number holds no `X`, `Y` or `,` |
| Day13.SplitAtX | src/aoc/yr_2024/day_13/puzzle.py:54 | splitting a coordinate line at `X` gives the tag and the rest |
| Day13.SplitAtComma | src/aoc/yr_2024/day_13/puzzle.py:54 | splitting the rest at `,` gives the first number's text and the tail |
| Day13.SplitAtY | src/aoc/yr_2024/day_13/puzzle.py:55 | splitting the tail at `Y` gives the second number's text |
| Day13.ParseCoordRoundTrip | src/aoc/yr_2024/day_13/puzzle.py:48-56 | a line `<tag>X<sign><x>, Y<sign><y>` parses back to (x, y), whatever the tag and the sign characters |
| Day13.ParseCoordButtonExample | src/aoc/yr_2024/day_13/puzzle.py:48-56 | "Button A: X+69, Y+23" parses to (69, 23) |
| Day13.ParseCoordPrizeExample | src/aoc/yr_2024/day_13/puzzle.py:48-56 | "Prize: X=18641, Y=10279" parses to (18641, 10279) |
| Day13.PressBound | src/aoc/yr_2024/day_13/puzzle.py:100-102 | ZeroDivisionError exactly when a component of the button's offset is 0 |
| Day13.PressBoundCovers | src/aoc/yr_2024/day_13/puzzle.py:100-102 | for a button moving forward on both axes, any press count not passing the prize is below the bound |
| Day13.BelowQuotient | src/aoc/yr_2024/day_13/puzzle.py:100-102 | a count whose multiple does not pass the prize is at most the floor quotient |
| Day13.SolutionsWithinBounds | src/aoc/yr_2024/day_13/puzzle.py:94-112 | every winning move presses A fewer than `a_max` and B fewer than `b_max` times |
| Day13.NoSolutionBeyond | src/aoc/yr_2024/day_13/puzzle.py:108-109 | once the claw passes the prize on an axis, more B presses keep it past, so the `break` loses no win |
| Day13.AscendingSnoc | src/aoc/yr_2024/day_13/puzzle.py:110-111 | a move after all found ones keeps the list ascending |
| Day13.FindAllMoveCombos | src/aoc/yr_2024/day_13/puzzle.py:94-112 | ZeroDivisionError exactly when an offset has a 0 component; otherwise only winning moves, ascending, and for buttons moving forward on both axes every winning move |
| Day13.MinOf | src/aoc/yr_2024/day_13/puzzle.py:124 | `min` is an element no larger than any other |
| Day13.CostPerCombo | src/aoc/yr_2024/day_13/puzzle.py:115-118 | for press counts that are not negative, between one and three tokens per press, and one per press exactly when A is not pressed |
| Day13.CheapestMoveCost | src/aoc/yr_2024/day_13/puzzle.py:121-125 | ZeroDivisionError exactly for a 0 offset component; a cost found is the cost of a winning move, and for buttons moving forward it is the fewest tokens that win (None when nothing wins) |
| Day13.SolutionUnique | src/aoc/yr_2024/day_13/puzzle.py:94-112 | with non-parallel buttons a machine has at most one winning move |
| Day13.CramerZero | src/aoc/yr_2024/day_13/puzzle.py:94-112 | with non-parallel buttons only the zero combination of them is zero |
| Day13.CheapestOfUnique | src/aoc/yr_2024/day_13/puzzle.py:121-125 | with non-parallel buttons the cheapest win is the unique one |
| Day13.TotalCost | src/aoc/yr_2024/day_13/puzzle.py:129-137 | ZeroDivisionError exactly when some machine has a 0 offset component; otherwise the sum of the present costs, each the cheapest win for buttons moving forward |
| Day13.Part1 | src/aoc/yr_2024/day_13/puzzle.py:129-137 | the total over the machines as read |
| Day13.ModifyD | src/aoc/yr_2024/day_13/puzzle.py:149-154 | the buttons are kept |
| Day13.ModifyDSolutions | src/aoc/yr_2024/day_13/puzzle.py:149-154 | a move wins the modified machine exactly when it overshoots the original prize by 10^13 on both axes |
| Day13.Part2 | src/aoc/yr_2024/day_13/puzzle.py:158-166 | the total over the machines with moved prizes, each cost the cheapest win of the modified machine |
| Day14.WrappedTwice | src/aoc/yr_2024/day_14/puzzle.py:43-54 | moving `s` steps and then `t` lands where `s + t` steps do |
| Day14.WrappedInRange | src/aoc/yr_2024/day_14/puzzle.py:43-54 | on a positive axis the wrapped coordinate is on the grid |
| Day14.Wrapped | src/aoc/yr_2024/day_14/puzzle.py:43-54 | ZeroDivisionError exactly for an axis of size 0; otherwise a coordinate on the axis |
| Day14.Robot.constructor | src/aoc/yr_2024/day_14/puzzle.py:37-41 | a robot holds the given position and velocity |
| Day14.Robot.Move | src/aoc/yr_2024/day_14/puzzle.py:43-54 | ZeroDivisionError when an axis has size 0 (the row is kept when it is the rows); otherwise each coordinate moves `steps` times its velocity, wrapped by Python's `%`, onto the grid; velocities unchanged |
| Day14.MoveN | src/aoc/yr_2024/day_14/puzzle.py:162-165 | every robot is moved in list order and the same list returned; with a 0 axis the first robot raises and the others stay put |
| Day14.QuadrantZero | src/aoc/yr_2024/day_14/puzzle.py:99-120 | only points on the middle row or column fall in no quadrant |
| Day14.CountsCoverRegion | src/aoc/yr_2024/day_14/puzzle.py:99-120 | the four quadrant counts and the middle-line count cover every position once |
| Day14.MultisetDropKey | src/aoc/yr_2024/day_14/puzzle.py:107-118 | dropping a key makes the Counter smaller |
| Day14.BagCountRemove | src/aoc/yr_2024/day_14/puzzle.py:107-118 | the quadrant sums do not depend on the Counter's iteration order |
| Day14.BagCountOfList | src/aoc/yr_2024/day_14/puzzle.py:107-118 | counting the Counter's entries gives the count over the positions it was built from |
| Day14.CountPerQuadrant | src/aoc/yr_2024/day_14/puzzle.py:99-120 | each total is the number of positions in its quadrant, and together at most the number of positions |
| Day14.Positions | src/aoc/yr_2024/day_14/puzzle.py:145-147 | each robot's (row, col), in list order |
| Day14.SafetyFactor | src/aoc/yr_2024/day_14/puzzle.py:150-153 | the product of the quadrant counts of the robots' positions, never negative |
| Day14.SafetyOf | src/aoc/yr_2024/day_14/puzzle.py:150-153 | the product of the four quadrant counts is never negative, and 0 exactly when a quadrant holds no robot |
| Day14.ProductOfFour | src/aoc/yr_2024/day_14/puzzle.py:150-153 | a product of four counts is never negative, and 0 exactly when one of them is |
| Day14.Part1 | src/aoc/yr_2024/day_14/puzzle.py:169-189 | `draw_counts_on_grid` raises IndexError, before any robot moves, exactly when a starting position is off the `rows` × `cols` grid; otherwise every robot is moved 100 times, wrapped onto the grid, and the answer is the safety factor of the new positions |
| Day14.FindInts | src/aoc/yr_2024/day_14/puzzle.py:130-131 | every token found matches `-?\d+` |
| Day14.TokenValue | src/aoc/yr_2024/day_14/puzzle.py:132 | `int()` accepts every token found |
| Day14.TokenValues | src/aoc/yr_2024/day_14/puzzle.py:132 | `map(int, ...)` over the tokens found: one value per token, in order, each the one `int()` gives |
| Day14.ParseNumbers | src/aoc/yr_2024/day_14/puzzle.py:130-134 | ValueError exactly when there are not four numbers; otherwise the four values in order |
| Day14.FourValues | src/aoc/yr_2024/day_14/puzzle.py:130-134 | unpacking into four names: ValueError exactly when there are not four tokens; otherwise each value is what `int` gives for the token in that place |
| Day14.ParseLine | src/aoc/yr_2024/day_14/puzzle.py:123-135 | `p=x,y v=dx,dy` becomes a fresh robot at row y, column x with velocity (dy, dx) |
| Day14.SkipChar | src/aoc/yr_2024/day_14/puzzle.py:130-131 | a character that starts no number adds no token |
| Day14.TakeNumber | src/aoc/yr_2024/day_14/puzzle.py:130-131 | the text of a number followed by a non-digit is one token |
| Day14.SkipText | src/aoc/yr_2024/day_14/puzzle.py:130-131 | text with no digit and no `-` adds no token |
| Day14.NumberThenText | src/aoc/yr_2024/day_14/puzzle.py:130-131 | a number followed by a separator of non-digits is one token |
| Day14.FindIntsFormat | src/aoc/yr_2024/day_14/puzzle.py:130-131 | the tokens of `p=x,y v=dx,dy` are the four numbers' texts |
| Day14.FourTokens | src/aoc/yr_2024/day_14/puzzle.py:133 | four tokens are exactly those four |
| Day14.FourElements | src/aoc/yr_2024/day_14/puzzle.py:133 | four values are exactly those four |
| Day14.ParseNumbersFormat | src/aoc/yr_2024/day_14/puzzle.py:123-135 | the input format gives back the four numbers in order |
| Day14.ParseNumbersExample | src/aoc/yr_2024/day_14/puzzle.py:123-135 | `p=0,4 v=3,-3` gives x = 0, y = 4, dx = 3, dy = -3 |
| Day15.SetCell | src/aoc/yr_2024/day_15/puzzle.py:112-114 | the grid keeps its shape and the cell holds the new character |
| Day15.SetCellOther | src/aoc/yr_2024/day_15/puzzle.py:112-114 | every other cell is unchanged |
| Day15.Swapped | src/aoc/yr_2024/day_15/puzzle.py:146-154 | the two cells are exchanged and the shape kept |
| Day15.SwappedOther | src/aoc/yr_2024/day_15/puzzle.py:146-154 | every other cell is unchanged |
| Day15.CountSetCell | src/aoc/yr_2024/day_15/puzzle.py:112-114 | overwriting a cell moves at most one occurrence of each character |
| Day15.CountSwapped | src/aoc/yr_2024/day_15/puzzle.py:146-154 | exchanging two cells keeps the number of every character |
| Day15.MoveIncr | src/aoc/yr_2024/day_15/puzzle.py:55-60 | each move character stands for a unit step |
| Day15.ValidateMoves | src/aoc/yr_2024/day_15/puzzle.py:80-88 | ValueError exactly when a character is not one of `^ > v <`; otherwise the moves unchanged |
| Day15.FindRobot | src/aoc/yr_2024/day_15/puzzle.py:67-78 | IndexError exactly when no row holds `@`; otherwise the first `@` in row-major order |
| Day15.OpenAhead | src/aoc/yr_2024/day_15/puzzle.py:122-137 | a cell found is on the grid and free |
| Day15.OpenAheadStops | src/aoc/yr_2024/day_15/puzzle.py:122-137 | the scan crosses only boxes and the robot's mark and stops at the free cell found, or at a wall or the edge when none is |
| Day15.OpenAheadAdjacent | src/aoc/yr_2024/day_15/puzzle.py:116-120 | when a free cell is found, the cell next to the robot is on the grid and differs from where it stands |
| Day15.AheadDistinct | src/aoc/yr_2024/day_15/puzzle.py:122-137 | different step counts reach different cells |
| Day15.PushInto | src/aoc/yr_2024/day_15/puzzle.py:161-166 | the grid keeps its shape |
| Day15.PushIntoCells | src/aoc/yr_2024/day_15/puzzle.py:161-166 | the robot's cell content moves to the adjacent cell, its old cell is free, the adjacent content moves to the free cell, and every character count is kept |
| Day15.PushIntoOther | src/aoc/yr_2024/day_15/puzzle.py:161-166 | no cell other than those three changes |
| Day15.PushShiftsRun | src/aoc/yr_2024/day_15/puzzle.py:156-167 | pushing shifts the whole run of boxes one cell toward the free cell and frees the robot's cell |
| Day15.Pushed | src/aoc/yr_2024/day_15/puzzle.py:156-167 | the grid keeps its shape and the robot stays on it |
| Day15.PushedKeeps | src/aoc/yr_2024/day_15/puzzle.py:156-167 | a push keeps the robot's mark under the robot and every count of cells |
| Day15.WriteNextKeeps | src/aoc/yr_2024/day_15/puzzle.py:168-171 | writing the next move character under the robot keeps the state well formed and the number of boxes |
| Day15.MoveState | src/aoc/yr_2024/day_15/puzzle.py:156-171 | a move keeps the state well formed and never changes the number of boxes |
| Day15.RunMovesToStep | src/aoc/yr_2024/day_15/puzzle.py:173-177 | one more move extends the run of moves |
| Day15.RunMoves | src/aoc/yr_2024/day_15/puzzle.py:173-177 | the remaining moves in order keep the state well formed and the number of boxes; with no moves left nothing changes |
| Day15.GridBoxesMembership | src/aoc/yr_2024/day_15/puzzle.py:181-188 | a point is listed exactly when its cell holds `O` |
| Day15.GridBoxesCount | src/aoc/yr_2024/day_15/puzzle.py:181-188 | one entry per `O` cell |
| Day15.CalcGps | src/aoc/yr_2024/day_15/puzzle.py:190-193 | on a grid under 100 columns wide the row and column can be read back from the GPS coordinate |
| Day15.GpsSum | src/aoc/yr_2024/day_15/puzzle.py:195-197 | the sum of the GPS coordinates, non-negative for points with non-negative coordinates |
| Day15.Part1.constructor | src/aoc/yr_2024/day_15/puzzle.py:40-50 | the fields hold the grid, the moves and the robot, with the move index at 0 |
| Day15.Part1.FindNextOpen | src/aoc/yr_2024/day_15/puzzle.py:122-137 | the first free cell ahead of the robot toward the current move, None at a wall or the edge |
| Day15.Part1.Swap | src/aoc/yr_2024/day_15/puzzle.py:146-154 | ValueError, changing nothing, unless the end cell is free; otherwise the two cells exchanged |
| Day15.Part1.PushTo | src/aoc/yr_2024/day_15/puzzle.py:159-167 | the box run is pushed and the robot advances, as Pushed says |
| Day15.Part1.AdvanceIndex | src/aoc/yr_2024/day_15/puzzle.py:168-170 | the index advances and the next move character is written under the robot |
| Day15.Part1.Move | src/aoc/yr_2024/day_15/puzzle.py:156-170 | IndexError, changing nothing, when the moves are used up; otherwise the grid and robot of MoveState and the next index |
| Day15.Part1.MoveTracked | src/aoc/yr_2024/day_15/puzzle.py:175-176 | one pass of the loop in `move_all`: a move, with the moves made so far recorded |
| Day15.Part1.MoveAll | src/aoc/yr_2024/day_15/puzzle.py:173-179 | the state after every remaining move in order, the same number of boxes; NameError on no moves and IndexError when started past the first move |
| Day15.Part1.FindAllBoxes | src/aoc/yr_2024/day_15/puzzle.py:181-188 | the `O` cells in row-major order |
| Day15.Part1.TotalGps | src/aoc/yr_2024/day_15/puzzle.py:195-197 | the GPS sum of the boxes, never negative |
| Day15.Part1.Execute1 | src/aoc/yr_2024/day_15/puzzle.py:199-201 | the GPS sum after every move, over as many boxes as the grid started with |
| Day15.Create | src/aoc/yr_2024/day_15/puzzle.py:40-88 | ValueError for a bad move character, otherwise IndexError when there is no `@`; otherwise a fresh puzzle with the robot on the first `@` |
| Day16.MoveCost | src/aoc/yr_2024/day_16/puzzle.py:92-99 | 1 exactly when going straight on, 1001 exactly for a quarter turn, 2001 exactly for a reversal |
| Day16.MoveCostsAgree | src/aoc/yr_2024/day_16/puzzle.py:209-218 | the cost written in `dijkstra_maze_relaxed` agrees with that of `dijkstra_maze` for every pair of directions |
| Day16.TrailReversed | src/aoc/yr_2024/day_16/puzzle.py:73-78 | a trail collected from the end back to the start, reversed, is a walk from the start to the end |
| Day16.EntryOrderTotal | src/aoc/yr_2024/day_16/puzzle.py:69 | the order on queue items is total and antisymmetric, so `heappop` is determined by the queue's contents |
| Day16.MinIndex | src/aoc/yr_2024/day_16/puzzle.py:69 | the position of a least item |
| Day16.Pop | src/aoc/yr_2024/day_16/puzzle.py:69 | `heappop` returns a least item and leaves the other items |
| Day16.RelaxOnlyLowers | src/aoc/yr_2024/day_16/puzzle.py:81-111 | a recorded cost is only replaced by a strictly smaller one, whose parent becomes the popped cell; only the neighbour can be added |
| Day16.NeighbourAdjacent | src/aoc/yr_2024/day_16/puzzle.py:82-83 | a neighbour is adjacent to the cell and different from it |
| Day16.RelaxKeeps | src/aoc/yr_2024/day_16/puzzle.py:81-111 | relaxing one neighbour keeps the search's invariant: sound parents of lower cost, start at cost 0 with no parent, queued items no cheaper than their cell's cost |
| Day16.ExploreKeeps | src/aoc/yr_2024/day_16/puzzle.py:81-111 | the whole inner loop keeps the search's invariant |
| Day16.Explore | src/aoc/yr_2024/day_16/puzzle.py:81-111 | the inner loop is the relaxation of every direction in order |
| Day16.RelaxStep | src/aoc/yr_2024/day_16/puzzle.py:82-111 | one pass of the inner loop is the relaxation of that direction |
| Day16.Chain | src/aoc/yr_2024/day_16/puzzle.py:73-77 | the cells met following `parent` form a trail from the cell back to the start, no longer than its cost plus one |
| Day16.ChainStep | src/aoc/yr_2024/day_16/puzzle.py:75-77 | the chain of a cell is the cell followed by the chain of its parent |
| Day16.Reconstruct | src/aoc/yr_2024/day_16/puzzle.py:72-78 | the path rebuilt from `parent` is the reversed chain from the end |
| Day16.DijkstraMaze | src/aoc/yr_2024/day_16/puzzle.py:43-115 | IndexError exactly for an empty maze; a returned path is a walk from the start to the end over passable cells, no longer than its cost plus one; a start equal to the end costs 0 |
| Day16.Part1 | src/aoc/yr_2024/day_16/puzzle.py:125-138 | IndexError exactly for an empty maze; a path found walks from the second-to-last row's first column to the second row's last column; the score is not proved the least |
| Day16.RelaxKeyParents | src/aoc/yr_2024/day_16/puzzle.py:224-230 | a cheaper arrival records its cost and replaces the parent list; an arrival at the recorded cost appends the popped key; any other arrival changes nothing |
| Day16.RelaxKeyKeeps | src/aoc/yr_2024/day_16/puzzle.py:196-230 | relaxing one neighbour keeps part 2's invariant |
| Day16.ParentsOkLowered | src/aoc/yr_2024/day_16/puzzle.py:224-230 | a key whose cost and parents stay keeps sound parents while other costs go down |
| Day16.ParentsOkAppended | src/aoc/yr_2024/day_16/puzzle.py:229-230 | appending a parent of lower cost and adjacent cell keeps the parents sound |
| Day16.ExploreKeysUpTo | src/aoc/yr_2024/day_16/puzzle.py:196-230 | the parent map and the cost map keep the same keys |
| Day16.ExploreKeysKeeps | src/aoc/yr_2024/day_16/puzzle.py:196-230 | the inner loop keeps part 2's invariant |
| Day16.ExploreKeys | src/aoc/yr_2024/day_16/puzzle.py:196-230 | the inner loop is the relaxation of every direction in order |
| Day16.RelaxKeyStep | src/aoc/yr_2024/day_16/puzzle.py:197-230 | one pass of the inner loop is the relaxation of that direction |
| Day16.SearchAll | src/aoc/yr_2024/day_16/puzzle.py:179-230 | a finished search keeps part 2's invariant and empties the queue; a start equal to the end records only the start key |
| Day16.GraphInvDescends | src/aoc/yr_2024/day_16/puzzle.py:236-244 | every recorded parent costs strictly less, so `backtrack` ends |
| Day16.TrailExtend | src/aoc/yr_2024/day_16/puzzle.py:243-244 | extending a trail by an adjacent cell keeps it a trail |
| Day16.BacktrackValid | src/aoc/yr_2024/day_16/puzzle.py:236-244 | every answer `backtrack` collects is a walk from the start to the end |
| Day16.AllValidAppend | src/aoc/yr_2024/day_16/puzzle.py:241 | appending answers keeps them all walks |
| Day16.BacktrackEachValid | src/aoc/yr_2024/day_16/puzzle.py:243-244 | every answer collected over the parent list is a walk from the start to the end |
| Day16.BacktrackFinds | src/aoc/yr_2024/day_16/puzzle.py:236-244 | from any recorded key `backtrack` collects at least one answer |
| Day16.MinOver | src/aoc/yr_2024/day_16/puzzle.py:246-259 | None exactly when the end is recorded in no direction; otherwise the least recorded cost of the end |
| Day16.EndDirsAsWritten | src/aoc/yr_2024/day_16/puzzle.py:246-259 | every selected direction has a recorded cost at the end |
| Day16.SelectEndDirs | src/aoc/yr_2024/day_16/puzzle.py:246-259 | the loop computes the least cost and the directions selected as written |
| Day16.EndDirsAsWrittenCoversBest | src/aoc/yr_2024/day_16/puzzle.py:246-259 | every direction at the least cost is selected as written |
| Day16.CostlierFirstOne | src/aoc/yr_2024/day_16/puzzle.py:250-259 | after one direction the north one is selected at cost 10 |
| Day16.CostlierFirstTwo | src/aoc/yr_2024/day_16/puzzle.py:250-259 | the south one at cost 5 is appended and the north one stays |
| Day16.CostlierFirstThree | src/aoc/yr_2024/day_16/puzzle.py:250-259 | a direction with no cost changes nothing |
| Day16.EndDirsAsWrittenKeepsCostlier | src/aoc/yr_2024/day_16/puzzle.py:246-259 | with the end reached northward at 10 and southward at 5, both directions are selected as written, though only the southward one is at the least cost |
| Day16.AllDirections | src/aoc/yr_2024/day_16/puzzle.py:168-169 | the loop visits all four directions |
| Day16.FilterAt | src/aoc/yr_2024/day_16/puzzle.py:246-259 | a direction is kept exactly when its cost at the end is the best |
| Day16.BestEndDirs | src/aoc/yr_2024/day_16/puzzle.py:246-259 | the directions meant: exactly those at the least cost |
| Day16.PathsForValid | src/aoc/yr_2024/day_16/puzzle.py:264-265 | every collected answer is a walk from the start cell to the end |
| Day16.PathsForFinds | src/aoc/yr_2024/day_16/puzzle.py:264-265 | some answer is collected exactly when some direction is selected |
| Day16.CollectPaths | src/aoc/yr_2024/day_16/puzzle.py:264-265 | the answers of `backtrack` for each selected direction, concatenated in order |
| Day16.BestPaths | src/aoc/yr_2024/day_16/puzzle.py:232-271 | from a finished search every walk collected from the best directions is valid, and one is collected exactly when the end was reached |
| Day16.SameCellBest | src/aoc/yr_2024/day_16/puzzle.py:246-259 | when the start is the end, only the starting direction is selected, at cost 0 |
| Day16.SameCellMin | src/aoc/yr_2024/day_16/puzzle.py:246-259 | when the start is the end, the least cost is 0 |
| Day16.SameCellCount | src/aoc/yr_2024/day_16/puzzle.py:264-271 | when the start is the end, one cell is counted |
| Day16.SingleCellElems | src/aoc/yr_2024/day_16/puzzle.py:269-271 | answers made only of one cell count one cell |
| Day16.SameCellPaths | src/aoc/yr_2024/day_16/puzzle.py:236-244 | when the start is the end, each selected direction gives the one-cell walk |
| Day16.DijkstraMazeRelaxed | src/aoc/yr_2024/day_16/puzzle.py:152-271 | IndexError exactly for an empty maze; every collected walk goes from the start to the end, the count is that of the distinct cells on them, and a best cost exists exactly when a walk is collected; a start equal to the end gives cost 0 and one cell |
| Day16.Part2 | src/aoc/yr_2024/day_16/puzzle.py:275-300 | IndexError exactly for an empty maze; the walks counted go between part 1's corners |
| Day17.CheckProgramValues | src/aoc/yr_2024/day_17/puzzle.py:46-51 | ValueError exactly when some entry is outside `0 <= n < 8`; otherwise the program unchanged |
| Day17.NewComputer | src/aoc/yr_2024/day_17/puzzle.py:35-51 | ValueError exactly for a program with an entry outside `0 <= n < 8`; otherwise the fields as given, the pointer at 0 |
| Day17.Opcode | src/aoc/yr_2024/day_17/puzzle.py:54-57 | None exactly when the pointer is at or past the last entry; IndexError for a pointer below `-len(program)`; otherwise the entry at the pointer |
| Day17.Operand | src/aoc/yr_2024/day_17/puzzle.py:59-62 | None under the same test as `opcode`; IndexError when the entry after the pointer is below `-len(program)`; otherwise the entry after the pointer |
| Day17.OpcodeOperandInRange | src/aoc/yr_2024/day_17/puzzle.py:54-62 | on a validated computer with a non-negative pointer the opcode and operand are both present or both absent, and each is a three-bit number |
| Day17.AccessorsThreeBit | src/aoc/yr_2024/day_17/puzzle.py:46-62 | on a validated computer, any opcode or operand read is a three-bit number |
| Day17.ValidProgramStored | src/aoc/yr_2024/day_17/puzzle_test.py:24-29 | `[0, 1, 2, 7]` with registers 5, 10, 15 is stored unchanged |
| Day17.EightRejected | src/aoc/yr_2024/day_17/puzzle_test.py:37-39 | an entry of 8 is refused |
| Day17.NegativeRejected | src/aoc/yr_2024/day_17/puzzle_test.py:74-76 | an entry of -1 is refused |
| Day17.EmptyProgramAccepted | src/aoc/yr_2024/day_17/puzzle_test.py:43-48 | the empty program is accepted and has no opcode and no operand |
| Day18.ParseRow | src/aoc/yr_2024/day_18/puzzle.py:32-34 | a failure is ValueError; a row read has exactly two fields |
| Day18.ParseRowRoundTrip | src/aoc/yr_2024/day_18/puzzle.py:28-34 | reading a point written as `x,y` gives it back as (row, column) |
| Day18.ParseRowsEach | src/aoc/yr_2024/day_18/puzzle.py:30-35 | the rows are read exactly when each one is, each point is its own row's, and a failure is ValueError |
| Day18.ParseRowsRoundTrip | src/aoc/yr_2024/day_18/puzzle.py:27-35 | reading written points gives them back in order |
| Day18.ReadCsvData | src/aoc/yr_2024/day_18/puzzle.py:27-35 | the loop reads every row as ParseRows does |
| Day18.ReadRow | src/aoc/yr_2024/day_18/puzzle.py:32-34 | one pass of the loop appends the next row to those read |
| Day18.Dropped | src/aoc/yr_2024/day_18/puzzle.py:52-54 | the grid keeps its shape |
| Day18.Blank | src/aoc/yr_2024/day_18/puzzle.py:48-50 | a `dim` × `dim` grid |
| Day18.Fallen | src/aoc/yr_2024/day_18/puzzle.py:113-115 | the grid after the fallen bytes is `dim` × `dim` |
| Day18.NewPGrid | src/aoc/yr_2024/day_18/puzzle.py:48-50 | a fresh `dim` × `dim` grid of `.` |
| Day18.SetByte | src/aoc/yr_2024/day_18/puzzle.py:52-54 | IndexError, changing nothing, off the grid; otherwise `#` written at the point |
| Day18.DroppedStep | src/aoc/yr_2024/day_18/puzzle.py:114-115 | dropping the bytes one at a time is dropping them all |
| Day18.DropBytes | src/aoc/yr_2024/day_18/puzzle.py:114-115 | IndexError exactly when a byte is missing or off the grid; otherwise the grid with every one of the first bytes written |
| Day18.AdjacentStep | src/aoc/yr_2024/day_18/puzzle.py:70-71 | every adjacent point is one of the four steps away |
| Day18.CellTest | src/aoc/yr_2024/day_18/puzzle.py:93 | the transposed read raises IndexError only on a grid that is not square |
| Day18.TrailReversed | src/aoc/yr_2024/day_18/puzzle.py:73-101 | a trail collected from the end, reversed, is a walk from the start |
| Day18.WalkAtLeastManhattan | src/aoc/yr_2024/day_18/puzzle.py:88-89 | a walk has at least as many steps as the Manhattan distance between its ends |
| Day18.WalkStaysIn | src/aoc/yr_2024/day_18/puzzle.py:86-101 | a walk starting in a closed set stays in it |
| Day18.NoWayOut | src/aoc/yr_2024/day_18/puzzle.py:86-101 | no cell outside a closed set can be reached from inside |
| Day18.MinIndex | src/aoc/yr_2024/day_18/puzzle.py:79 | the position of a least item |
| Day18.Pop | src/aoc/yr_2024/day_18/puzzle.py:79 | `heappop` returns a least item and leaves the other items |
| Day18.QueuedAfterPop | src/aoc/yr_2024/day_18/puzzle.py:79 | every cell queued before a pop is still queued or is the popped one |
| Day18.Relax | src/aoc/yr_2024/day_18/puzzle.py:87-101 | a failure is IndexError on a non-square grid |
| Day18.RelaxShape | src/aoc/yr_2024/day_18/puzzle.py:93-101 | relaxing changes nothing, or records the open neighbour at a lower cost and queues it |
| Day18.RelaxKeeps | src/aoc/yr_2024/day_18/puzzle.py:87-101 | relaxing keeps the search's invariant |
| Day18.RelaxGrows | src/aoc/yr_2024/day_18/puzzle.py:87-101 | relaxing keeps recorded cells and queued items and records an open neighbour |
| Day18.ExploreUpTo | src/aoc/yr_2024/day_18/puzzle.py:87-101 | a failure is IndexError on a non-square grid |
| Day18.GrowsTrans | src/aoc/yr_2024/day_18/puzzle.py:87-101 | growing twice is growing |
| Day18.ExploreKeeps | src/aoc/yr_2024/day_18/puzzle.py:87-101 | the inner loop keeps the search's invariant |
| Day18.ExploreGrows | src/aoc/yr_2024/day_18/puzzle.py:87-101 | the inner loop records every open neighbour |
| Day18.RelaxStep | src/aoc/yr_2024/day_18/puzzle.py:88-101 | one pass of the inner loop is the relaxation of that direction |
| Day18.Explore | src/aoc/yr_2024/day_18/puzzle.py:87-101 | the inner loop is the relaxation of every direction in order |
| Day18.Chain | src/aoc/yr_2024/day_18/puzzle.py:100 | following `parent` from a cell gives a trail back to the start no longer than its cost plus one |
| Day18.AdvanceKeeps | src/aoc/yr_2024/day_18/puzzle.py:77-101 | expanding a popped cell other than the end keeps the frontier |
| Day18.FinishUnreachable | src/aoc/yr_2024/day_18/puzzle.py:103-105 | when the queue runs out the end cannot be reached |
| Day18.WalkTo | src/aoc/yr_2024/day_18/puzzle.py:79-84 | a queued item's cell is reached by a walk no longer than its cost |
| Day18.Dijkstra | src/aoc/yr_2024/day_18/puzzle.py:57-105 | IndexError for an empty or non-square grid; a count of 0 or more comes with a walk of at most that many steps between the corners; -1 exactly shows that no walk exists; a one-cell grid costs 0 |
| Day18.CountAtLeastManhattan | src/aoc/yr_2024/day_18/puzzle.py:83-84 | a count returned is at least the Manhattan distance between the corners |
| Day18.Probe | src/aoc/yr_2024/day_18/puzzle.py:113-119 | IndexError exactly when a byte is missing or off the grid; a count of 0 or more is at least `2 * gridDim`, the Manhattan distance between the corners, and a way is left after those bytes; -1 means none is; the count is not proved the shortest |
| Day18.Part1 | src/aoc/yr_2024/day_18/puzzle.py:109-120 | ValueError for a bad row, IndexError for a missing or off-grid byte; otherwise `dijkstra`'s count, with a way left exactly when it is not -1; the count is not proved the shortest |
| Day18.PassableMonotone | src/aoc/yr_2024/day_18/puzzle.py:132-170 | a byte more never opens a way: a way left after `j` bytes was there after fewer |
| Day18.BoundaryIsFirst | src/aoc/yr_2024/day_18/puzzle.py:132-170 | when a way is left after `k` bytes and none after `k + 1`, it is there for every count up to `k` and gone for every count after |
| Day18.BinarySearch | src/aoc/yr_2024/day_18/puzzle.py:132-170 | IndexError only for no bytes or an off-grid byte; otherwise the byte at `idx_start`, with a way left after `idx_start` bytes (or none fallen) and none after `idx_end` (or all fallen), `idx_end` at most one past |
| Day18.StopPoint | src/aoc/yr_2024/day_18/puzzle.py:163-170 | where the search stops, no way is left after one byte more, or every byte has fallen |
| Day18.Part2 | src/aoc/yr_2024/day_18/puzzle.py:174-181 | ValueError for a bad row; otherwise the byte the search stops at, written back as (x, y) |
| Day19.LayoutCons | src/aoc/yr_2024/day_19/puzzle.py:78-90 | a non-empty layout is a non-empty towel starting the design followed by a layout of the rest |
| Day19.EmptyLayout | src/aoc/yr_2024/day_19/puzzle.py:82-83 | only the empty layout lays out the empty design |
| Day19.LayoutWiden | src/aoc/yr_2024/day_19/puzzle.py:111-126 | a layout over some towels is one over any list holding them |
| Day19.LayoutAppend | src/aoc/yr_2024/day_19/puzzle.py:111-126 | two layouts side by side lay out the joined designs |
| Day19.RemovePrefixChanges | src/aoc/yr_2024/day_19/puzzle.py:86-87 | `removeprefix` changes the design exactly when a non-empty towel starts it, and then drops it |
| Day19.FormedLayout | src/aoc/yr_2024/day_19/puzzle.py:78-90 | a design `can_be_formed` accepts has a layout |
| Day19.FormedFromLayout | src/aoc/yr_2024/day_19/puzzle.py:85-89 | a design the towel loop accepts has a layout |
| Day19.FormedFromAt | src/aoc/yr_2024/day_19/puzzle.py:85-89 | a towel starting the design whose remainder can be formed makes the loop succeed |
| Day19.LayoutFormed | src/aoc/yr_2024/day_19/puzzle.py:78-90 | a design with a layout is accepted by `can_be_formed` |
| Day19.CanBeFormedIff | src/aoc/yr_2024/day_19/puzzle.py:78-90 | `can_be_formed` holds exactly when the design is non-empty towels joined in order |
| Day19.CanBeFormedEmpty | src/aoc/yr_2024/day_19/puzzle.py:82-83 | the empty design is formed, in one way |
| Day19.CanBeFormedWiden | src/aoc/yr_2024/day_19/puzzle.py:78-90 | extra towels never make a design unformable |
| Day19.WaysPositive | src/aoc/yr_2024/day_19/puzzle.py:78-90 | there is a layout exactly when the number of layouts is positive |
| Day19.WaysFromPositive | src/aoc/yr_2024/day_19/puzzle.py:85-89 | the same from any towel entry on |
| Day19.Combos | src/aoc/yr_2024/day_19/puzzle.py:47-60 | a failure is RecursionError, and there is none without an empty towel |
| Day19.CombosFrom | src/aoc/yr_2024/day_19/puzzle.py:56-60 | a failure is RecursionError, and there is none without an empty towel |
| Day19.FindTowelCombos | src/aoc/yr_2024/day_19/puzzle.py:44-63 | a failure is RecursionError, and there is none without an empty towel |
| Day19.CombosMembers | src/aoc/yr_2024/day_19/puzzle.py:47-60 | `helper` returns exactly `path` extended by each layout of the rest |
| Day19.ExtendsOfEntry | src/aoc/yr_2024/day_19/puzzle.py:53-59 | an extension through one towel entry is an extension of `path` |
| Day19.EntryOfExtends | src/aoc/yr_2024/day_19/puzzle.py:53-59 | an extension over a non-empty design starts with some towel entry |
| Day19.CombosFromMembers | src/aoc/yr_2024/day_19/puzzle.py:56-60 | the loop from entry `i` returns exactly the extensions through entries from `i` on |
| Day19.CombosCount | src/aoc/yr_2024/day_19/puzzle.py:47-60 | `helper` finds as many layouts as there are, duplicate towel entries counted apart |
| Day19.CombosFromCount | src/aoc/yr_2024/day_19/puzzle.py:56-60 | the same for the loop from any entry on |
| Day19.CombosLoops | src/aoc/yr_2024/day_19/puzzle.py:47-60 | with an empty towel `helper` never returns on a non-empty design |
| Day19.CombosFromLoops | src/aoc/yr_2024/day_19/puzzle.py:56-60 | the same for the loop once the empty towel is ahead |
| Day19.FindTowelCombosSpec | src/aoc/yr_2024/day_19/puzzle.py:44-63 | when it returns, the result holds exactly the layouts of the design, as many as there are; it returns exactly when the design is empty or no towel is |
| Day19.StrLeTotal | src/aoc/yr_2024/day_19/puzzle.py:115 | Python's string order is total |
| Day19.StrLeTrans | src/aoc/yr_2024/day_19/puzzle.py:115 | Python's string order is transitive |
| Day19.KeyLeTotal | src/aoc/yr_2024/day_19/puzzle.py:115 | the key `(len(x), x)` orders every pair |
| Day19.KeyLeTrans | src/aoc/yr_2024/day_19/puzzle.py:115 | the key order is transitive |
| Day19.InsertTowel | src/aoc/yr_2024/day_19/puzzle.py:115 | inserting into a key-sorted list keeps it sorted and adds the towel |
| Day19.InsertFront | src/aoc/yr_2024/day_19/puzzle.py:115 | a towel no greater than the head goes in front |
| Day19.InsertTowelStep | src/aoc/yr_2024/day_19/puzzle.py:115 | one step of the insertion keeps the list sorted and its contents |
| Day19.SortTowels | src/aoc/yr_2024/day_19/puzzle.py:115 | `sorted(towels, key=...)` is sorted by the key and a permutation of the towels |
| Day19.ReduceSplits | src/aoc/yr_2024/day_19/puzzle.py:117-126 | the reduced and redundant lists share out the sorted list |
| Day19.ReduceReduced | src/aoc/yr_2024/day_19/puzzle.py:120-123 | every reduced towel cannot be formed from the reduced towels before it |
| Day19.ReduceRedundant | src/aoc/yr_2024/day_19/puzzle.py:120-125 | every redundant towel can be formed from the reduced towels |
| Day19.ReduceSorted | src/aoc/yr_2024/day_19/puzzle.py:115-126 | both lists keep the (length, string) order |
| Day19.SnocSorted | src/aoc/yr_2024/day_19/puzzle.py:123-125 | appending a towel no smaller than the last keeps the order |
| Day19.ReduceKeepsFormed | src/aoc/yr_2024/day_19/puzzle.py:111-126 | the reduced towels form exactly the designs the whole list forms |
| Day19.Substitute | src/aoc/yr_2024/day_19/puzzle.py:111-126 | replacing each towel of a layout by a layout over `base` gives a layout over `base` |
| Day19.ReduceRedundancies | src/aoc/yr_2024/day_19/puzzle.py:111-126 | the two lists are a partition of the towels, both in key order; each reduced towel cannot be formed from those before it; each redundant one can be formed from the reduced ones |
| Day19.CountAllTowelCombos | src/aoc/yr_2024/day_19/puzzle.py:66-75 | RecursionError only with an empty towel; otherwise a count for every towel: 1 for a reduced one, and its number of layouts for a redundant one |
| Day19.FillCounts | src/aoc/yr_2024/day_19/puzzle.py:71-75 | the same, once the towels are split |
| Day19.CountFormable | src/aoc/yr_2024/day_19/puzzle.py:138-139 | at most the number of designs |
| Day19.TotalWays | src/aoc/yr_2024/day_19/reddit_2.py:19-21 | the number of layouts of all the designs, which the `int` pass sums: every design with a layout adds at least one, so the total is at least the number of such designs and 0 exactly when there is none |
| Day19Search.PrefixSpells | src/aoc/yr_2024/day_19/puzzle.py:300-303 | a prefix of a formation spells a prefix of what it spells |
| Day19Search.ExtensionsMembers | src/aoc/yr_2024/day_19/puzzle.py:300-303 | the entries appended for an item are exactly its extensions by a towel that keep a prefix of the design |
| Day19Search.StepSound | src/aoc/yr_2024/day_19/puzzle.py:291-303 | one pass of the loop keeps every queued entry a prefix of the design spelled by towels, and every result the design |
| Day19Search.LayoutLength | src/aoc/yr_2024/day_19/puzzle.py:285-305 | a layout has no more towels than the design has stripes |
| Day19Search.LayoutSuffix | src/aoc/yr_2024/day_19/puzzle.py:285-305 | a tail of a layout lays out what it spells |
| Day19Search.LayoutSpelledPrefix | src/aoc/yr_2024/day_19/puzzle.py:295-297 | a layout whose prefix already spells the design is that prefix |
| Day19Search.StepKeepsPending | src/aoc/yr_2024/day_19/puzzle.py:291-303 | each layout is still a result or has a prefix waiting in the queue |
| Day19Search.StepKeepsNoneLost | src/aoc/yr_2024/day_19/puzzle.py:291-303 | one pass of the loop loses no layout of the design |
| Day19Search.PushExtensions | src/aoc/yr_2024/day_19/puzzle.py:300-303 | the inner loop appends exactly the extensions of the item, in towel order |
| Day19Search.FindAllPermutations | src/aoc/yr_2024/day_19/puzzle.py:285-305 | every result spells the design with towels; every layout is among them; without an empty towel they are exactly the layouts; the empty design gives one empty result |
| Day19Search.MinItem | src/aoc/yr_2024/day_19/puzzle.py:218 | `heappop` takes a least item in tuple order, which has the least cost |
| Day19Search.ItemLtTrans | src/aoc/yr_2024/day_19/puzzle.py:218 | no item before the least is smaller than it |
| Day19Search.ListLtTransitive | src/aoc/yr_2024/day_19/puzzle.py:218 | Python's list order is transitive |
| Day19Search.ListLtIrreflexive | src/aoc/yr_2024/day_19/puzzle.py:218 | no list is below itself |
| Day19Search.ItemLtIrreflexive | src/aoc/yr_2024/day_19/puzzle.py:218 | no item is below itself |
| Day19Search.ItemLtTransitive | src/aoc/yr_2024/day_19/puzzle.py:218 | the heap's tuple order is transitive |
| Day19Search.Prefixes | src/aoc/yr_2024/day_19/puzzle.py:226-234 | exactly the prefixes of the design, at most one more than its length |
| Day19Search.PushesMembers | src/aoc/yr_2024/day_19/puzzle.py:231-234 | the entries pushed for an item are exactly its extensions by a towel, one towel more |
| Day19Search.PushTowels | src/aoc/yr_2024/day_19/puzzle.py:231-234 | the inner loop pushes exactly those entries, in towel order |
| Day19Search.FirstExit | src/aoc/yr_2024/day_19/puzzle.py:226-234 | a formation of an unvisited string leaves the visited set at some towel |
| Day19Search.ExitWitness | src/aoc/yr_2024/day_19/puzzle.py:217-234 | every way to spell an unvisited prefix has an entry in the heap costing no more towels |
| Day19Search.PopOptimal | src/aoc/yr_2024/day_19/puzzle.py:218-228 | the entry popped for an unvisited string costs no more than any way to spell it |
| Day19Search.DropEmpty | src/aoc/yr_2024/day_19/puzzle.py:209-237 | dropping an empty towel spells the same string with one towel less |
| Day19Search.ShortestIsLayout | src/aoc/yr_2024/day_19/puzzle.py:209-237 | a shortest way to spell a string uses no empty towel |
| Day19Search.Removed | src/aoc/yr_2024/day_19/puzzle.py:218 | the pop keeps every other entry |
| Day19Search.SkipKeeps | src/aoc/yr_2024/day_19/puzzle.py:226-227 | skipping a visited string keeps the search's invariant |
| Day19Search.PushesOk | src/aoc/yr_2024/day_19/puzzle.py:231-234 | the pushed entries cost their number of towels and spell prefixes of the design |
| Day19Search.VisitClosed | src/aoc/yr_2024/day_19/puzzle.py:228-234 | after a visit every towel from a visited string leads to a visited string or a queued entry |
| Day19Search.VisitKeeps | src/aoc/yr_2024/day_19/puzzle.py:228-234 | visiting the popped string keeps the search's invariant |
| Day19Search.EmptyHeapNoLayout | src/aoc/yr_2024/day_19/puzzle.py:236-237 | with the heap empty no layout of the design exists |
| Day19Search.ShortestPermutationDijkstra | src/aoc/yr_2024/day_19/puzzle.py:209-237 | a result is a layout of the design with the fewest towels; None exactly when no layout exists |
| Day19Reddit1.Occurring | src/aoc/yr_2024/day_19/reddit_1.py:27 | exactly the syllables occurring in the design |
| Day19Reddit1.Starting | src/aoc/yr_2024/day_19/reddit_1.py:31 | exactly the syllables starting the design |
| Day19Reddit1.WaysFromOver | src/aoc/yr_2024/day_19/reddit_1.py:34-36 | the layouts from a towel entry on are those led by the later entries |
| Day19Reddit1.ContainsInSuffix | src/aoc/yr_2024/day_19/reddit_1.py:27 | a string inside a suffix of the design is inside the design |
| Day19Reddit1.ContainsPrefix | src/aoc/yr_2024/day_19/reddit_1.py:27 | a prefix of the design is inside it |
| Day19Reddit1.NarrowKeepsWays | src/aoc/yr_2024/day_19/reddit_1.py:27 | narrowing the syllables to those inside the design changes the count of no string inside it |
| Day19Reddit1.NarrowOver | src/aoc/yr_2024/day_19/reddit_1.py:27-36 | the same for the layouts led by a part of the list |
| Day19Reddit1.TailsOver | src/aoc/yr_2024/day_19/reddit_1.py:31-36 | with no empty syllable, the loop over the syllables starting the design adds up its count |
| Day19Reddit1.SetDefault | src/aoc/yr_2024/day_19/reddit_1.py:25 | `setdefault` stores the value only for a missing key and returns what is stored |
| Day19Reddit1.FindSyl | src/aoc/yr_2024/day_19/reddit_1.py:13-37 | the number of layouts of the design, then cached; cached counts stay and are all sound; RecursionError exactly for an uncached non-empty design with an empty syllable |
| Day19Reddit1.SumTails | src/aoc/yr_2024/day_19/reddit_1.py:34-36 | over prefixes that are syllables starting the design, the loop adds the count for what follows each one; RecursionError exactly when the full list has the empty syllable |
| Day19Reddit1.AddTail | src/aoc/yr_2024/day_19/reddit_1.py:34-36 | one round of the loop: the number of layouts of what follows the prefix, with the cache kept sound and only grown by shorter keys; RecursionError for the empty prefix, and only when the full list has the empty syllable |
| Day19Reddit1.EmptyStarts | src/aoc/yr_2024/day_19/reddit_1.py:27-31 | when the full list holds the empty syllable, it survives both filters and starts the design |
| Day19Reddit1.NarrowStep | src/aoc/yr_2024/day_19/reddit_1.py:27 | narrowing once more keeps the syllables counting like the full list |
| Day19Reddit1.NarrowedSuffix | src/aoc/yr_2024/day_19/reddit_1.py:36 | what counts like the full list inside a design does so inside each suffix |
| Day19Reddit1.NoneStartZero | src/aoc/yr_2024/day_19/reddit_1.py:28-33 | when no syllable starts a non-empty design it has no layout |
| Day19Reddit1.LoopTotal | src/aoc/yr_2024/day_19/reddit_1.py:34-37 | without an empty syllable the loop adds up exactly the count of the design |
| Day19Reddit1.NoneStartOver | src/aoc/yr_2024/day_19/reddit_1.py:32-33 | with no syllable starting the design no entry leads a layout |
| Day19Reddit1.Part2 | src/aoc/yr_2024/day_19/reddit_1.py:40-59 | IndexError for an empty file; otherwise the number of designs with a layout and the number of layouts of all designs, which it returns whenever no syllable is empty |
| Day19Reddit1.CountDesigns | src/aoc/yr_2024/day_19/reddit_1.py:49-55 | `count1` counts the designs with a layout and `count2` adds their layouts; an error only with an empty syllable |
| Day19Reddit1.NarrowedSelf | src/aoc/yr_2024/day_19/reddit_1.py:45-50 | the full list counts like itself |
| Day19Reddit1.TallyStep | src/aoc/yr_2024/day_19/reddit_1.py:49-55 | one more design keeps the two counts |
| Day19Reddit1.Designs | src/aoc/yr_2024/day_19/reddit_1.py:49 | `lines[2:]`, empty with fewer than three lines |
| Day19Reddit1.StripAll | src/aoc/yr_2024/day_19/reddit_1.py:42 | each line stripped, in order |
| Day19Reddit2.Count | src/aoc/yr_2024/day_19/reddit_2.py:11-15 | a failure is RecursionError, and there is none without an empty pattern |
| Day19Reddit2.CountFrom | src/aoc/yr_2024/day_19/reddit_2.py:13-15 | a failure is RecursionError, and there is none without an empty pattern |
| Day19Reddit2.CountIsWays | src/aoc/yr_2024/day_19/reddit_2.py:11-15 | `count(d)` is the number of layouts of `d` |
| Day19Reddit2.CountFromIsWays | src/aoc/yr_2024/day_19/reddit_2.py:13-15 | the generator from pattern `i` on adds up the layouts led by those patterns |
| Day19Reddit2.CountLoops | src/aoc/yr_2024/day_19/reddit_2.py:11-15 | with an empty pattern `count` never returns on a non-empty design |
| Day19Reddit2.CountFromLoops | src/aoc/yr_2024/day_19/reddit_2.py:13-15 | the same for the generator once the empty pattern is ahead |
| Day19Reddit2.CountSaysFormed | src/aoc/yr_2024/day_19/reddit_2.py:18-21 | `bool(count(d))` says whether `d` can be formed |
| Day19Reddit2.Truthy | src/aoc/yr_2024/day_19/reddit_2.py:20-21 | at most the number of counts |
| Day19Reddit2.TotalsOfCounts | src/aoc/yr_2024/day_19/reddit_2.py:18-21 | summed as bools the counts give the formable designs, as ints all layouts |
| Day19Reddit2.Solve | src/aoc/yr_2024/day_19/reddit_2.py:7-21 | the script prints the number of designs with a layout and the number of layouts of all designs; it fails exactly with fewer than two lines, or with an empty pattern and a non-empty design |
| Day19Reddit2.CountsOutcome | src/aoc/yr_2024/day_19/reddit_2.py:12-21 | the per-design counts fail exactly with an empty pattern and a non-empty design; otherwise the non-zero ones are the designs with a layout and their sum is the number of layouts |
| Day19Reddit4.PossibleAny | src/aoc/yr_2024/day_19/reddit_4.py:23-29 | True for the empty pattern; a failure is RecursionError on a non-empty pattern, and there is none without an empty stripe |
| Day19Reddit4.AnyFrom | src/aoc/yr_2024/day_19/reddit_4.py:25-29 | a failure is RecursionError, and there is none without an empty stripe |
| Day19Reddit4.PossibleAnyIsFormed | src/aoc/yr_2024/day_19/reddit_4.py:32-33 | under `any` the result says whether the pattern can be laid out |
| Day19Reddit4.AnyFromIsFormed | src/aoc/yr_2024/day_19/reddit_4.py:25-29 | the generator from stripe `i` on finds a layout led by one of those stripes |
| Day19Reddit4.PossibleSumIsWays | src/aoc/yr_2024/day_19/reddit_4.py:32-33 | under `sum` the result is the number of layouts, positive exactly when there is one |
| Day19Reddit4.EmptyPossible | src/aoc/yr_2024/day_19/reddit_4.py:25 | the empty pattern is possible under either reduction |
| Day19Reddit4.IsPossibleMeans | src/aoc/yr_2024/day_19/reddit_4.py:32-33 | the number added to the total: 1 or 0 under `any`, the number of layouts under `sum` |
| Day19Reddit4.TotalMeans | src/aoc/yr_2024/day_19/reddit_4.py:32-33 | the totals are the number of formable patterns and the number of all layouts |
| Day19Reddit4.TotalDefined | src/aoc/yr_2024/day_19/reddit_4.py:32-33 | without an empty stripe the totals are defined |
| Day19Reddit4.Script | src/aoc/yr_2024/day_19/reddit_4.py:14-33 | the script prints how many patterns can be laid out and how many layouts there are; ValueError with fewer than two lines; no failure otherwise without an empty stripe |
| Day19Reddit4.TotalsOutcome | src/aoc/yr_2024/day_19/reddit_4.py:30-33 | the `any` total is the number of patterns with a layout and the `sum` total the number of layouts; without an empty stripe neither fails |
| Day19Reddit4.AnyShortCircuits | src/aoc/yr_2024/day_19/reddit_4.py:25-29 | an empty stripe after a working one does no harm under `any`, while `count` fails on it |
| Day20.FindCharFrom | src/aoc/yr_2024/day_20/puzzle.py:55-62 | the generator from a cell on finds the first cell holding the character in row-major order, or None when no later cell does |
| Day20.FindChar | src/aoc/yr_2024/day_20/puzzle.py:50-62 | the first cell holding the character in row-major order; None exactly when no cell holds it |
| Day20.NextStep | src/aoc/yr_2024/day_20/puzzle.py:71-100 | the first open neighbour above, right, below or left, None exactly when no neighbour is open; TypeError on row 0 (and on column 0 when reached), where `point_above`/`point_left` give None |
| Day20.WalkDistinct | src/aoc/yr_2024/day_20/puzzle.py:64-101 | the walk never numbers a cell twice |
| Day20.WalkDistance | src/aoc/yr_2024/day_20/puzzle.py:64-101 | cells numbered `i` and `j` are at most `abs(j - i)` steps apart |
| Day20.StepsAtLeastDistance | src/aoc/yr_2024/day_20/puzzle.py:64-101 | the step counts of two cells differ by at least their Manhattan distance |
| Day20.WalkExtend | src/aoc/yr_2024/day_20/puzzle.py:70-98 | numbering the next cell extends the walk |
| Day20.NumberMazeSteps | src/aoc/yr_2024/day_20/puzzle.py:64-101 | TypeError without a start, IndexError for a start off the grid, TypeError only on a track reaching row 0 or column 0; otherwise a walk from the start that numbers track cells in order and stops where no open neighbour is left |
| Day20.WalkFrom | src/aoc/yr_2024/day_20/puzzle.py:69-101 | the loop from a start in the grid: the same walk |
| Day20.StuckOnBorder | src/aoc/yr_2024/day_20/puzzle.py:71-100 | the neighbour test fails only on a track cell of row 0 or column 0 |
| Day20.WalkStep | src/aoc/yr_2024/day_20/puzzle.py:70-98 | moving to the first open neighbour keeps the loop's invariant |
| Day20.MoreCells | src/aoc/yr_2024/day_20/puzzle.py:70 | numbering one more cell leaves fewer cells to number, so the loop ends |
| Day20.WalkEnds | src/aoc/yr_2024/day_20/puzzle.py:99-100 | the walk stops at a numbered cell with no open neighbour |
| Day20.WalkOffTrack | src/aoc/yr_2024/day_20/puzzle.py:69 | a start off the track numbers nothing |
| Day20.CellsGrow | src/aoc/yr_2024/day_20/puzzle.py:70 | numbering a cell of the grid leaves fewer cells to number |
| Day20.WalkTrackCells | src/aoc/yr_2024/day_20/puzzle.py:64-101 | every numbered cell is a track cell of the grid |
| Day20.Check2Spec | src/aoc/yr_2024/day_20/puzzle.py:103-122 | `check_2` records exactly the two-step cheats from the cell in that direction; it raises exactly in the stray cases (IndexError for a wall cell off the grid, KeyError for a track cell missing from the numbering) |
| Day20.ShortcutDirection | src/aoc/yr_2024/day_20/puzzle.py:109-112 | a two-step cheat's key is the one `check_2` builds from its start and direction |
| Day20.ShortcutSaves | src/aoc/yr_2024/day_20/puzzle.py:120-122 | a two-step cheat never loses time |
| Day20.AddFound2 | src/aoc/yr_2024/day_20/puzzle.py:120-122 | a successful `check_2` adds its cheat with its saving |
| Day20.DirIndex | src/aoc/yr_2024/day_20/puzzle.py:128-129 | one of the four directions, or none |
| Day20.Found2Means | src/aoc/yr_2024/day_20/puzzle.py:103-122 | `check_2` in one direction finds only the cheat from the cell in that direction |
| Day20.FoundInMeans | src/aoc/yr_2024/day_20/puzzle.py:128-129 | the first directions find the cheats from the cell running in one of them |
| Day20.FoundAtMeans | src/aoc/yr_2024/day_20/puzzle.py:124-129 | `check_point_for_cheats` finds exactly the two-step cheats from the cell, with their savings |
| Day20.FoundAlongMeans | src/aoc/yr_2024/day_20/puzzle.py:131-134 | `find_all_cheats` finds exactly the two-step cheats that start at a numbered cell, with their savings |
| Day20.MdCheatSaves | src/aoc/yr_2024/day_20/puzzle.py:150-156 | a part-2 cheat always saves time |
| Day20.MdRecordedTrans | src/aoc/yr_2024/day_20/puzzle.py:161-162 | recording from one set of starts and then another records from both |
| Day20.MdRecordStep | src/aoc/yr_2024/day_20/puzzle.py:148-156 | looking at one more end records the cheat when it is one |
| Day20.MdRecordedEnds | src/aoc/yr_2024/day_20/puzzle.py:145-148 | only the ends within the distance can close a cheat |
| Day20.Counter | src/aoc/yr_2024/day_20/puzzle.py:139-140 | `Counter(d.values())`: one count per value, the number of keys carrying it |
| Day20.CountSumRemove | src/aoc/yr_2024/day_20/puzzle.py:192 | the sum over the counter does not depend on its order |
| Day20.SumAtLeast | src/aoc/yr_2024/day_20/puzzle.py:192 | the loop adds the counts of the savings at least `t` |
| Day20.Without | src/aoc/yr_2024/day_20/puzzle.py:192 | the keys without those carrying the value |
| Day20.CounterWithout | src/aoc/yr_2024/day_20/puzzle.py:139-140 | dropping the keys carrying a value drops it from the counter and changes no other count |
| Day20.AtLeastWithout | src/aoc/yr_2024/day_20/puzzle.py:192 | the keys at least `t` split into those carrying the value and the rest |
| Day20.CounterSum | src/aoc/yr_2024/day_20/puzzle.py:192 | the counts of the savings at least `t` add up to the number of cheats saving at least `t` |
| Day20.PGrid.constructor | src/aoc/yr_2024/day_20/puzzle.py:30-37 | the fields as given, with no cheats recorded |
| Day20.PGrid.Check2 | src/aoc/yr_2024/day_20/puzzle.py:103-122 | the cheat found, if any, recorded with its saving; the error raised otherwise, with nothing recorded |
| Day20.PGrid.CheckPointForCheats | src/aoc/yr_2024/day_20/puzzle.py:124-129 | raises exactly when some direction is stray (KeyError from a numbered cell); otherwise adds exactly the two-step cheats from the cell |
| Day20.PGrid.FindAllCheats | src/aoc/yr_2024/day_20/puzzle.py:131-134 | KeyError exactly when some numbered cell has a stray direction; otherwise adds exactly the two-step cheats from every numbered cell |
| Day20.PGrid.CheckManDist | src/aoc/yr_2024/day_20/puzzle.py:142-156 | KeyError exactly when a nearby track cell is not numbered; otherwise records every cheat of at most the distance from the cell |
| Day20.PGrid.FindAllMhDistCheats | src/aoc/yr_2024/day_20/puzzle.py:158-162 | from no cheats: exactly the cheats of at most the distance, each with its saving; KeyError exactly in the stray case |
| Day20.PGrid.CountCheatsBySavings | src/aoc/yr_2024/day_20/puzzle.py:136-140 | the two-step cheats added, then counted by saving |
| Day20.PGrid.CountMhDistCheatsBySavings | src/aoc/yr_2024/day_20/puzzle.py:164-170 | exactly the cheats of at most the distance, counted by saving |
| Day20.Load | src/aoc/yr_2024/day_20/puzzle.py:30-37 | TypeError without `S` or when the walk meets row 0 or column 0; otherwise `S`, `E`, a non-empty walk numbered from `S`, and no cheats |
| Day20.Part1 | src/aoc/yr_2024/day_20/puzzle.py:187-193 | the number of two-step cheats that save at least 100 steps |
| Day20.Part2 | src/aoc/yr_2024/day_20/puzzle.py:214-222 | the number of cheats of at most the distance that save at least 100 steps |
| Day21.KeypadNamed | src/aoc/yr_2024/day_21/puzzle.py:84 | "numeric" picks the numeric keypad and any other name the arrow keypad |
| Day21.KeypadNames | src/aoc/yr_2024/day_21/puzzle.py:84 | "numeric", "arrow" and "arrows" pick the keypads the code means |
| Day21.GapsAreNoKeys | src/aoc/yr_2024/day_21/puzzle.py:51-73 | neither gap is the place of a key |
| Day21.PathExtend | src/aoc/yr_2024/day_21/puzzle.py:109-117 | one more move onto a key extends a path over the keys |
| Day21.WalkDistance | src/aoc/yr_2024/day_21/puzzle.py:109-112 | a path of moves changes the place by at most its length |
| Day21.PadPathLength | src/aoc/yr_2024/day_21/puzzle.py:79-119 | no path between two keys is shorter than their Manhattan distance |
| Day21.BfsShortestPaths | src/aoc/yr_2024/day_21/puzzle.py:79-119 | KeyError exactly for a key not on the keypad; otherwise every path found walks from the start key to the end key over keys only, all of one length; a key to itself gives `[""]` |
| Day21.Expand | src/aoc/yr_2024/day_21/puzzle.py:109-117 | the moves queued from an entry are paths over the keys from the start, and the queue only grows |
| Day21.Prepend | src/aoc/yr_2024/day_21/puzzle.py:124 | each entry put in front of each rest: as many as the product of the sizes, and exactly those |
| Day21.ProductChoices | src/aoc/yr_2024/day_21/puzzle.py:124 | `product` holds exactly the choices of one entry from each list |
| Day21.StringifyPaths | src/aoc/yr_2024/day_21/puzzle.py:122-124 | one string per choice of the product |
| Day21.StringifyMeans | src/aoc/yr_2024/day_21/puzzle.py:122-124 | each string is one path per press joined by "A", with a final "A" |
| Day21.MinLen | src/aoc/yr_2024/day_21/puzzle.py:129 | the least length among the strings, which one of them has |
| Day21.KeepLen | src/aoc/yr_2024/day_21/puzzle.py:130 | every string kept has that length |
| Day21.KeepLenCounts | src/aoc/yr_2024/day_21/puzzle.py:130 | the filter keeps every string of that length as often as it occurs and nothing else |
| Day21.KeepLenDistinct | src/aoc/yr_2024/day_21/puzzle.py:130 | filtering a list without repeats leaves one without repeats |
| Day21.KeepMinLenStrings | src/aoc/yr_2024/day_21/puzzle.py:127-130 | ValueError exactly for no strings |
| Day21.KeepMinLenMeans | src/aoc/yr_2024/day_21/puzzle.py:127-130 | the kept strings are exactly the shortest ones, each as often as it occurs, and there is one |
| Day21.FlattenRemoveDupes | src/aoc/yr_2024/day_21/puzzle.py:133-135 | every item of the inner lists exactly once, in some order |
| Day21.ShortestWithAMeans | src/aoc/yr_2024/day_21/puzzle.py:274-281 | an inner list becomes its shortest paths, each followed by "A"; `[]` stays `[]` |
| Day21.FilterShortestPaths | src/aoc/yr_2024/day_21/puzzle.py:270-283 | entry by entry, the shortest paths with "A" appended, `[]` for an empty list |
| Day21.FilteredSnoc | src/aoc/yr_2024/day_21/puzzle.py:273-281 | one more inner list extends the filtered list |
| Day21.Suffixed | src/aoc/yr_2024/day_21/puzzle.py:280 | each path followed by "A", in order |
| Day21.RStrip | src/aoc/yr_2024/day_21/puzzle.py:243 | the longest prefix not ending in the character, all of the rest being it |
| Day21.Complexity2 | src/aoc/yr_2024/day_21/puzzle.py:241-244 | a failure is ValueError |
| Day21.Complexity2OfCode | src/aoc/yr_2024/day_21/puzzle.py:241-244 | for digits and a final "A": the number the digits spell, times the length |
| Day21.StripOneA | src/aoc/yr_2024/day_21/puzzle.py:243 | stripping a code of digits and "A" leaves the digits |
| Day21.PyIntOfDigits | src/aoc/yr_2024/day_21/puzzle.py:243 | `int()` of digits is the number they spell |
| Day21.Complexity2OnlyA | src/aoc/yr_2024/day_21/puzzle.py:241-244 | a code of nothing but "A" is ValueError |
| Day21.PathsSoFarSnoc | src/aoc/yr_2024/day_21/puzzle.py:299 | paths for one more press extend those for the earlier presses |
| Day21.PathsSoFarDone | src/aoc/yr_2024/day_21/puzzle.py:299 | after every press: paths for each press, of one length per press |
| Day21.PathsSoFarStuck | src/aoc/yr_2024/day_21/puzzle.py:299 | a key the search cannot find is a key of the code off the keypad |
| Day21.KeyPaths | src/aoc/yr_2024/day_21/puzzle.py:295-299 | KeyError exactly when a key of the code is off the keypad; otherwise for each press paths over the keypad from the key before, of one length per press |
| Day21.BfsProcessCodeStr | src/aoc/yr_2024/day_21/puzzle.py:286-303 | KeyError exactly for a key off the keypad; otherwise one list per press, each entry a path over the keypad from the key before (starting at "A"), followed by "A" |
| Day21.RecursiveBfsProcess | src/aoc/yr_2024/day_21/puzzle.py:306-343 | no iterations return the codes as they are; with no codes `paths` is unbound (NameError); otherwise only the last code's layers come back, one item per press, each the recursion one iteration lower on the arrow keypad over a list of moves for that press (keypad paths from the previous key, then "A") |
| Day21Scratch.StringifyCount | src/aoc/yr_2024/day_21/scratch.py:89-91 | `stringify_paths` makes one layer per choice of one path per press: the product of the list sizes |
| Day21Scratch.StringifyTypes | src/aoc/yr_2024/day_21/scratch.py:89-91 | every layer built from the paths of each press types the code on the arrow keypad |
| Day21Scratch.Layers | src/aoc/yr_2024/day_21/scratch.py:167-175 | KeyError exactly for a key off the arrow keypad; otherwise every layer types the code |
| Day21Scratch.AllTypedSnoc | src/aoc/yr_2024/day_21/scratch.py:167-175 | one more code keeps every code's layers typing it |
| Day21Scratch.ProcDoorcode1 | src/aoc/yr_2024/day_21/scratch.py:164-178 | KeyError exactly for a key off the arrow keypad, then ValueError for no candidate layers; otherwise, without repeats, exactly the shortest of the candidate layers it built, each of which types one of the codes (that the candidates are all such layers is not proved) |
| Day21Scratch.As | src/aoc/yr_2024/day_21/scratch.py:201-204 | `n` copies of "A" |
| Day21Scratch.StripAs | src/aoc/yr_2024/day_21/scratch.py:203 | `rstrip("A")` removes every trailing "A" and no digit |
| Day21Scratch.Complexity2TrailingAs | src/aoc/yr_2024/day_21/scratch.py:201-204 | digits followed by any number of "A": the number times the length |
| Day21BadCode.Repeat | src/aoc/yr_2024/day_21/bad_code.py:38-41 | `c * n`: `n` copies of `c` |
| Day21BadCode.DPoint | src/aoc/yr_2024/day_21/bad_code.py:29-42 | KeyError exactly for a key not on the keypad |
| Day21BadCode.RepeatCount | src/aoc/yr_2024/day_21/bad_code.py:38-41 | `c * n` holds `n` times `c` |
| Day21BadCode.MovesCounts | src/aoc/yr_2024/day_21/bad_code.py:33-41 | the arrows are `abs(d_row)` vertical ones towards the end row and `abs(d_col)` horizontal ones towards the end column, and no "A" |
| Day21BadCode.TwoRepeats | src/aoc/yr_2024/day_21/bad_code.py:38-41 | two runs of arrows in either order hold the same arrows |
| Day21BadCode.MovesArrows | src/aoc/yr_2024/day_21/bad_code.py:34-41 | the moves are arrows only |
| Day21BadCode.DPointCounts | src/aoc/yr_2024/day_21/bad_code.py:29-42 | `abs(d_row)` vertical and `abs(d_col)` horizontal arrows towards the end key, then the only "A" |
| Day21BadCode.DPointOrder | src/aoc/yr_2024/day_21/bad_code.py:36-41 | vertical arrows first when the end key is in column 0, horizontal arrows first otherwise |
| Day21BadCode.DPointSameKey | src/aoc/yr_2024/day_21/bad_code.py:29-42 | from a key to itself only "A" |
| Day21BadCode.KeyAt | src/aoc/yr_2024/day_21/bad_code.py:3-25 | the key at a place of the keypad |
| Day21BadCode.Run | src/aoc/yr_2024/day_21/bad_code.py:29-64 | a robot that finishes its presses ends on a key |
| Day21BadCode.RunAppend | src/aoc/yr_2024/day_21/bad_code.py:53-63 | carrying out two runs of presses one after the other |
| Day21BadCode.RunPress | src/aoc/yr_2024/day_21/bad_code.py:42 | pressing "A" on a key types that key |
| Day21BadCode.RunLine | src/aoc/yr_2024/day_21/bad_code.py:38-41 | a straight run of one arrow over keys types nothing and moves the robot `n` keys on |
| Day21BadCode.ShiftClosed | src/aoc/yr_2024/day_21/bad_code.py:38-41 | `k` steps in a direction, counted out |
| Day21BadCode.NumericShape | src/aoc/yr_2024/day_21/bad_code.py:3-16 | the numeric keypad is four rows of three with the gap at the start of its last row |
| Day21BadCode.ArrowShape | src/aoc/yr_2024/day_21/bad_code.py:18-25 | the arrow keypad is two rows of three with the gap at the start of its first row |
| Day21BadCode.KeypadsInjective | src/aoc/yr_2024/day_21/bad_code.py:3-25 | both keypads give every key a place of its own |
| Day21BadCode.VerticalLeg | src/aoc/yr_2024/day_21/bad_code.py:36-41 | a vertical leg in one column passes keys only |
| Day21BadCode.HorizontalLeg | src/aoc/yr_2024/day_21/bad_code.py:36-41 | a horizontal leg in one row passes keys only |
| Day21BadCode.Leg | src/aoc/yr_2024/day_21/bad_code.py:36-41 | one straight leg of `dpoint` walks over keys and types nothing |
| Day21BadCode.DPointTypes | src/aoc/yr_2024/day_21/bad_code.py:29-42 | on either keypad the arrows lead from the start key to the end key without crossing the gap, and the "A" types the end key |
| Day21BadCode.PressesFrom | src/aoc/yr_2024/day_21/bad_code.py:52-63 | a failure is KeyError |
| Day21BadCode.Presses | src/aoc/yr_2024/day_21/bad_code.py:52-55 | a failure is KeyError |
| Day21BadCode.PressesFromOk | src/aoc/yr_2024/day_21/bad_code.py:52-63 | the presses succeed exactly when every key is on the keypad |
| Day21BadCode.PressesFromCountA | src/aoc/yr_2024/day_21/bad_code.py:52-63 | the presses hold one "A" per key |
| Day21BadCode.PressesFromArrows | src/aoc/yr_2024/day_21/bad_code.py:52-63 | the presses are keys of the arrow keypad |
| Day21BadCode.AllKeysAppend | src/aoc/yr_2024/day_21/bad_code.py:53-63 | joining keys of a keypad gives keys of it |
| Day21BadCode.ArrowKeys | src/aoc/yr_2024/day_21/bad_code.py:34-42 | arrows and a final "A" are keys of the arrow keypad |
| Day21BadCode.PressesFromTypes | src/aoc/yr_2024/day_21/bad_code.py:52-63 | a robot that carries out the presses types the code back |
| Day21BadCode.ProcessDoorcode | src/aoc/yr_2024/day_21/bad_code.py:46-64 | a failure is KeyError |
| Day21BadCode.ProcessDoorcodeSpec | src/aoc/yr_2024/day_21/bad_code.py:46-64 | fails exactly for a key off the numeric keypad; each layer has one "A" per key of the layer before, and a robot starting on "A" that carries it out types that layer |
| Day21Reddit2.Ints | src/aoc/yr_2024/day_21/reddit_2.py:16-22 | one integer per token of `-?\d+`, each the value `int()` gives it, in order |
| Day21Reddit2.IntsOfNumber | src/aoc/yr_2024/day_21/reddit_2.py:16-22 | the text of one integer holds just that integer |
| Day21Reddit2.ExampleTailTokens | src/aoc/yr_2024/day_21/reddit_2.py:16-22 | the tokens of `-34y5-6z` |
| Day21Reddit2.ExampleHeadTokens | src/aoc/yr_2024/day_21/reddit_2.py:16-22 | `xy2b` before the rest adds the token `2` |
| Day21Reddit2.IntsExampleTokens | src/aoc/yr_2024/day_21/reddit_2.py:16-22 | the tokens of the docstring's example |
| Day21Reddit2.IntsExampleValues | src/aoc/yr_2024/day_21/reddit_2.py:16-22 | the values of the docstring's example |
| Day21Reddit2.IntsExample | src/aoc/yr_2024/day_21/reddit_2.py:16-22 | `ints('xy2b-34y5-6z') == [2, -34, 5, -6]` |
| Day21Reddit2.CodeTokens | src/aoc/yr_2024/day_21/reddit_2.py:16-22 | the only token of a door code is its digits |
| Day21Reddit2.IntsOfCode | src/aoc/yr_2024/day_21/reddit_2.py:16-22 | `ints` of a door code is the number its digits spell |
| Day21Reddit2.LineComplexity | src/aoc/yr_2024/day_21/reddit_2.py:170-198 | IndexError exactly for a line without a number |
| Day21Reddit2.LineComplexityOfCode | src/aoc/yr_2024/day_21/reddit_2.py:170-198 | for a door code, the cost times the code's number |
| Day21Reddit2.GetPad | src/aoc/yr_2024/day_21/reddit_2.py:33-49 | None exactly off the rows or on the gap; otherwise the key at the place |
| Day21Reddit2.Pad1IsNumericKeypad | src/aoc/yr_2024/day_21/reddit_2.py:29 | `pad1` places the keys where the numeric keypad does |
| Day21Reddit2.Pad2IsArrowKeypad | src/aoc/yr_2024/day_21/reddit_2.py:30 | `pad2` places the keys where the arrow keypad does |
| Day21Reddit2.Pad2Cells | src/aoc/yr_2024/day_21/reddit_2.py:30 | the cells of `pad2` are exactly the places of the arrow keypad |
| Day21Reddit2.ApplyPad | src/aoc/yr_2024/day_21/reddit_2.py:52-75 | "A" stays and outputs the key under the robot; an arrow moves one cell with no output; any other move gives None |
| Day21Reddit2.StrLeTotal | src/aoc/yr_2024/day_21/reddit_2.py:87 | Python's string order is total |
| Day21Reddit2.StrLeRefl | src/aoc/yr_2024/day_21/reddit_2.py:87 | Python's string order is reflexive |
| Day21Reddit2.StrLeTrans | src/aoc/yr_2024/day_21/reddit_2.py:87 | Python's string order is transitive |
| Day21Reddit2.StateLeTotal | src/aoc/yr_2024/day_21/reddit_2.py:87 | the heap's entry order is total |
| Day21Reddit2.StateLeTrans | src/aoc/yr_2024/day_21/reddit_2.py:87 | the heap's entry order is transitive |
| Day21Reddit2.HeapMin | src/aoc/yr_2024/day_21/reddit_2.py:87 | `heappop` takes an entry no other is smaller than |
| Day21Reddit2.Without | src/aoc/yr_2024/day_21/reddit_2.py:87 | the queue without the popped entry, in order |
| Day21Reddit2.PressesAreArrowKeys | src/aoc/yr_2024/day_21/reddit_2.py:100 | the moves tried are the keys of the arrow keypad |
| Day21Reddit2.ReachedStart | src/aoc/yr_2024/day_21/reddit_2.py:82-84 | the first entry: nothing pressed yet |
| Day21Reddit2.ReachedStep | src/aoc/yr_2024/day_21/reddit_2.py:100-111 | pushing the entry after a move extends its moves and prices |
| Day21Reddit2.PricedSnoc | src/aoc/yr_2024/day_21/reddit_2.py:108 | pricing one more move extends the prices |
| Day21Reddit2.RunSnoc | src/aoc/yr_2024/day_21/reddit_2.py:103-107 | carrying out one more move extends the run |
| Day21Reddit2.RunOutputBound | src/aoc/yr_2024/day_21/reddit_2.py:105-107 | each move outputs at most one key |
| Day21Reddit2.SumAtLeastCount | src/aoc/yr_2024/day_21/reddit_2.py:108-111 | costs of at least one each add up to at least their number |
| Day21Reddit2.PressCostPositive | src/aoc/yr_2024/day_21/reddit_2.py:117-165 | every press costs the operator at least one press |
| Day21Reddit2.TypesCodeCost | src/aoc/yr_2024/day_21/reddit_2.py:78-111 | typing a code costs at least one press per key |
| Day21Reddit2.SeenCellsAdd | src/aoc/yr_2024/day_21/reddit_2.py:155 | recording a key in `SEEN` adds its place |
| Day21Reddit2.EntryReachedSnoc | src/aoc/yr_2024/day_21/reddit_2.py:164 | pushing an entry keeps every entry reached by its moves |
| Day21Reddit2.Search2Start | src/aoc/yr_2024/day_21/reddit_2.py:130-135 | the search's state at its start |
| Day21Reddit2.CoveredAfterPop | src/aoc/yr_2024/day_21/reddit_2.py:137-154 | popping a dropped entry keeps every covered place covered |
| Day21Reddit2.OutputsAfterPop | src/aoc/yr_2024/day_21/reddit_2.py:137-150 | popping an entry that has not output `ch` keeps an entry that has |
| Day21Reddit2.ClosedDrop | src/aoc/yr_2024/day_21/reddit_2.py:137-154 | dropping a popped entry keeps the search closed |
| Day21Reddit2.EntriesDrop | src/aoc/yr_2024/day_21/reddit_2.py:137-154 | dropping a popped entry keeps every entry reached and no cheaper than it |
| Day21Reddit2.FoundPrice | src/aoc/yr_2024/day_21/reddit_2.py:142-148 | an entry that has output `ch` prices pressing it |
| Day21Reddit2.Search2Drop | src/aoc/yr_2024/day_21/reddit_2.py:140-154 | dropping the popped entry keeps the loop's state |
| Day21Reddit2.WithoutAppend | src/aoc/yr_2024/day_21/reddit_2.py:164 | popping before or after the pushes is the same |
| Day21Reddit2.MoveIndex | src/aoc/yr_2024/day_21/reddit_2.py:156 | each arrow has its place in the order of the moves |
| Day21Reddit2.CoveredGrow | src/aoc/yr_2024/day_21/reddit_2.py:155-164 | more entries and more of `SEEN` keep a place covered |
| Day21Reddit2.OutputsGrow | src/aoc/yr_2024/day_21/reddit_2.py:164 | more entries keep an entry that has output `ch` |
| Day21Reddit2.ClosedExpand | src/aoc/yr_2024/day_21/reddit_2.py:155-164 | expanding an entry keeps the search closed |
| Day21Reddit2.EntriesExpand | src/aoc/yr_2024/day_21/reddit_2.py:155-164 | the pushed entries are reached and no cheaper than the popped one |
| Day21Reddit2.Search2Expand | src/aoc/yr_2024/day_21/reddit_2.py:151-164 | popping an unseen entry, recording it in `SEEN` and pushing its moves keeps the loop's state |
| Day21Reddit2.ArrowCells | src/aoc/yr_2024/day_21/reddit_2.py:30 | exactly five places of `pad2` hold a key |
| Day21Reddit2.ArrowPadConnected | src/aoc/yr_2024/day_21/reddit_2.py:30 | the keys of the arrow keypad hang together |
| Day21Reddit2.SeenReachesAll | src/aoc/yr_2024/day_21/reddit_2.py:136-164 | with nothing queued, `SEEN` spreads from the start to every key |
| Day21Reddit2.Search2NeverEmpty | src/aoc/yr_2024/day_21/reddit_2.py:136-165 | the queue never runs dry before `ch` is output, so `assert False` is never reached |
| Day21Reddit2.Entries1Start | src/aoc/yr_2024/day_21/reddit_2.py:82-84 | `solve1`'s first entry is reached from "A" |
| Day21Reddit2.Entries1Pop | src/aoc/yr_2024/day_21/reddit_2.py:87-88 | a popped entry of `solve1` is reached by its moves and follows an arrow-keypad move |
| Day21Reddit2.Entries1Push | src/aoc/yr_2024/day_21/reddit_2.py:100-111 | the entries `solve1` pushes are reached by their moves |
| Day21Reddit2.TypedPrice | src/aoc/yr_2024/day_21/reddit_2.py:89-90 | an entry that has typed the code prices typing it, at least one press per key |
| Day21Reddit2.CostTable.constructor | src/aoc/yr_2024/day_21/reddit_2.py:114 | `DP` starts empty |
| Day21Reddit2.CostTable.Cost2 | src/aoc/yr_2024/day_21/reddit_2.py:117-165 | a remembered cost comes back as stored; 1 with no keypad between; AssertionError exactly for a bad move or keypad count; otherwise a cost of at least 1 that prices the press, stored in `DP`; no stored cost changes |
| Day21Reddit2.CostTable.Cheapest | src/aoc/yr_2024/day_21/reddit_2.py:136-165 | the loop always ends with a cost of at least 1 that prices the press; the cost is not proved the least of the candidates |
| Day21Reddit2.CostTable.Visit | src/aoc/yr_2024/day_21/reddit_2.py:137-164 | one pass: a found cost prices the press; otherwise the loop's state is kept and `SEEN` grows or the queue shrinks |
| Day21Reddit2.CostTable.Expand | src/aoc/yr_2024/day_21/reddit_2.py:100-111 | AssertionError exactly for a negative level; otherwise one entry per move in order, each dearer than the popped one and placed as `apply_pad` says |
| Day21Reddit2.CostTable.Solve1 | src/aoc/yr_2024/day_21/reddit_2.py:78-111 | a cost returned is at least the code's length and prices a way to type the code; the empty code costs 0; a negative keypad count with a non-empty code raises AssertionError |
| Day22.Xor | src/aoc/yr_2024/day_22/puzzle.py:75 | Python's `^`: the result is negative exactly when one operand is |
| Day22.NatXorUnfold | src/aoc/yr_2024/day_22/puzzle.py:75 | exclusive or works one binary digit at a time |
| Day22.NatXorCommutes | src/aoc/yr_2024/day_22/puzzle.py:75 | exclusive or commutes |
| Day22.NatXorSelf | src/aoc/yr_2024/day_22/puzzle.py:75 | a value xor itself is 0 |
| Day22.NatXorCancel | src/aoc/yr_2024/day_22/puzzle.py:75 | xor with the same value twice gives back the first operand |
| Day22.NatXorCancelLeft | src/aoc/yr_2024/day_22/puzzle.py:75 | xor with the same value twice, from the left |
| Day22.XorCommutes | src/aoc/yr_2024/day_22/puzzle.py:92 | Python's `^` commutes, for operands of any sign |
| Day22.XorSelf | src/aoc/yr_2024/day_22/puzzle.py:92 | a value xor itself is 0 |
| Day22.XorTwice | src/aoc/yr_2024/day_22/puzzle.py:92 | xor with the same value twice gives back the other operand |
| Day22.Mix | src/aoc/yr_2024/day_22/puzzle.py:86-93 | mixing the same value in again restores the secret, and a secret mixed into itself gives 0 |
| Day22.Prune | src/aoc/yr_2024/day_22/puzzle.py:96-103 | the low 24 bits: in 0..16777215 and congruent to the secret |
| Day22.Pow2At24 | src/aoc/yr_2024/day_22/puzzle.py:100-101 | 16777216 is 2 to the 24th |
| Day22.PruneIdempotent | src/aoc/yr_2024/day_22/puzzle.py:96-103 | pruning twice is pruning once |
| Day22.NatXorLowBits | src/aoc/yr_2024/day_22/puzzle.py:92 | the low bits of an exclusive or only depend on the low bits of its operands |
| Day22.NextSecret | src/aoc/yr_2024/day_22/puzzle.py:106-121 | every next secret is in 0..16777215 |
| Day22.FirstRoundLow24 | src/aoc/yr_2024/day_22/puzzle.py:118 | the first round only depends on the low 24 bits of the secret |
| Day22.XorTimes64Low24 | src/aoc/yr_2024/day_22/puzzle.py:118 | the low 24 bits of `secret * 64 ^ secret` depend only on the low 24 bits of the secret |
| Day22.TimesLow24 | src/aoc/yr_2024/day_22/puzzle.py:118 | multiplying by 64 keeps low 24 bits that depend only on the secret's low 24 bits |
| Day22.NextSecretLow24 | src/aoc/yr_2024/day_22/puzzle.py:106-121 | the next secret only depends on the low 24 bits of a non-negative secret |
| Day22.IterateInRange | src/aoc/yr_2024/day_22/puzzle.py:128-130 | every secret after the first is in 0..16777215 |
| Day22.SeenMeans | src/aoc/yr_2024/day_22/puzzle.py:126-130 | the set holds exactly the secrets met so far |
| Day22.FirstsSeen | src/aoc/yr_2024/day_22/puzzle.py:173-177 | the list holds the same secrets as the set |
| Day22.IterateShift | src/aoc/yr_2024/day_22/puzzle.py:129 | equal secrets have equal successors |
| Day22.RepeatSeen | src/aoc/yr_2024/day_22/puzzle.py:128-130 | once a secret repeats, every later secret is one already met |
| Day22.GrowOrStall | src/aoc/yr_2024/day_22/puzzle.py:128-130 | one more step meets a new secret or leaves the set and list unchanged |
| Day22.FreshCount | src/aoc/yr_2024/day_22/puzzle.py:128-130 | without repeats, `k` steps meet `k + 1` secrets, listed in order |
| Day22.TraceSnoc | src/aoc/yr_2024/day_22/puzzle.py:174-177 | one more secret extends the list |
| Day22.FreshPrefix | src/aoc/yr_2024/day_22/puzzle.py:128 | a prefix of a run without repeats has none |
| Day22.CollectingStart | src/aoc/yr_2024/day_22/puzzle.py:126-127 | the collecting loop's state at its start |
| Day22.CollectingStep | src/aoc/yr_2024/day_22/puzzle.py:128-130 | one pass keeps the collecting loop's state |
| Day22.CollectingDone | src/aoc/yr_2024/day_22/puzzle.py:128-132 | the loop stops with `n + 1` distinct secrets and the `n`-th secret current |
| Day22.CollectingUnfinished | src/aoc/yr_2024/day_22/puzzle.py:128 | a running loop has taken fewer than `n` steps when no secret repeats within `n` |
| Day22.NthNewSecret | src/aoc/yr_2024/day_22/puzzle.py:124-132 | the `n`-th secret when none of the first `n + 1` repeat; `start` for `n <= 0`; no result when a secret repeats, where the source never returns |
| Day22.FirstNSecrets | src/aoc/yr_2024/day_22/puzzle.py:171-178 | the first `n + 1` secrets in order; `[secret]` for `n <= 0`; no result when a secret repeats |
| Day22.Price | src/aoc/yr_2024/day_22/puzzle.py:166-168 | a digit 0..9 congruent to the secret mod 10 |
| Day22.PricesSnoc | src/aoc/yr_2024/day_22/puzzle.py:189 | one more secret adds its price at the end |
| Day22.FirstNPrices | src/aoc/yr_2024/day_22/puzzle.py:181-190 | the prices of the first `n + 1` secrets, under the same stopping rule as `first_n_secrets` |
| Day22.Deltas | src/aoc/yr_2024/day_22/puzzle.py:193-196 | one change fewer than there are prices |
| Day22.Rebuild | src/aoc/yr_2024/day_22/puzzle.py:193-196 | one price more than there are changes, starting at the first |
| Day22.DeltasRoundTrip | src/aoc/yr_2024/day_22/puzzle.py:193-196 | the first price and the changes give back every price |
| Day22.DeltasBounded | src/aoc/yr_2024/day_22/puzzle.py:193-196 | changes between prices lie in -9..9 |
| Day22.ExtendedDeltas | src/aoc/yr_2024/day_22/puzzle.py:224 | one entry more than the changes |
| Day22.PriceDeltaPairs | src/aoc/yr_2024/day_22/puzzle.py:222-231 | one pair per price from index 4 on: the price with the four changes ending at it; no `None` in any key |
| Day22.FirstValuesSnoc | src/aoc/yr_2024/day_22/puzzle.py:236-238 | one more pair keeps the first value of every key |
| Day22.FirstSeqPrice | src/aoc/yr_2024/day_22/puzzle.py:235-238 | each key maps to the value paired with it first |
| Day22.FirstValuesOfPrices | src/aoc/yr_2024/day_22/puzzle.py:222-238 | the map of first prices by pair is the map of first sales by price |
| Day22.ProcessSecret | src/aoc/yr_2024/day_22/puzzle.py:208-240 | every run of four changes in the first `n + 1` prices maps to the price where it first ends, and nothing else; empty for `n <= 0` |
| Day22.TotalAppend | src/aoc/yr_2024/day_22/puzzle.py:202-204 | totals add up over a split list of dicts |
| Day22.TotalMissing | src/aoc/yr_2024/day_22/puzzle.py:202-204 | a key in none of the dicts totals 0 |
| Day22.AddItems | src/aoc/yr_2024/day_22/puzzle.py:203-204 | the keys of either map, each with the two values added |
| Day22.CombineDicts | src/aoc/yr_2024/day_22/puzzle.py:199-205 | the keys of any dict, each with the sum of its values across the dicts |

## Left out

- File and console I/O: every `read_data`, `read_grid`, `read_file`, `read_as_rows` and `read_csv_data` file read is left out; where the parsing matters it is modelled as a function on text. Also left out: `rich` output, logging, `print_*` and `draw*` helpers, and the module-level `part1`/`part2` runs with their expected totals.
- `breakpoint()` calls, the `cProfile`/`pstats` code of day 11 and the `time_it` timer: they do not change results.
- Iteration order of Python sets and dicts: where the source walks a set, the model picks its elements in an unspecified order and proves the results do not depend on it (day 12 regions, day 21 `flatten_remove_dupes`, day 22 `combine_dicts`).
- Heap ties: `heapq` is modelled as a sequence from which an entry that no other is smaller than is popped; ties among equal entries are not ordered as `heapq` orders them.
- Loops with a `fuel: nat` bound return "not finished" once the fuel is used up. These are the guard walks of day 6, `fix_pages_move`, the searches of days 16, 18 and 19, `solve1` of day 21's reddit_2.py, and the secret-number loops of day 22. Nothing is claimed about inputs on which the source would run longer than the fuel allows.
- Day21.BfsShortestPaths: when the fuel runs out before the queue empties, it returns `Ok` with the shortest paths found so far, which may be none (fuel 1 from `A` to `0` gives `[]`, where the source gives `["<"]`). The result is then not the source's: every returned path is still a keypad path from key to key, but paths may be missing. Its callers `KeyPaths`, `BfsProcessCodeStr`, `RecursiveBfsProcess`, `Day21Scratch.Layers` and `ProcDoorcode1` pass such partial lists on; their contracts hold for whatever lists the search returned.
- Day16.DijkstraMazeRelaxed: picks the end directions with the corrected `BestEndDirs` (only the directions at the least cost), not with the loop of day_16/puzzle.py:246-259, which also keeps a costlier direction found earlier; see "## Findings". On the maze where that loop differs, the model counts only the cheapest paths' tiles.
- Day16.Part2: inherits the corrected end-direction choice of `Day16.DijkstraMazeRelaxed`, so its count differs from the source's on the inputs of that finding.
- Day06Puzzle.Puzzle.constructor: finds the guard with the corrected `FindGuardFixed`. For a guard in column 0, `Puzzle.__init__` raises IndexError in the source (see "## Findings"); the model builds the puzzle instead.
- Day06Puzzle2.Puzzle.constructor: the same corrected guard search as `Day06Puzzle.Puzzle.constructor`, with the same difference for a guard in column 0.
- Day06Backup.Puzzle.constructor: the same corrected guard search as `Day06Puzzle.Puzzle.constructor`, with the same difference for a guard in column 0.
- Day04.Upper: maps only the ASCII letters `a`-`z` to upper case. Python's `str.upper` also maps other letters and can lengthen a string (`ß` becomes `SS`). Puzzle inputs are ASCII, where the two agree.
- Day14.FindInts: `\d` matches only the ASCII digits `0`-`9`. Python's `re` also matches other Unicode decimal digits. Puzzle inputs are ASCII.
- Day21Reddit2.Ints: the same ASCII-only `\d` as `Day14.FindInts`.
- Day03.MatchEnd: the `\d*` groups of `mul\(\d*,\d*\)` match only the ASCII digits `0`-`9` (`Common.AllDigits`); Python's `re` also matches other Unicode decimal digits, which `int()` would then accept. The same holds for every Day03 member built on `MatchEnd`. Puzzle inputs are ASCII.
- Common.PyInt: accepts an optional sign and ASCII digits, with surrounding ASCII whitespace (`Common.Strip` strips space, tab, line feed, carriage return, vertical tab, form feed and the separators 0x1C to 0x1F). Python's `int()` also accepts `_` between digits, non-ASCII decimal digits and non-ASCII Unicode whitespace. This reaches `Day09.ParsePairs`, `Day10.EqualsRef`, `Day21.Complexity2` and every other parse through `PyInt`. Puzzle inputs are ASCII without underscores.
- Rectangular grids: the grid members require every row to be as long as the first. `Day04.Rectangular` (required by `Day04.CreateDiagonalLines`, `Day04.Part1`, `Day04.Part2` and their helpers), `Day10.IsRect` (required by every Day10 grid member) and `GridPoints.Grid.FromRows` also require at least one row, and `PuzzleMap.PuzzleMap.constructor` requires only that. `Common.Rectangular`, required by `Day15.Create` and the maze members of `Day16`, accepts the empty grid, and those members model its error path. In the source, a row shorter than the first raises IndexError when it is read, and a longer row is read only up to the first row's width. Puzzle files are rectangular.
- Day16.DijkstraMaze: proves the returned path is a walk from start to end over passable cells, and ties the returned cost to it only by `|path| <= cost + 1`; it proves neither that the cost is the path's own cost (steps plus 1000 per turn) nor that it is the least possible.
- Day16.Part1: inherits this: the score it answers is not proved to be the least cost from start to end, only to come with a walk from the start to the end.
- Day16.DijkstraMazeRelaxed: proves the relaxation rules and that the paths rebuilt from the parents reach the end, not that they are all the cheapest paths.
- Day18.Dijkstra: proves a returned distance comes with a walk at most that long, and that -1 means no walk exists; it does not prove the distance is the shortest.
- Day18.Probe: inherits this: a count of 0 or more is proved to be at least the corners' Manhattan distance and to come with a way through, not to be the shortest way's length.
- Day18.Part1: the same as `Day18.Probe`: the answer is not proved to be the least number of steps.
- Day21.BfsShortestPaths: proves each path goes from key to key over keypad keys only and that all paths have one length of at least the Manhattan distance; it does not prove that no shorter path exists. The same goes for the BFS of scratch.py.
- Day21Reddit2.CostTable.Cost2: proves the cost is at least 1 and prices a real sequence of presses, not that it is the least such cost.
- Day21Reddit2.CostTable.Solve1: proves the cost prices a way to type the code, not that it is the cheapest way.
- Day21Reddit2.CostTable.Cheapest: proves the cost is at least 1 and prices a real sequence of presses, not that it is the least over the candidate paths it compares.
- Day21Reddit2.CostTable.Solve1: the `SEEN` dict of `solve1` is never written in the source, so its check never fires and is not modelled.
- The `path` field of the heap entries in `solve1` and `cost2` is always the empty string and is not modelled.
- Day22.NextSecretLow24: stated only for non-negative secrets; the source never produces a negative one after the first.
- Day22: the `if False:` printing block of `process_secret`, the `max` in `part2`, the dict comprehension of `part1`, and the printing `xor`, `print_bin_*` and `print_10` helpers.
- Day14.MoveN: requires the robots to be distinct objects. The source would move a robot listed twice twice over, and the model does not capture that aliasing.
- Day14: the `part2` stub and the drawing functions. The expectations in puzzle_test.py contradict the code and are not used.
- Day11: stones are naturals; a negative stone would put a `-` in its decimal text, and the source never makes one.
- Day12: `get_region_value` and the 140, 772 and 1930 test totals. The totals need the puzzle files.
- Day13: the grouping of lines in `read_data` and the expected total of 480, which needs the puzzle file.
- Day16: the expected totals 7036, 1148, 45 and 64, which need the puzzle files.
- Day17: line 43 of day_17/puzzle.py is not valid Python. The model follows the evident intent: `instr_ptr` defaults to 0. The empty `part1` is left out.
- Day05: `find_network`, `fix_order` and `part2` rely on networkx's topological sort, which is not part of this model.
- Day06: `count_xs` and `print_map` only print.
- Day10: `find_nearby_values`, `count_nearby_peaks`, `print_positions` and `fooling_around` are experiments outside the puzzle's result.
- Day15: `find_chars`, `next_move`, `robot_clear`, `draw` and `read_data` are left out. `can_move` has an empty body. `next_robot_position` is inlined as the adjacent cell.
- Day19: `part1`, `part2`, `find_shortest_towel_combo`, `shortest_permutation_with_replacement`, `all_shortest_permutations_dijkstra` (breakpoints in the loop), the stub `reddit_find_syllable` and the `testing*` functions are left out. reddit_3.py builds a regular expression at run time; the regex library is not part of this model.
- Day20: `find_char_old` and `print_sorted_cheat_counts`.
- Day21: `bfs_process_doorcode`, `bfs_process_doorcode_multiple`, `complexity`, `part1` and `part2` (15 robots) are left out. Of `recursive_bfs_process`, the base case and the last code's layers are modelled.
- Day21Scratch: `bfs_shortest_paths` (scratch.py:48-86) and `flatten_remove_dupes` (scratch.py:100-102) repeat the code of day_21/puzzle.py and are not modelled a second time; `Day21.BfsShortestPaths` and `Day21.FlattenRemoveDupes` stand for both.
- Day21Reddit2: the two script loops (lines 168-198) run `solve1` on fixed inputs and print; only the complexity of one line is modelled.
- grid_points.py imports `find_continuous_values`, `find_continuous_values_ge`, `find_continuous_values_le` and `series_from` at module level (grid_points.py:8-13), and utils.py defines none of them, so as written importing grid_points.py fails, and with it days 12, 14, 18 and 20. The model assumes this import succeeds, as it does for `flatten` below; the `drop_adjacent_points_*` helpers that use these functions are not part of this model.
- `flatten`, imported by days 11 and 16, is missing from the repository; it is modelled as one-level concatenation.
- Pydantic's own type coercion in days 15 and 17: only the explicit validators are modelled.
- `float('inf')` sentinels in days 19 and 21 are modelled as an option or a bound, not as floats.

## Findings

| source | as written | input that shows it | evidently intended | confidence | as-written member | corrected member |
|---|---|---|---|---|---|---|
| src/aoc/2024/day_02/puzzle.py:100-107 | `part2` counts a report only when `keep_row_with_damp` returns a truthy list | the empty report `[]`: it passes part 1 (no differences), but `[]` is falsy, so part 2 drops it and counts fewer than part 1 | count every report the dampener keeps, so part 2 is never below part 1 | not executed | Day02.EmptyReportDroppedByPart2 | Day02.Part2KeptAtLeastPart1 |
| src/aoc/2024/day_04/puzzle.py:61 | `create_diagonal_lines` builds `2 * height` diagonals per family, so on a grid with more than `height + 1` columns the diagonals from `2 * height` on are never built | the grid `["........S", ".......A.", "......M..", ".....X..."]` (4 rows, 9 columns): XMAS lies on the diagonal `r + c == 8`, which `part1` never reads | one diagonal per value of `r + c`, `height + width - 1` per family | not executed | Day04.FarXmasMissed | Day04.Part1Corrected |
| src/aoc/yr_2024/day_06/puzzle.py:74-84 | the guard refuses only `n > len(s)`, so `n == len(s)` gets through | `replace_char("..", 2, "O")` returns `"..O"` and the row grows; with `"+"` it raises IndexError | refuse every index outside the string with ValueError | not executed | Day06Puzzle.ReplaceCharOnePastEnd | Day06Puzzle.ReplaceCharChecked |
| src/aoc/yr_2024/day_06/puzzle.py:92-98 | `find_guard` keeps only rows whose guard index is truthy | `["^."]`: the guard is in column 0, index 0 is falsy, and the search raises IndexError | find the first row holding a heading, whatever its column | not executed | Day06Puzzle.FindGuardMissesColumnZero | Day06Puzzle.FindGuardFixed |
| src/aoc/yr_2024/day_09/puzzle.py:152-180 | `fill_spaces` fills gaps from the end but reads blocks already emptied into earlier gaps | disk map "10131": the written fill gives [0, 1, 2, 1, 0] and hash 8 | each file block is written once: [0, 1, 2] and hash 5 | not executed | Day09.FillSpacesRepeatsIds | Day09.FillSpacesCorrected |
| src/aoc/yr_2024/day_16/puzzle.py:246-259 | the end-direction loop appends every direction whose cost is at most the best found so far | the end reached northward at cost 10, then southward at 5: both N and S are kept | keep only the directions at the least cost | not executed | Day16.EndDirsAsWrittenKeepsCostlier | Day16.BestEndDirs |
| src/aoc/pyutils/grid_points.py:155-173 | `point_below` and `point_right` return None only when the row or column is already past the edge | from the bottom row, `point_below` returns a point one row outside the grid | return None when the neighbour is outside the grid, as the docstrings say | not executed | GridPoints.PointBelowLeavesGrid | GridPoints.PointBelowInGrid |
