# Advent of Code 2025 solvers, modelled in Dafny

This project models the puzzle solvers of `advent_of_code_2025`: one
`Solver` per day, each with a `part_1` and a `part_2` that read the puzzle
input and return the answer, plus the command line's `day` validator. Each
source file has its own Dafny module:

- `Day01` … `Day12` model `day_NN/solver.py`. Part 2 of day 11 has its own module, `Day11Part2`.
- `Cli` models the `day` argument check of `__init__.py`.
- Four shared modules stand for the Python built-ins the solvers lean on:
  - `Parsing` covers `str.strip`, `str.split`, `int` and `Option`. Whitespace is Python's `str.isspace` set, Unicode spaces included.
  - `Sorting` covers `sorted`, `list.sort` and `heapq`, as one insertion sort proved sorted and a permutation.
  - `Bisect` covers `bisect_left` and `bisect_right`, as CPython's binary search.
  - `Sums` covers `sum` over lines and over sets.

An input file is a sequence of lines, `seq<string>`, without line ends. Day 2 reads a single string.

A Python exception becomes `None`. Examples are an `int` that does not parse, a
`KeyError`, an `IndexError`, or a `ValueError` from unpacking. A solver that
raises is modelled as returning `None`.

The imperative code is modelled as methods with loops: the running sums, the
stacks, the union-find of day 8 (a `class` whose fields the methods update),
and the breadth-first search of day 10. Each method is proved to compute a
specification function. Lemmas then prove what the puzzle asks of that
function:
- the largest in-order digits (day 3);
- the rolls outside the greatest stable core (day 4);
- the number of distinct IDs held (day 5);
- the fewest presses (day 10);
- the number of paths (day 11).

The puzzle examples from the test files are proved as lemmas where the
solvers have them.

## Model

| member | source | states |
|---|---|---|
| Parsing.DigitChar | src/advent_of_code_2025/day_02/solver.py:36 | a digit character for each value below 10, read back by `int` |
| Parsing.Decimal | src/advent_of_code_2025/day_02/solver.py:36 | a decimal spelling is a non-empty digit string |
| Parsing.DecimalValue | src/advent_of_code_2025/day_02/solver.py:36 | the decimal spelling of n is read back as n |
| Parsing.TrimLeftDrops | src/advent_of_code_2025/day_03/solver.py:36 | stripping on the left drops only leading whitespace (Python's `isspace` set, Unicode spaces included) and stops at a non-space |
| Parsing.TrimRightDrops | src/advent_of_code_2025/day_03/solver.py:36 | stripping on the right drops only trailing whitespace (Python's `isspace` set, Unicode spaces included) and stops at a non-space |
| Parsing.ParseIntDecimal | src/advent_of_code_2025/day_01/solver.py:19 | `int` reads every decimal spelling back |
| Parsing.Split | src/advent_of_code_2025/day_05/solver.py:29 | `split` on a separator yields at least one part |
| Parsing.SplitDigitsThen | src/advent_of_code_2025/day_05/solver.py:29 | splitting digits, a non-digit separator and more text gives the digits, then the split of the rest |
| Parsing.StripDigitEnds | src/advent_of_code_2025/day_05/solver.py:27 | a line that starts and ends with a digit is its own `strip` |
| Parsing.WordsSkipSpaces | src/advent_of_code_2025/day_12/solver.py:29 | `split()` ignores leading whitespace |
| Parsing.ParseInts | src/advent_of_code_2025/day_12/solver.py:29 | one integer per word when every word parses |
| Sorting.Insert | src/advent_of_code_2025/day_05/solver.py:42 | inserting adds exactly one element |
| Sorting.InsertSorted | src/advent_of_code_2025/day_05/solver.py:42 | inserting into a sorted sequence keeps it sorted |
| Sorting.SortBy | src/advent_of_code_2025/day_05/solver.py:42 | `sorted` returns a permutation of its input |
| Sorting.SortBySorted | src/advent_of_code_2025/day_05/solver.py:42 | `sorted` returns its input in ascending order |
| Sorting.SortByIdentity | src/advent_of_code_2025/day_09/solver.py:113 | sorting a sorted sequence leaves it as it is |
| Sorting.SortByPrefix | src/advent_of_code_2025/day_08/solver.py:99 | `heapq.nsmallest` gives the smallest m elements in order: none left behind comes before one taken |
| Sorting.PairLeOrders | src/advent_of_code_2025/day_05/solver.py:42 | Python's order on pairs is a total preorder |
| Sorting.TripleLeOrders | src/advent_of_code_2025/day_09/solver.py:115-122 | Python's order on triples, and its reverse, are total preorders |
| Sorting.IntGeOrders | src/advent_of_code_2025/day_08/solver.py:104 | the descending order on integers is a total preorder |
| Sums.SeqSumDistinct | src/advent_of_code_2025/day_02/solver.py:110-118 | distinct numbers sum to the sum of their set |
| Bisect.BisectLeft | src/advent_of_code_2025/day_05/solver.py:62 | `bisect_left` on sorted keys returns the first index whose key is at least the target |
| Bisect.BisectRight | src/advent_of_code_2025/day_09/solver.py:74-76 | `bisect` on sorted keys returns the first index whose key is above the target |
| Parsing.StripEnds | src/advent_of_code_2025/day_03/solver.py:36 | a line that starts and ends with a character that is not whitespace in Python's sense (so neither U+00A0 nor U+0085, say) is its own `strip` |
| Parsing.UnicodeSpaces | src/advent_of_code_2025/day_03/solver.py:36 | `strip` removes a leading U+00A0 and a trailing U+0085, and `split()` splits at U+00A0, as Python does |
| Parsing.SplitFirst | src/advent_of_code_2025/day_11/solver.py:33 | `split` cuts at the first occurrence of the separator, when nothing before it starts one |
| Parsing.SplitNone | src/advent_of_code_2025/day_12/solver.py:28 | text without the separator's first character splits into itself alone |
| Parsing.WordsAround | src/advent_of_code_2025/day_12/solver.py:29 | a space between two texts separates their words: `split()` of the join is the two word lists in turn |
| Parsing.WordsWhole | src/advent_of_code_2025/day_12/solver.py:29 | a non-empty text without whitespace in Python's sense (U+00A0 included) is one word |
| Sums.TotalFails | src/advent_of_code_2025/day_10/solver.py:100-101 | a line without an answer makes the whole sum fail (the program raises) |
| Sums.AnsweredNext | src/advent_of_code_2025/day_03/solver.py:26-49 | each answered line adds its answer to the running sum |
| Sums.TotalAll | src/advent_of_code_2025/day_10/solver.py:100-101 | when every line has an answer the result is the sum of the answers |
| Day01.ParseRotation | src/advent_of_code_2025/day_01/solver.py:18-19 | a line parses exactly when it has a first character and `int` accepts the rest; the turn is left exactly when that character is 'L', and the amount is the rest's value |
| Day01.FormatParses | src/advent_of_code_2025/day_01/solver.py:18-19 | reading back the puzzle's spelling of a rotation gives that rotation |
| Day01.Rotations | src/advent_of_code_2025/day_01/solver.py:17-19 | one rotation per line, each the one its line parses to |
| Day01.LinesParse | src/advent_of_code_2025/day_01/solver.py:17-19 | the lines spelling a list of rotations all parse, back to that list |
| Day01.Turn | src/advent_of_code_2025/day_01/solver.py:20-24 | after a rotation the position is in 0..99 (non-negative modulo) |
| Day01.Dial | src/advent_of_code_2025/day_01/solver.py:14-24 | the position after any number of rotations from 50 is in 0..99 |
| Day01.Zeros | src/advent_of_code_2025/day_01/solver.py:26 | the number of rotations that leave the dial at 0 is at most the number of rotations |
| Day01.Clicks | src/advent_of_code_2025/day_01/solver.py:39-47 | one rotation adds its full turns and at most one more, and nothing more when it starts at 0 |
| Day01.ReducedTurn | src/advent_of_code_2025/day_01/solver.py:40-50 | reducing the amount modulo 100 before moving leaves part 2's positions those of part 1 |
| Day01.Part1 | src/advent_of_code_2025/day_01/solver.py:12-28 | the line loop from 50 returns the number of rotations that leave the dial at 0, or fails where a line does not parse |
| Day01.Part2 | src/advent_of_code_2025/day_01/solver.py:30-52 | the line loop from 50 returns the sum of the per-rotation click counts over the positions part 1 visits, or fails where a line does not parse |
| Day01.ClicksCountZeroHits | src/advent_of_code_2025/day_01/solver.py:39-47 | part 2's arithmetic for one rotation equals the number of single clicks of that rotation at which the dial points at 0 |
| Day01.Part2CountsEveryZeroClick | src/advent_of_code_2025/day_01/solver.py:30-52 | part 2's total is the number of clicks, over all rotations, at which the dial points at 0 |
| Day01.ExampleAnswers | test/test_day_01.py:13-26 | the example rotations give 3 for part 1 and 6 for part 2 |
| Day01.RotationsSnoc | src/advent_of_code_2025/day_01/solver.py:17-19 | one more line that parses appends its rotation to those read |
| Day01.DialSnoc | src/advent_of_code_2025/day_01/solver.py:20-50 | one more rotation moves the dial by one turn, adds one zero exactly when it stops at 0, and adds its clicks to part 2's total |
| Day02.Finish | src/advent_of_code_2025/day_02/solver.py:42 | the end of input always emits one more pair |
| Day02.ParseInput | src/advent_of_code_2025/day_02/solver.py:26-42 | the character loop yields exactly the pairs of the state machine: digits accumulate in decimal into the current field, ',' emits the pair and resets, any other character moves to the next field, and the last pair is emitted at the end |
| Day02.RunFirstDigits | src/advent_of_code_2025/day_02/solver.py:35-36 | digits read into the first field accumulate their decimal value |
| Day02.RunSecondDigits | src/advent_of_code_2025/day_02/solver.py:35-38 | after a separator, digits accumulate their decimal value in the second field |
| Day02.ParseFormat | src/advent_of_code_2025/day_02/solver.py:26-42 | parsing the puzzle's text of a list of ranges ("a-b,c-d,...") gives that list back |
| Day02.RepeatAtLeast | src/advent_of_code_2025/day_02/solver.py:72-76 | the smallest candidate of a shape bounds every number of later shapes, so the generator's early exits skip nothing |
| Day02.BlocksDone | src/advent_of_code_2025/day_02/solver.py:74-77 | a block loop that runs out of blocks or breaks at a number above the bound has produced every number of that repeat count up to the bound |
| Day02.RepeatsDone | src/advent_of_code_2025/day_02/solver.py:73-88 | once the first block of a repeat count is too large (or only one repeat is wanted), every larger repeat count holds nothing up to the bound |
| Day02.LengthsDone | src/advent_of_code_2025/day_02/solver.py:72-91 | once two copies of the smallest block of a length are too large, every longer block is too, so the outer loop ends with every shape covered |
| Day02.GenerateInvalid | src/advent_of_code_2025/day_02/solver.py:55-91 | the generator yields distinct numbers, each at most the bound and a block repeated (exactly twice when repeat_once), and every such number up to the bound is yielded |
| Day02.MaskStep | src/advent_of_code_2025/day_02/solver.py:88 | `mask * start_num * 10 + 1` is the mask for one more repeat, and it strictly grows the loop's bound |
| Day02.RepeatDecimal | src/advent_of_code_2025/day_02/solver.py:75 | a k-digit block times the mask for r repeats is spelled as the block's digits written r times |
| Day02.MakeIntervals | src/advent_of_code_2025/day_02/solver.py:44-53 | the intervals are the parsed pairs, sorted |
| Day02.EndBound | src/advent_of_code_2025/day_02/solver.py:108 | every range ends below the bound |
| Day02.SortedSeparated | src/advent_of_code_2025/day_02/solver.py:107-114 | in sorted, disjoint ranges each later range is the same or lies wholly after |
| Day02.BisectFinds | src/advent_of_code_2025/day_02/solver.py:114-115 | the range bisect picks by its end holds the number exactly when some range does |
| Day02.EndsSorted | src/advent_of_code_2025/day_02/solver.py:114 | the ends of sorted disjoint ranges are sorted, as bisect requires |
| Day02.LastEndIsMax | src/advent_of_code_2025/day_02/solver.py:108 | the last range's end is the largest end, so it bounds every number in a range |
| Day02.GenericSolve | src/advent_of_code_2025/day_02/solver.py:93-118 | the solver fails exactly when the text does not parse; on disjoint well-formed ranges it returns the sum of the invalid numbers that lie in some range |
| Day02.FoundStep | src/advent_of_code_2025/day_02/solver.py:114-116 | each generated number adds itself to the sum exactly when the bisected range holds it |
| Day02.SameMembers | src/advent_of_code_2025/day_02/solver.py:53 | sorting changes neither the ranges nor the numbers they hold |
| Day02.GeneratedInRanges | src/advent_of_code_2025/day_02/solver.py:107-116 | the generated numbers found in a range are exactly the invalid numbers in the ranges |
| Day02.PartOneWithinPartTwo | src/advent_of_code_2025/day_02/solver.py:120-126 | every number part 1 adds (a block written twice) is one part 2 adds |
| Day02.RunFormat | src/advent_of_code_2025/day_02/solver.py:26-42 | scanning the text of a list of ranges leaves all but the last emitted and the last pending |
| Day02.ParseScanned | src/advent_of_code_2025/day_02/solver.py:42 | text whose scan leaves the last range pending parses to every range, the last emitted at the end |
| Day02.SumFound | src/advent_of_code_2025/day_02/solver.py:110-116 | on distinct numbers and sorted, well-formed, disjoint ranges, the loop's sum is the sum of the numbers some range holds |
| Day03.LineDigits | src/advent_of_code_2025/day_03/solver.py:21-22 | a line that reads gives one digit 0..9 per character of the stripped line |
| Day03.MaxOf | src/advent_of_code_2025/day_03/solver.py:24 | `past` is a digit of the prefix at least as large as all of them (0 before any) |
| Day03.BestPairBounds | src/advent_of_code_2025/day_03/solver.py:20-24 | `best` is in 0..99 and at least 10·d_i + d_j for every i < j |
| Day03.BestPairAttained | src/advent_of_code_2025/day_03/solver.py:20-24 | on a line of two or more digits `best` is 10·d_i + d_j for some i < j |
| Day03.BestPairIsLargestPair | src/advent_of_code_2025/day_03/solver.py:20-24 | `best` is the largest two-digit number spelled by two digits in order (the lone digit of a one-digit line) |
| Day03.BestPair | src/advent_of_code_2025/day_03/solver.py:20-24 | the running-maximum loop over one line leaves `best` equal to the largest in-order pair |
| Day03.LeftmostMax | src/advent_of_code_2025/day_03/solver.py:40 | the chosen position holds a largest digit of its window, larger than every digit before it in the window |
| Day03.GreedyFrom | src/advent_of_code_2025/day_03/solver.py:35-44 | the greedy choice from a position has exactly the number of digits asked for |
| Day03.GreedyEmbeds | src/advent_of_code_2025/day_03/solver.py:35-44 | the greedy digits are digits of the line in order |
| Day03.GreedyIsLargest | src/advent_of_code_2025/day_03/solver.py:35-44 | no in-order choice of the same number of digits comes lexicographically after the greedy one |
| Day03.FirstIsLeftmostMax | src/advent_of_code_2025/day_03/solver.py:40-44 | the first kept digit of a stack meeting the pop conditions is the leftmost maximum of its window |
| Day03.ConditionsDrop | src/advent_of_code_2025/day_03/solver.py:40-44 | the pop conditions still hold after dropping the first kept digit |
| Day03.CharacterizeGreedy | src/advent_of_code_2025/day_03/solver.py:40-44 | a stack meeting the pop conditions is the greedy choice |
| Day03.PopStep | src/advent_of_code_2025/day_03/solver.py:40-41 | popping a smaller top while enough digits remain keeps the pop loop's invariant |
| Day03.WindowsStep | src/advent_of_code_2025/day_03/solver.py:40-44 | after the pops, the digit just read is no larger than any kept digit whose window it lies in |
| Day03.AfterPops | src/advent_of_code_2025/day_03/solver.py:43-44 | pushing when the stack has room (or not pushing when it is full) restores the stack invariant for the next digit |
| Day03.StackDone | src/advent_of_code_2025/day_03/solver.py:38-44 | after the whole line the stack is the greedy choice of min(n, 12) digits |
| Day03.KeepLargest | src/advent_of_code_2025/day_03/solver.py:35-44 | the monotonic-stack loop leaves the greedy choice of min(n, 12) digits |
| Day03.Joltage | src/advent_of_code_2025/day_03/solver.py:46-48 | the digits are read left to right into the decimal number they spell |
| Day03.ValueBounds | src/advent_of_code_2025/day_03/solver.py:46-48 | k digits spell a number below 10^k |
| Day03.ValueFront | src/advent_of_code_2025/day_03/solver.py:46-48 | the leading digit weighs 10^(k-1) |
| Day03.LexLeValue | src/advent_of_code_2025/day_03/solver.py:46-48 | among digit strings of one length, lexicographic order is numeric order |
| Day03.LargestJoltage | src/advent_of_code_2025/day_03/solver.py:35-48 | the stack spells the largest number that any min(n, 12) digits of the line, in order, can spell, and it is such a choice |
| Day03.GreedyPairAtMostBest | src/advent_of_code_2025/day_03/solver.py:20-24 | the greedy pair is no larger than part 1's `best` |
| Day03.BestAtMostGreedyPair | src/advent_of_code_2025/day_03/solver.py:20-24 | part 1's `best` is no larger than the greedy pair |
| Day03.BestPairIsGreedy | src/advent_of_code_2025/day_03/solver.py:20-48 | part 1's running maximum is part 2's greedy choice with two digits |
| Day03.Part1 | src/advent_of_code_2025/day_03/solver.py:15-28 | part 1 is the sum over the lines of the largest in-order pair |
| Day03.Part2 | src/advent_of_code_2025/day_03/solver.py:30-51 | part 2 is the sum over the lines of the largest number spelled by 12 digits in order |
| Day03.DigitsOf | src/advent_of_code_2025/day_03/solver.py:21-39 | `int(c)` over a digit string gives one digit 0..9 per character |
| Day03.LeftmostMaxIsMax | src/advent_of_code_2025/day_03/solver.py:40-44 | the chosen position holds a largest digit of its window, and every digit before it in the window is smaller |
| Day03.PopKeeps | src/advent_of_code_2025/day_03/solver.py:40-41 | popping the top while more than 12 digits remain keeps the stack facts |
| Day03.PopBelow | src/advent_of_code_2025/day_03/solver.py:40-41 | a pop happens only when the digit read beats the top, so every digit between the new top and it is smaller |
| Day03.AfterPush | src/advent_of_code_2025/day_03/solver.py:43-44 | with room on the stack, pushing the digit read restores the outer loop's facts |
| Day03.AfterFull | src/advent_of_code_2025/day_03/solver.py:43 | on a full stack that the digit read does not beat, skipping it restores the outer loop's facts |
| Day03.LineBestPair | src/advent_of_code_2025/day_03/solver.py:19-24 | part 1's inner loop on one line gives the line's joltage for two digits, failing where `int` raises |
| Day03.LineLargest | src/advent_of_code_2025/day_03/solver.py:35-48 | part 2's stack and number loops on one line give the line's joltage for k digits, failing where `int` raises |
| Day03.LargestTotal | src/advent_of_code_2025/day_03/solver.py:32-51 | the loop over the lines adds each line's joltage, failing where a line does |
| Day03.BankJoltage | src/advent_of_code_2025/day_03/solver.py:20-48 | a bank of digits has the joltage spelled by the greedy choice of min(n, k) of its digits |
| Day03.FourLines | test/test_day_03.py:15-20 | four lines with answers a, b, c and d total a + b + c + d |
| Day03.ExampleAnswers | test/test_day_03.py:13-23 | the example banks total 357 with two digits and 3121910778619 with twelve |
| Day04.Neighbours | src/advent_of_code_2025/day_04/solver.py:19-33 | the generator yields 8 distinct cells, exactly those differing from the cell by at most 1 in each coordinate, the cell itself excluded |
| Day04.NeighbourSymmetric | src/advent_of_code_2025/day_04/solver.py:19-33 | being neighbours is symmetric and never relates a cell to itself |
| Day04.Around | src/advent_of_code_2025/day_04/solver.py:57-62 | a cell has at most 8 rolls around it |
| Day04.AroundMono | src/advent_of_code_2025/day_04/solver.py:57-62 | more rolls never give a cell fewer rolls around it |
| Day04.CountInRemove | src/advent_of_code_2025/day_04/solver.py:98 | removing one roll lowers a cell's count by one exactly when that roll is its neighbour |
| Day04.InRolls | src/advent_of_code_2025/day_04/solver.py:17-54 | the rolls are the in-bounds cells holding '@' |
| Day04.RectangularNeverCrashes | src/advent_of_code_2025/day_04/solver.py:46-62 | a non-empty grid whose rows share one length never raises IndexError |
| Day04.CountAt | src/advent_of_code_2025/day_04/solver.py:51-64 | a count-grid entry is in -1..8 and is -1 exactly for the cells that are not rolls |
| Day04.FillStep | src/advent_of_code_2025/day_04/solver.py:52-64 | writing one cell's count extends the filled prefix of the grid by one cell |
| Day04.SafeStep | src/advent_of_code_2025/day_04/solver.py:52-64 | a cell that does not raise extends the safe prefix |
| Day04.CountAround | src/advent_of_code_2025/day_04/solver.py:57-62 | the neighbour loop raises exactly when an in-bounds neighbour lies past the end of its row, and otherwise counts the rolls around the cell |
| Day04.FillCell | src/advent_of_code_2025/day_04/solver.py:53-64 | one cell either raises, exactly when its count does, or extends the filled and safe prefixes |
| Day04.RowEnd | src/advent_of_code_2025/day_04/solver.py:51-53 | the cells past the end of a short row keep their -1 |
| Day04.FillRow | src/advent_of_code_2025/day_04/solver.py:53-64 | one row either raises, exactly when one of its rolls does, or extends the filled and safe prefixes to the next row |
| Day04.SurroundingCounts | src/advent_of_code_2025/day_04/solver.py:35-66 | the count grid is |grid| by the first row's width, holds each roll's count of rolls around it and -1 elsewhere, and the function raises exactly on an empty grid or a roll whose count reads past a row |
| Day04.Grid | src/advent_of_code_2025/day_04/solver.py:46 | the grid is the lines, each stripped |
| Day04.Accessible | src/advent_of_code_2025/day_04/solver.py:71 | accessible rolls are rolls |
| Day04.CoreStable | src/advent_of_code_2025/day_04/solver.py:89-103 | the rolls that peeling can never remove form a set in which every roll has at least 4 of them around it |
| Day04.CoreGreatest | src/advent_of_code_2025/day_04/solver.py:89-103 | every set of rolls in which each has at least 4 around it lies inside the core |
| Day04.NotInCore | src/advent_of_code_2025/day_04/solver.py:95-101 | a roll with fewer than 4 neighbours among the rolls still holding the core is outside the core |
| Day04.AccessibleOutsideCore | src/advent_of_code_2025/day_04/solver.py:71-103 | every roll part 1 counts is one part 2 removes, so part 1's answer is at most part 2's |
| Day04.RollsCounted | src/advent_of_code_2025/day_04/solver.py:35-66 | the grid `_get_surrounding_counts` returns is the count grid of the rolls |
| Day04.PrefixStep | src/advent_of_code_2025/day_04/solver.py:71 | each visited cell adds one to the row-major count exactly when it is counted |
| Day04.AccessibleCell | src/advent_of_code_2025/day_04/solver.py:71 | a cell is accessible exactly when its entry is neither -1 nor 4 or more |
| Day04.CountRow | src/advent_of_code_2025/day_04/solver.py:71 | one row's sum adds that row's accessible rolls |
| Day04.CountAccessible | src/advent_of_code_2025/day_04/solver.py:71 | the sum over the count grid is the number of accessible rolls |
| Day04.Part1 | src/advent_of_code_2025/day_04/solver.py:68-71 | part 1 is the number of rolls with fewer than 4 rolls around them, or fails when counting does |
| Day04.Retrack | src/advent_of_code_2025/day_04/solver.py:86-100 | after one write the grid still tracks the peeling state |
| Day04.SeedStart | src/advent_of_code_2025/day_04/solver.py:80-81 | before the seeding loop nothing is removed and the grid tracks the rolls |
| Day04.SeedSkip | src/advent_of_code_2025/day_04/solver.py:83-84 | a cell with -1 or 4 or more is passed over and stays crowded |
| Day04.RowDone | src/advent_of_code_2025/day_04/solver.py:81-82 | a finished row hands over to the next |
| Day04.SeedTake | src/advent_of_code_2025/day_04/solver.py:86-87 | taking an accessible roll out keeps the visited live rolls crowded |
| Day04.PushStack | src/advent_of_code_2025/day_04/solver.py:87-101 | the stack never holds a cell twice |
| Day04.Seed | src/advent_of_code_2025/day_04/solver.py:81-87 | one seeding step marks an accessible roll -1 and pushes it, keeping the peeling invariant |
| Day04.PopExpected | src/advent_of_code_2025/day_04/solver.py:92-98 | removing the popped roll while its neighbours still count it leaves every expected entry unchanged |
| Day04.PopStack | src/advent_of_code_2025/day_04/solver.py:92 | the popped cell is one that was waiting, and the rest of the stack holds the others |
| Day04.PopStart | src/advent_of_code_2025/day_04/solver.py:90-92 | popping a roll keeps the peeling invariant with its 8 neighbours still to relax |
| Day04.RelaxSkip | src/advent_of_code_2025/day_04/solver.py:95-96 | a neighbour outside the grid or below 4 is passed over |
| Day04.RelaxCrowded | src/advent_of_code_2025/day_04/solver.py:98-101 | after the decrement every other live roll keeps its count and stays crowded |
| Day04.LiveCrowded | src/advent_of_code_2025/day_04/solver.py:95 | a live roll lies in the grid and holds at least 4 |
| Day04.Relax | src/advent_of_code_2025/day_04/solver.py:94-101 | one neighbour step decrements a live neighbour and pushes it (marked -1) when it drops below 4, keeping the peeling invariant |
| Day04.PeelDone | src/advent_of_code_2025/day_04/solver.py:90 | when the stack is empty the rolls left are the core |
| Day04.Peel | src/advent_of_code_2025/day_04/solver.py:77-103 | the peeling loop returns the number of rolls outside the core |
| Day04.Part2 | src/advent_of_code_2025/day_04/solver.py:73-103 | part 2 is the number of rolls removed until every roll left has at least 4 rolls around it, or fails when counting does |
| Day04.CoreIdempotent | src/advent_of_code_2025/day_04/solver.py:89-103 | peeling what is left removes nothing more |
| Day05.FirstBlank | src/advent_of_code_2025/day_05/solver.py:27-31 | the interval lines are exactly those before the first line that is blank once stripped (all of them when none is) |
| Day05.SplitDash | src/advent_of_code_2025/day_05/solver.py:29 | `split("-")` on two digit strings joined by a dash gives them back |
| Day05.ParseIntervalDecimal | src/advent_of_code_2025/day_05/solver.py:29 | the line `a-b` reads back as the interval (a, b) |
| Day05.ParseIntervalsAt | src/advent_of_code_2025/day_05/solver.py:27-31 | the interval lines parse exactly when each one does, each to its own interval in order |
| Day05.IdLines | src/advent_of_code_2025/day_05/solver.py:59 | the ID lines are the lines after the blank line, none when there is none |
| Day05.ReadIntervals | src/advent_of_code_2025/day_05/solver.py:18-31 | the readline loop returns the intervals before the first blank line and leaves the file at the ID lines |
| Day05.ReadMore | src/advent_of_code_2025/day_05/solver.py:29-30 | an interval line that parses appends its interval to those read so far |
| Day05.ReadFails | src/advent_of_code_2025/day_05/solver.py:29 | an interval line that does not parse makes the whole read fail |
| Day05.MergeStep | src/advent_of_code_2025/day_05/solver.py:46-49 | one merge step widens the last interval or appends one |
| Day05.Merge | src/advent_of_code_2025/day_05/solver.py:44-51 | merging never lengthens the list and keeps a non-empty list non-empty |
| Day05.MergeStepShape | src/advent_of_code_2025/day_05/solver.py:46-49 | a merge step keeps the intervals separated with ascending starts |
| Day05.MergeShape | src/advent_of_code_2025/day_05/solver.py:42-51 | merging sorted intervals leaves separated intervals, each starting after the previous one ends |
| Day05.CoversSnoc | src/advent_of_code_2025/day_05/solver.py:49 | appending an interval adds exactly its IDs |
| Day05.MergeStepCovers | src/advent_of_code_2025/day_05/solver.py:46-49 | a merge step holds exactly what the list held plus the new interval's IDs |
| Day05.MergeCovers | src/advent_of_code_2025/day_05/solver.py:44-51 | merging sorted intervals keeps exactly the IDs they hold |
| Day05.CoversPermutation | src/advent_of_code_2025/day_05/solver.py:42 | sorting keeps exactly the IDs held |
| Day05.MergeWellFormed | src/advent_of_code_2025/day_05/solver.py:47 | merging non-empty intervals keeps them non-empty |
| Day05.MergeFixed | src/advent_of_code_2025/day_05/solver.py:44-51 | merging separated intervals changes nothing |
| Day05.AdjacentStayApart | src/advent_of_code_2025/day_05/solver.py:46 | ranges that touch without sharing an ID (3-5, 6-8) are not merged |
| Day05.Ends | src/advent_of_code_2025/day_05/solver.py:62 | the bisect keys are the intervals' ends, in order |
| Day05.ChainApart | src/advent_of_code_2025/day_05/solver.py:44-51 | in the merged list every interval lies wholly before each later one |
| Day05.SortMergeShape | src/advent_of_code_2025/day_05/solver.py:42-51 | sorting then merging gives no more intervals, separated with ascending starts, holding exactly the original IDs |
| Day05.GetIntervals | src/advent_of_code_2025/day_05/solver.py:33-51 | `_get_intervals` returns the sorted, merged intervals: no more of them, separated, ascending, holding exactly the original IDs |
| Day05.GetIntervalsIdempotent | src/advent_of_code_2025/day_05/solver.py:33-51 | sorting and merging merged intervals again changes nothing |
| Day05.LookupCorrect | src/advent_of_code_2025/day_05/solver.py:62-63 | the interval at the bisect index holds the ID exactly when some interval does; past the last end none does |
| Day05.EndsSorted | src/advent_of_code_2025/day_05/solver.py:62 | the merged ends are sorted, as bisect requires |
| Day05.CountCovered | src/advent_of_code_2025/day_05/solver.py:59-63 | the count of fresh IDs is at most the number of IDs |
| Day05.CountCoveredSnoc | src/advent_of_code_2025/day_05/solver.py:63 | each ID adds one exactly when some interval holds it |
| Day05.PrefixFailsInts | src/advent_of_code_2025/day_05/solver.py:61 | an ID line that does not parse makes part 1 fail |
| Day05.IsFresh | src/advent_of_code_2025/day_05/solver.py:62-63 | the bisect test holds only for held IDs, and on non-empty intervals exactly for them |
| Day05.Part1 | src/advent_of_code_2025/day_05/solver.py:53-65 | part 1 fails exactly when an interval or an ID does not parse, and otherwise counts the IDs some interval holds |
| Day05.Span | src/advent_of_code_2025/day_05/solver.py:72 | an interval holds exactly the IDs from its start to its end |
| Day05.SpanSize | src/advent_of_code_2025/day_05/solver.py:72 | an interval holds end - start + 1 IDs |
| Day05.CoveredSetMembers | src/advent_of_code_2025/day_05/solver.py:72 | the covered set is the set of IDs some interval holds |
| Day05.CoveredSize | src/advent_of_code_2025/day_05/solver.py:72 | on separated non-empty intervals the lengths add up to the number of IDs held |
| Day05.Part2 | src/advent_of_code_2025/day_05/solver.py:67-72 | part 2 fails exactly when an interval does not parse and otherwise is the number of distinct IDs the intervals hold |
| Day05.MergedCount | src/advent_of_code_2025/day_05/solver.py:42-72 | sorting and merging keeps the set of IDs, whose size is the merged length sum |
| Day05.DecimalLine | src/advent_of_code_2025/day_05/solver.py:27-29 | a written interval line reads back, stripped, as its interval |
| Day05.FormatDatabase | src/advent_of_code_2025/day_05/solver.py:18-59 | a database file holds one line per interval, a blank line and one line per ID |
| Day05.ParseDecimals | src/advent_of_code_2025/day_05/solver.py:61 | decimal ID lines read back as the IDs |
| Day05.ReadFormatted | src/advent_of_code_2025/day_05/solver.py:18-61 | a written database reads back as its intervals, then its ID lines and IDs |
| Day05.ExampleText | test/test_day_05.py:15-27 | the example file is the written form of its intervals and IDs |
| Day05.ExampleCovers | test/test_day_05.py:15-27 | in the example 5, 11 and 17 are held and 1, 8 and 32 are not |
| Day05.ExampleCoversRange | test/test_day_05.py:15-19 | the example ranges hold 3-5 and 10-20 |
| Day05.ExampleSize | test/test_day_05.py:15-29 | the example ranges hold 14 IDs |
| Day05.ExampleAnswers | test/test_day_05.py:15-29 | on the example file part 1 gives 3 and part 2 gives 14 |
| Day05.MergeLastStart | src/advent_of_code_2025/day_05/solver.py:46-47 | the last merged interval of a sorted prefix starts no later than the next interval |
| Day05.MergeLoop | src/advent_of_code_2025/day_05/solver.py:44-51 | the merge loop widens the last interval or appends, leaving the merge of the sorted intervals |
| Day05.ExampleCount | test/test_day_05.py:15-28 | three of the example IDs are fresh |
| Day05.ExampleCovered | test/test_day_05.py:15-19 | the example ranges hold exactly 3..5 and 10..20 |
| Day06.NextStart | src/advent_of_code_2025/day_06/solver.py:38-40 | the inner scan stops at the first column from its start that holds no space, or at the end of the operator line |
| Day06.Cut | src/advent_of_code_2025/day_06/solver.py:43-44 | a group holds one slice per value row |
| Day06.StartsShape | src/advent_of_code_2025/day_06/solver.py:35-46 | the scan starts a group at column 0 and at every later column holding an operator character, in increasing order |
| Day06.GroupsAt | src/advent_of_code_2025/day_06/solver.py:35-46 | group j is each row sliced from its start up to the separator column before the next start (columns between all spaces), the last group to the end of each row |
| Day06.Width | src/advent_of_code_2025/day_06/solver.py:52-54 | `zip_longest` runs to the longest row's length |
| Day06.Columns | src/advent_of_code_2025/day_06/solver.py:49-57 | a transposed group has one text per column of its longest row |
| Day06.ColumnsAt | src/advent_of_code_2025/day_06/solver.py:49-57 | column c of a rectangular group holds each row's character c, top to bottom |
| Day06.ColumnsTwice | src/advent_of_code_2025/day_06/solver.py:49-57 | transposing a rectangular group twice gives it back |
| Day06.RemoveSpaces | src/advent_of_code_2025/day_06/solver.py:60 | removing spaces leaves no space and never lengthens the text |
| Day06.RemoveSpacesAppend | src/advent_of_code_2025/day_06/solver.py:60 | space removal distributes over concatenation |
| Day06.RemoveSpacesKeeps | src/advent_of_code_2025/day_06/solver.py:60 | a text without spaces is left as it is |
| Day06.RemoveSpacesBlank | src/advent_of_code_2025/day_06/solver.py:60 | a text of spaces only disappears |
| Day06.ParseNumberSpaced | src/advent_of_code_2025/day_06/solver.py:60 | spaces around a number's digits do not change the number read |
| Parsing.ParseAllAt | src/advent_of_code_2025/day_06/solver.py:59-62 | a list of texts reads exactly when each does, each to its own value |
| Parsing.ParseAllBack | src/advent_of_code_2025/day_06/solver.py:59-62 | texts that read one by one as given values read as that list |
| Day06.SpacedGroup | src/advent_of_code_2025/day_06/solver.py:59-62 | a group of space-padded decimals reads as those numbers |
| Day06.Transposed | src/advent_of_code_2025/day_06/solver.py:49-57 | transposing keeps the number of groups |
| Day06.GroupsRead | src/advent_of_code_2025/day_06/solver.py:59-62 | the groups read exactly when every text is a number, each to its own number |
| Day06.SheetGroups | src/advent_of_code_2025/day_06/solver.py:33-65 | the parse succeeds exactly when every row slice (or, transposed, every column) is a number; the numbers are those, and the operators are the words of the last line |
| Day06.ReadsBack | src/advent_of_code_2025/day_06/solver.py:59-62 | texts that read as given numbers parse to exactly those numbers |
| Day06.ParseInput | src/advent_of_code_2025/day_06/solver.py:17-65 | the scanning loops, the optional transpose and the number conversion give the sheet the group specification describes |
| Day06.SumAppend | src/advent_of_code_2025/day_06/solver.py:90-101 | the sum of a concatenation is the sum of the sums |
| Day06.ProductAppend | src/advent_of_code_2025/day_06/solver.py:91-101 | the product of a concatenation is the product of the products |
| Day06.ApplySpec | src/advent_of_code_2025/day_06/solver.py:89-98 | `apply` is defined exactly for the operators "+" and "*" (anything else is a KeyError) |
| Day06.Apply | src/advent_of_code_2025/day_06/solver.py:79-103 | the fold from the operator's identity gives the sum for "+" and the product for "*", 0 and 1 for no numbers |
| Day06.Zip | src/advent_of_code_2025/day_06/solver.py:106 | `zip` pairs up to the shorter of groups and operators |
| Day06.ZipIgnoresExtra | src/advent_of_code_2025/day_06/solver.py:106 | operators past the last group are never used |
| Day06.TotalDefined | src/advent_of_code_2025/day_06/solver.py:106 | the total is defined exactly when every paired operator is "+" or "*" |
| Day06.SumApplied | src/advent_of_code_2025/day_06/solver.py:106 | the running sum equals the total of `apply` over the pairs |
| Day06.GenericSolve | src/advent_of_code_2025/day_06/solver.py:67-106 | `_generic_solve` is the total of `apply` over the parsed groups paired with their operators |
| Day06.TotalStops | src/advent_of_code_2025/day_06/solver.py:98-106 | one unknown operator makes the whole total fail |
| Day06.Part1 | src/advent_of_code_2025/day_06/solver.py:108-110 | part 1 reads every row slice of a group as one number |
| Day06.Part2 | src/advent_of_code_2025/day_06/solver.py:112-114 | part 2 reads every column of a group, top to bottom, as one number |
| Day06.ExampleGroups | test/test_day_06.py:15-20 | the example is cut into four groups at columns 0, 4, 8 and 12 |
| Day06.ExampleOperators | test/test_day_06.py:19 | the example's operator line splits into "*", "+", "*", "+" |
| Day06.ExampleRowSheet | test/test_day_06.py:15-20 | read by rows, the example's groups are 123 45 6, 328 64 98, 51 387 215 and 64 23 314 |
| Day06.ExampleColumnSheet | test/test_day_06.py:15-20 | read by columns, the example's groups are 1 24 356, 369 248 8, 32 581 175 and 623 431 4 |
| Day06.ExampleAnswers | test/test_day_06.py:15-22 | the example gives 4277556 read by rows and 3263827 read by columns |
| Day06.SheetOf | src/advent_of_code_2025/day_06/solver.py:33-65 | the sheet holds the numbers the groups (or their columns) read as and the words of the operator line |
| Day06.FourGroups | test/test_day_06.py:15-20 | four groups that read as numbers read, in order, as those four |
| Day06.TotalOfFour | test/test_day_06.py:15-22 | four results of `apply` add up to the total |
| Day06.ExampleRowTotal | test/test_day_06.py:15-21 | the example's row groups with their operators total 4277556 |
| Day06.ExampleColumnTotal | test/test_day_06.py:15-22 | the example's column groups with their operators total 3263827 |
| Day07.IndexOf | src/advent_of_code_2025/day_07/solver.py:21 | `index` gives the first position holding the character, and raises exactly when none does |
| Day07.Rows | src/advent_of_code_2025/day_07/solver.py:22-23 | one stripped row per line after the first |
| Day07.Step | src/advent_of_code_2025/day_07/solver.py:24-34 | a column gets a beam below the row exactly when a beam falls straight through it or a splitter next to it splits one |
| Day07.StepMovesOne | src/advent_of_code_2025/day_07/solver.py:26-32 | each beam below comes from a beam at most one column away, and each beam above lands straight below or on both sides |
| Day07.StepAdd | src/advent_of_code_2025/day_07/solver.py:25-32 | handling one more beam adds its own column, or the two around it and one split when it sits on a splitter |
| Day07.StepBeams | src/advent_of_code_2025/day_07/solver.py:24-34 | the inner loop, in any set order, builds the next set of beams and counts the beams that hit a splitter |
| Day07.Part1 | src/advent_of_code_2025/day_07/solver.py:16-36 | part 1 counts one split per distinct beam column on a splitter, row by row, and fails when the first line has no 'S' |
| Day07.MassRemove | src/advent_of_code_2025/day_07/solver.py:56 | a Counter's total does not depend on the order of its keys |
| Day07.MassUnion | src/advent_of_code_2025/day_07/solver.py:56 | the total over two disjoint key sets is the sum of the totals |
| Day07.MassAgree | src/advent_of_code_2025/day_07/solver.py:56 | only the counts over the summed keys matter |
| Day07.MassAdd | src/advent_of_code_2025/day_07/solver.py:48-52 | `counter[q] += c` adds c to the Counter's total, whether or not q was a key |
| Day07.Bump | src/advent_of_code_2025/day_07/solver.py:48-52 | `counter[q] += c` adds q to the keys, adds c to q's count (0 when missing) and changes no other count |
| Day07.Partial | src/advent_of_code_2025/day_07/solver.py:45-52 | the keys of the Counter under construction are the columns where the handled beams land |
| Day07.StepCounts | src/advent_of_code_2025/day_07/solver.py:45-54 | the keys of the next Counter are the columns of part 1's next set of beams |
| Day07.InflowAdd | src/advent_of_code_2025/day_07/solver.py:46-52 | one more beam adds its count to the columns where it lands |
| Day07.PartialGet | src/advent_of_code_2025/day_07/solver.py:45-52 | the partial Counter holds each column's inflow, 0 where nothing lands |
| Day07.PartialAddPassing | src/advent_of_code_2025/day_07/solver.py:47-49 | a beam that does not split adds its count to its own column |
| Day07.PartialAddSplitting | src/advent_of_code_2025/day_07/solver.py:51-52 | a beam on a splitter adds its count to both columns beside it |
| Day07.PartialMass | src/advent_of_code_2025/day_07/solver.py:45-52 | the counts below the row add up to the counts handled plus those handled on splitters |
| Day07.StepMass | src/advent_of_code_2025/day_07/solver.py:45-54 | the total below a row is the total above plus the counts sitting on splitters |
| Day07.MassAtLeastSize | src/advent_of_code_2025/day_07/solver.py:56 | a Counter of positive counts sums to at least its number of keys |
| Day07.StepPositive | src/advent_of_code_2025/day_07/solver.py:45-52 | every column below is reached by a positive count |
| Day07.CountsKeys | src/advent_of_code_2025/day_07/solver.py:21-54 | row by row, the Counter's keys are exactly part 1's beam columns |
| Day07.CountsPositive | src/advent_of_code_2025/day_07/solver.py:42-54 | every count stays positive |
| Day07.CountsTotalStep | src/advent_of_code_2025/day_07/solver.py:43-54 | each row adds at least one timeline per split part 1 counts in it |
| Day07.TotalAtLeastSplits | src/advent_of_code_2025/day_07/solver.py:30-56 | the number of timelines is at least the start's plus part 1's number of splits |
| Day07.TimelinesBound | src/advent_of_code_2025/day_07/solver.py:16-56 | part 2 fails exactly when part 1 does, and otherwise counts at least one timeline more than part 1's splits |
| Day07.StepCountsLoop | src/advent_of_code_2025/day_07/solver.py:45-54 | the inner loop, in any order, builds the next Counter |
| Day07.SumCounts | src/advent_of_code_2025/day_07/solver.py:56 | the sum of the values is the Counter's total |
| Day07.Part2 | src/advent_of_code_2025/day_07/solver.py:38-56 | part 2 follows the Counter of timelines per column down the rows and returns its total, failing when the first line has no 'S' |
| Day08.Fresh | src/advent_of_code_2025/day_08/solver.py:16-19 | a new union-find over n elements is a forest of n elements |
| Day08.Relabel | src/advent_of_code_2025/day_08/solver.py:38 | after a hang, exactly the elements under the hung root take the new root |
| Day08.Join | src/advent_of_code_2025/day_08/solver.py:27-38 | `union` keeps a forest over the same elements |
| Day08.JoinAt | src/advent_of_code_2025/day_08/solver.py:33-38 | `union` of two circuits hangs the smaller root (y's on a tie) under the other, adds the sizes and removes one component |
| Day08.FreshRoots | src/advent_of_code_2025/day_08/solver.py:16-19 | every element of a new union-find is a root, n of them |
| Day08.FreshWellFormed | src/advent_of_code_2025/day_08/solver.py:16-19 | `parents[i] == i`, `sizes[i] == 1`, `components == n`, and the invariants hold |
| Day08.JoinLinks | src/advent_of_code_2025/day_08/solver.py:27-38 | after `union(x, y)` x and y share a root, and elements that shared one still do |
| Day08.JoinMerges | src/advent_of_code_2025/day_08/solver.py:27-38 | `union` merges exactly the circuits of x and y and no others |
| Day08.JoinSame | src/advent_of_code_2025/day_08/solver.py:30-31 | when x and y already share a root `union` changes nothing |
| Day08.JoinDifferent | src/advent_of_code_2025/day_08/solver.py:33-38 | otherwise the component count drops by one, the smaller root goes under the larger (y's under x's on a tie), and the survivor's size is the sum |
| Day08.JoinRoots | src/advent_of_code_2025/day_08/solver.py:36-38 | a merge removes exactly the hung root from the roots |
| Day08.JoinMembers | src/advent_of_code_2025/day_08/solver.py:36-38 | a merge unites the two circuits and leaves every other circuit unchanged |
| Day08.JoinWellFormed | src/advent_of_code_2025/day_08/solver.py:27-38 | `union` keeps one component per root and each root's size equal to its circuit's size |
| Day08.RootSizesSum | src/advent_of_code_2025/day_08/solver.py:104 | the sizes of the roots below m add up to the number of elements whose root is below m |
| Day08.RootSizesLength | src/advent_of_code_2025/day_08/solver.py:103-104 | there is one size per root |
| Day08.SizesAddUp | src/advent_of_code_2025/day_08/solver.py:103-104 | there is one size per circuit, and the sizes add up to the number of elements |
| Day08.HalveLinks | src/advent_of_code_2025/day_08/solver.py:22-23 | pointing an element at its grandparent keeps the parent links sound and moves towards the root |
| Day08.Lift | src/advent_of_code_2025/day_08/solver.py:38 | only the hung circuit's ranks change |
| Day08.HangLinks | src/advent_of_code_2025/day_08/solver.py:38 | hanging one root under another keeps the parent links sound |
| Day08.UnionFind.constructor | src/advent_of_code_2025/day_08/solver.py:16-19 | `parents = [0, ..., n - 1]`, `sizes = [1] * n`, `components = n`, and the abstract value is the fresh forest |
| Day08.UnionFind.Find | src/advent_of_code_2025/day_08/solver.py:21-25 | `find` returns x's root (its own parent) and path halving changes no element's root |
| Day08.UnionFind.Union | src/advent_of_code_2025/day_08/solver.py:27-38 | `union` updates the structure to the abstract merge of the circuits of x and y |
| Day08.UnionFind.Hang | src/advent_of_code_2025/day_08/solver.py:36-38 | the last lines of `union` hang one root under the other, add its size and drop one component |
| Day08.DistanceMetric | src/advent_of_code_2025/day_08/solver.py:53-64 | the squared distance is never negative, is symmetric, and is zero exactly between equal points |
| Day08.ParsePoint | src/advent_of_code_2025/day_08/solver.py:83-84 | a point is read only from a line of three comma-separated fields |
| Day08.ParsePoints | src/advent_of_code_2025/day_08/solver.py:80-84 | the points parse exactly when every line does, one point per line in order |
| Day08.EdgesOf | src/advent_of_code_2025/day_08/solver.py:86-90 | point i has one edge to each earlier point j, carrying their distance |
| Day08.EdgesCount | src/advent_of_code_2025/day_08/solver.py:86-90 | there are m(m-1)/2 edges |
| Day08.EdgesPairs | src/advent_of_code_2025/day_08/solver.py:86-90 | the edges are exactly the pairs j < i with their distance |
| Day08.SmallestChosen | src/advent_of_code_2025/day_08/solver.py:99 | `nsmallest` gives min(pairs, |edges|) edges (none for pairs ≤ 0), ascending, taken from the edges, none left out below one chosen |
| Day08.ChosenInRange | src/advent_of_code_2025/day_08/solver.py:99-116 | choosing or reordering edges keeps their ends indexes of points |
| Day08.EdgesInRange | src/advent_of_code_2025/day_08/solver.py:86-90 | every edge joins two indexes of points |
| Day08.Unite | src/advent_of_code_2025/day_08/solver.py:100-101 | the union loop keeps a forest over the same elements |
| Day08.UniteWellFormed | src/advent_of_code_2025/day_08/solver.py:100-101 | the union loop keeps the union-find invariants |
| Day08.UniteJoins | src/advent_of_code_2025/day_08/solver.py:100-101 | after the loop the ends of every wired edge share a circuit, and elements that shared one still do |
| Day08.RootSizesPositive | src/advent_of_code_2025/day_08/solver.py:104 | every circuit's size is positive |
| Day08.CircuitSizesCount | src/advent_of_code_2025/day_08/solver.py:97-104 | the circuit sizes are positive and add up to the number of points |
| Day08.ThreeLargest | src/advent_of_code_2025/day_08/solver.py:104 | `nlargest(3, ...)` gives three sizes in descending order from the list, none left out larger than the third |
| Day08.FoundRoots | src/advent_of_code_2025/day_08/solver.py:103 | the roots `find` reports for the elements are exactly the roots |
| Day08.Wire | src/advent_of_code_2025/day_08/solver.py:100-101 | the loop of `union` calls leaves the union-find at the abstract result of wiring the edges |
| Day08.Circuits | src/advent_of_code_2025/day_08/solver.py:103 | `{uf.find(i) ...}` is the set of roots, and the abstract forest is unchanged |
| Day08.SizesOf | src/advent_of_code_2025/day_08/solver.py:104 | one size per circuit, read from `sizes` |
| Day08.Part1 | src/advent_of_code_2025/day_08/solver.py:94-105 | part 1 wires the `pairs` closest pairs and returns the product of the three largest circuit sizes, failing on bad input or fewer than three circuits |
| Day08.ComponentsPositive | src/advent_of_code_2025/day_08/solver.py:115 | a union-find over at least one element keeps at least one circuit |
| Day08.CompleteJoins | src/advent_of_code_2025/day_08/solver.py:114-117 | wiring every pair puts every point in point 0's circuit |
| Day08.CompleteUnite | src/advent_of_code_2025/day_08/solver.py:114-117 | wiring every pair leaves at most one circuit |
| Day08.ConnectDefined | src/advent_of_code_2025/day_08/solver.py:115-116 | while circuits remain the heap never runs empty |
| Day08.Part2Defined | src/advent_of_code_2025/day_08/solver.py:107-120 | part 2 always returns once the input parses |
| Day08.ConnectLast | src/advent_of_code_2025/day_08/solver.py:115-118 | the result is the product of the x coordinates of the pair whose wiring left one circuit |
| Day08.ConnectFresh | src/advent_of_code_2025/day_08/solver.py:110-118 | from a new union-find the loop ends at the pair that left exactly one circuit |
| Day08.Part2Last | src/advent_of_code_2025/day_08/solver.py:107-120 | with two or more points the answer comes from the pair, in ascending distance order, that joined the last two circuits; with fewer it is 0 |
| Day08.Part2 | src/advent_of_code_2025/day_08/solver.py:107-120 | the heap loop pops the closest remaining pair and wires it until one circuit remains |
| Day09.ParsePoint | src/advent_of_code_2025/day_09/solver.py:31-33 | a point is read only from a line of two comma-separated fields |
| Day09.ParsePoints | src/advent_of_code_2025/day_09/solver.py:19-35 | the points parse exactly when every line does, one point per line in order |
| Day09.ParsePointFormat | src/advent_of_code_2025/day_09/solver.py:31-33 | a written `x,y` line reads back as its point |
| Day09.ColumnSize | src/advent_of_code_2025/day_09/solver.py:37-49 | a column of h cells has h cells |
| Day09.BlockSize | src/advent_of_code_2025/day_09/solver.py:37-49 | w columns of h cells make w·h cells |
| Day09.AreaCounts | src/advent_of_code_2025/day_09/solver.py:37-49 | the area is the number of grid cells of the rectangle, perimeter included; it is symmetric, at least 1, and 1 for a single tile |
| Day09.CandidatePairs | src/advent_of_code_2025/day_09/solver.py:93-122 | the candidates are exactly the pairs j < i with their area |
| Day09.MaxAreaIsMax | src/advent_of_code_2025/day_09/solver.py:93-97 | `max` is one of the areas and no area exceeds it |
| Day09.CandidatesBelow | src/advent_of_code_2025/day_09/solver.py:93-97 | no pair's area exceeds the largest candidate area |
| Day09.CandidatesAttained | src/advent_of_code_2025/day_09/solver.py:93-97 | the largest candidate area is some pair's area |
| Day09.Part1Largest | src/advent_of_code_2025/day_09/solver.py:89-97 | part 1 is the area of some pair of red tiles and at least that of every pair |
| Day09.LineOf | src/advent_of_code_2025/day_09/solver.py:108-111 | an edge's line has its lower end first |
| Day09.LineOfEdge | src/advent_of_code_2025/day_09/solver.py:104-111 | the edge between two tiles sharing a row or column runs along its line, from one end to the other |
| Day09.Lines | src/advent_of_code_2025/day_09/solver.py:104-111 | each list holds at most one line per edge |
| Day09.LinesCount | src/advent_of_code_2025/day_09/solver.py:104-111 | every edge gives exactly one line on one of the two lists, lower end first |
| Day09.BuildLines | src/advent_of_code_2025/day_09/solver.py:103-111 | the loop over the polygon appends each edge's line to its axis list |
| Day09.Keys | src/advent_of_code_2025/day_09/solver.py:75-78 | the bisect keys are the lines' fixed coordinates, in order |
| Day09.LinesSorted | src/advent_of_code_2025/day_09/solver.py:112-113 | sorting the lines orders them by their fixed coordinate, as the binary searches require |
| Day09.CrossesInterior | src/advent_of_code_2025/day_09/solver.py:65-84 | when the rectangle has an open inside, a line fails the check exactly when part of it lies strictly inside; lines on the perimeter pass |
| Day09.AllOutside | src/advent_of_code_2025/day_09/solver.py:51-87 | the two binary searches and the overlap test return true exactly when no line of either list cuts the rectangle |
| Day09.Ranked | src/advent_of_code_2025/day_09/solver.py:115-122 | every ranked candidate's corners are indexes of points |
| Day09.FirstFitBest | src/advent_of_code_2025/day_09/solver.py:123-127 | on candidates in descending order the first that fits has the largest area of all that fit, and 0 is returned when none does |
| Day09.RankedIndex | src/advent_of_code_2025/day_09/solver.py:115-122 | every pair j < i is among the ranked candidates |
| Day09.RankedPair | src/advent_of_code_2025/day_09/solver.py:115-122 | every ranked candidate is a pair j < i with its area |
| Day09.RankedBest | src/advent_of_code_2025/day_09/solver.py:103-127 | the loop returns the largest area among pairs whose rectangle no line cuts, 0 when there is none |
| Day09.Part2Best | src/advent_of_code_2025/day_09/solver.py:99-127 | part 2 is the largest area among the pairs of red tiles whose rectangle no edge cuts, 0 when there is none |
| Day09.Part2AtMostPart1 | src/advent_of_code_2025/day_09/solver.py:89-127 | part 2 never exceeds part 1 |
| Day09.Part2 | src/advent_of_code_2025/day_09/solver.py:99-127 | the loop tries the candidates from the largest down and returns the first area whose rectangle passes the check |
| Day09.ExampleParses | test/test_day_09.py:15-24 | the example file reads as its eight tiles |
| Day09.ExampleLargest | test/test_day_09.py:15-25 | the largest example rectangle spans 50 cells |
| Day09.ExamplePart1 | test/test_day_09.py:15-25 | the example's answer to part 1 is 50 |
| Day09.ExampleLines | test/test_day_09.py:15-24 | the example polygon's vertical and horizontal edges |
| Day09.OutsideReordered | src/advent_of_code_2025/day_09/solver.py:51-87 | the check depends on the lines, not on their order |
| Day09.ExampleCut | test/test_day_09.py:15-26 | every example rectangle larger than 24 cells is cut by an edge |
| Day09.ExampleFits | test/test_day_09.py:15-26 | the rectangle between (9, 5) and (2, 3) meets no edge and spans 24 cells |
| Day09.ExamplePart2 | test/test_day_09.py:15-26 | the example's answer to part 2 is 24 |
| Day09.ExampleAreasAtMost50 | test/test_day_09.py:15-25 | no two example tiles span more than 50 cells |
| Day09.BestAmong | src/advent_of_code_2025/day_09/solver.py:51-127 | the best fit does not depend on the order in which the edges are listed |
| Day09.BestFitUnsorted | src/advent_of_code_2025/day_09/solver.py:103-127 | a best fit found on the edges in polygon order is what the loop returns |
| Day09.ExampleBestFit | test/test_day_09.py:15-26 | the largest example rectangle that no edge cuts spans 24 cells |
| Day10.XorBit | src/advent_of_code_2025/day_10/solver.py:71-86 | bit k of `a ^ b` is set exactly when one of a and b has it |
| Day10.OrBit | src/advent_of_code_2025/day_10/solver.py:44 | bit k of `a \| b` is set exactly when a or b has it |
| Day10.XorSelf | src/advent_of_code_2025/day_10/solver.py:86 | pressing the same button twice undoes it |
| Day10.XorBelow | src/advent_of_code_2025/day_10/solver.py:77-86 | XOR of two states below `1 << n` stays below it, so `visited[next_state]` is in range |
| Day10.Inner | src/advent_of_code_2025/day_10/solver.py:40-48 | `s[1:-1]` drops the first and last characters, and gives "" on shorter text |
| Day10.IndicatorBits | src/advent_of_code_2025/day_10/solver.py:39-44 | light k is wanted on exactly when diagram character k is not '.' |
| Day10.ParseIndicator | src/advent_of_code_2025/day_10/solver.py:39-44 | the loop ORs `1 << i` into the state for each lit character, giving the diagram's mask |
| Day10.Dedup | src/advent_of_code_2025/day_10/solver.py:46 | a button's index set holds each index once and exactly the listed indices |
| Day10.ParseButton | src/advent_of_code_2025/day_10/solver.py:46 | a parsed button is a non-empty set of indices |
| Day10.MachineOf | src/advent_of_code_2025/day_10/solver.py:36-50 | the first word is the diagram, the words between it and the last are the buttons, each a non-empty set |
| Day10.ParseLine | src/advent_of_code_2025/day_10/solver.py:20-50 | the parsing method computes MachineOf |
| Day10.ToggleBits | src/advent_of_code_2025/day_10/solver.py:68-73 | a button's mask toggles light k exactly when k is one of its indices |
| Day10.ToggleBelow | src/advent_of_code_2025/day_10/solver.py:75-77 | a button whose indices are below n toggles only lights below n |
| Day10.ToggleNonZero | src/advent_of_code_2025/day_10/solver.py:68-73 | a button with an index toggles some light |
| Day10.Toggles | src/advent_of_code_2025/day_10/solver.py:67-73 | one mask per button |
| Day10.ToggleOf | src/advent_of_code_2025/day_10/solver.py:69-71 | the inner loop raises exactly when an index is negative and otherwise yields the button's mask |
| Day10.Largest | src/advent_of_code_2025/day_10/solver.py:75 | `max` is a member no member exceeds |
| Day10.HighestIndex | src/advent_of_code_2025/day_10/solver.py:75 | no button index exceeds the highest |
| Day10.PressesReach | src/advent_of_code_2025/day_10/solver.py:79-96 | every sequence of d presses leads to a state of level d |
| Day10.ReachPresses | src/advent_of_code_2025/day_10/solver.py:79-96 | every state of level d is left by some sequence of d presses |
| Day10.Fewest | src/advent_of_code_2025/day_10/solver.py:54-98 | the answer is a number of presses, at least one, that reaches the target while no smaller one does; None when none does |
| Day10.FirstReach | src/advent_of_code_2025/day_10/solver.py:80-96 | the first reaching number of presses from a bound on is the least one |
| Day10.FewestIs | src/advent_of_code_2025/day_10/solver.py:54-98 | the least reaching number of presses is the answer |
| Day10.FewestRealised | src/advent_of_code_2025/day_10/solver.py:54-98 | the answer is realised by that many button presses |
| Day10.FewestLeast | src/advent_of_code_2025/day_10/solver.py:54-98 | no non-empty press sequence reaching the target is shorter than the answer |
| Day10.FewestByMasks | src/advent_of_code_2025/day_10/solver.py:67-85 | keeping the masks in a set changes nothing: the answer depends only on which masks there are |
| Day10.AllOffTakesTwo | src/advent_of_code_2025/day_10/solver.py:78-88 | with all lights wanted off the search reports 2, as the target is compared only after a press |
| Day10.StepFrom | src/advent_of_code_2025/day_10/solver.py:83-86 | a state one press beyond S comes from a state of S by one button |
| Day10.StepTo | src/advent_of_code_2025/day_10/solver.py:83-86 | every button pressed from a state of S gives a state one press beyond S |
| Day10.UptoReached | src/advent_of_code_2025/day_10/solver.py:77-94 | a state marked within d levels is reached with some exact number of presses up to d |
| Day10.FirstMet | src/advent_of_code_2025/day_10/solver.py:87-88 | meeting the target first one press beyond level d - 1 means d presses are the fewest |
| Day10.Closed | src/advent_of_code_2025/day_10/solver.py:81-98 | once a level adds nothing, no number of presses leaves it |
| Day10.Exhausted | src/advent_of_code_2025/day_10/solver.py:81-98 | once a level adds nothing and the target is not met, no number of presses reaches it |
| Day10.LevelClosed | src/advent_of_code_2025/day_10/solver.py:82-96 | expanding only the frontier completes the next level and queues exactly its new states |
| Day10.RunDry | src/advent_of_code_2025/day_10/solver.py:81-98 | an empty queue means the target is unreachable |
| Day10.Expand | src/advent_of_code_2025/day_10/solver.py:85-94 | pressing each button from one state either stops at the target or marks and queues exactly the unseen states one press away |
| Day10.Level | src/advent_of_code_2025/day_10/solver.py:82-96 | one level either meets the target, with depth the fewest presses, or marks the next level and queues exactly its new states |
| Day10.Search | src/advent_of_code_2025/day_10/solver.py:77-98 | the breadth-first search returns the fewest presses reaching the target, None where the program raises |
| Day10.TogglesAt | src/advent_of_code_2025/day_10/solver.py:67-73 | button k's mask is at place k |
| Day10.MasksOf | src/advent_of_code_2025/day_10/solver.py:67-73 | the mask loop fails exactly on a negative index and otherwise yields the masks in button order |
| Day10.Solve | src/advent_of_code_2025/day_10/solver.py:54-98 | the per-line method computes Presses: parse, masks, `max`, search |
| Day10.Part1 | src/advent_of_code_2025/day_10/solver.py:53-101 | part 1 is the sum of the lines' fewest presses, None when some line has none |
| Day10.BitsDetermine | src/advent_of_code_2025/day_10/solver.py:44-71 | a natural is determined by its bits |
| Day10.ToggleMaskStep | src/advent_of_code_2025/day_10/solver.py:70-71 | each more index XORs one more bit into the button's mask |
| Day10.MasksStep | src/advent_of_code_2025/day_10/solver.py:67-73 | a button with non-negative indices appends its mask |
| Day10.StepByMasks | src/advent_of_code_2025/day_10/solver.py:67-86 | one press beyond a set of states depends only on which masks there are |
| Day10.ReachByMasks | src/advent_of_code_2025/day_10/solver.py:67-86 | the states reached with d presses depend only on which masks there are |
| Day10.NewlyReached | src/advent_of_code_2025/day_10/solver.py:87-94 | a state first marked at level d is reached with some number of presses up to d |
| Day10.SearchStart | src/advent_of_code_2025/day_10/solver.py:77-80 | the search starts with state 0 alone seen and queued, the target not yet met |
| Day10.LevelStep | src/advent_of_code_2025/day_10/solver.py:83-94 | expanding one more state of the frontier extends what is seen and queued by the states one press beyond it |
| Day11.ParseEntry | src/advent_of_code_2025/day_11/solver.py:33-34 | a line parses only when `split(": ")` gives two parts, and its list of outputs is then non-empty |
| Day11.SplitLast | src/advent_of_code_2025/day_11/solver.py:33 | the last part of a split ends the text |
| Day11.StripSplitLast | src/advent_of_code_2025/day_11/solver.py:33-34 | after `strip`, the second part of a two-part split has a word |
| Day11.ParseEntries | src/advent_of_code_2025/day_11/solver.py:31-34 | the entries parse exactly when every line does, one per line in order |
| Day11.ParseEntriesFails | src/advent_of_code_2025/day_11/solver.py:33 | a line that does not parse makes the whole input fail |
| Day11.ReadEntries | src/advent_of_code_2025/day_11/solver.py:31-34 | the parsing loop computes ParseEntries |
| Day11.DictOf | src/advent_of_code_2025/day_11/solver.py:38 | `dict` has a key for exactly the devices that have a line |
| Day11.SuccessorsBelow | src/advent_of_code_2025/day_11/solver.py:48-49 | on a graph without cycles a device's outputs lie below it, so the walk ends |
| Day11.PathsAllConcat | src/advent_of_code_2025/day_11/solver.py:42-49 | the paths from two stacks together add up |
| Day11.PopStep | src/advent_of_code_2025/day_11/solver.py:43-49 | popping the top node splits the stack's path count into the rest and the top's |
| Day11.Expanded | src/advent_of_code_2025/day_11/solver.py:48-49 | replacing a device by its outputs keeps the path count and shrinks the work left |
| Day11.WalkStart | src/advent_of_code_2025/day_11/solver.py:40-41 | the walk starts from a stack holding `you` alone and a count of 0 |
| Day11.CountOut | src/advent_of_code_2025/day_11/solver.py:44-46 | counting an `out` moves one path from the stack to the result |
| Day11.Walk | src/advent_of_code_2025/day_11/solver.py:40-51 | the stack walk returns the number of paths from `you` to `out`, None where a device has no line |
| Day11.Part1 | src/advent_of_code_2025/day_11/solver.py:36-51 | part 1 is the number of paths from `you` to `out` in the parsed graph |
| Day11.ParseFormatEntry | src/advent_of_code_2025/day_11/solver.py:33-34 | a line written as `dev: out1 out2 …` reads back as its device and outputs |
| Day11.ParseFormatted | src/advent_of_code_2025/day_11/solver.py:31-34 | lines written for a list of entries read back as those entries |
| Day11.PathsThrough | src/advent_of_code_2025/day_11/solver.py:43-49 | the paths from a device with a line are the paths from its outputs, added up |
| Day11.PathsFrom | src/advent_of_code_2025/day_11/solver.py:43-49 | a device with one to three outputs has the sum of their path counts |
| Day11.ExampleParses | test/test_day_11.py:15-25 | the first example reads as its ten lines |
| Day11.PathsOfShape | test/test_day_11.py:15-26 | a graph with the example's lines below `you` has five paths from `you` to `out` |
| Day11.ExamplePart1 | test/test_day_11.py:15-26 | the first example's answer to part 1 is 5 |
| Day11Part2.Succ | src/advent_of_code_2025/day_11/solver.py:58-62 | a device without a line has no outputs |
| Day11Part2.PredInCount | src/advent_of_code_2025/day_11/solver.py:60-61 | one line reversed adds its device once per listing of the output |
| Day11Part2.PredSucc | src/advent_of_code_2025/day_11/solver.py:58-61 | the reversed graph holds each edge once: v precedes w as often as w is among v's outputs |
| Day11Part2.PredListed | src/advent_of_code_2025/day_11/solver.py:58-61 | every device on a reversed list has a line that lists the device reversed |
| Day11Part2.Mask | src/advent_of_code_2025/day_11/solver.py:72-77 | the mask is 1 exactly for `dac`, 2 exactly for `fft`, 0 for every other device |
| Day11Part2.Cover | src/advent_of_code_2025/day_11/solver.py:80-81 | `state \| mask` sets each of the two bits set on either side |
| Day11Part2.FullCountIsPaths | src/advent_of_code_2025/day_11/solver.py:41-66 | with both devices seen, the count from a device is part 1's number of paths from it |
| Day11Part2.FullCountAll | src/advent_of_code_2025/day_11/solver.py:41-66 | the same for a list of devices, added up |
| Day11Part2.FinishOne | src/advent_of_code_2025/day_11/solver.py:79-82 | finishing a device adds its count once per listing among the outputs |
| Day11Part2.OpenOne | src/advent_of_code_2025/day_11/solver.py:84 | finishing a device closes every listing of it among the outputs |
| Day11Part2.OpenNone | src/advent_of_code_2025/day_11/solver.py:85 | a counter at 0 means every output is finished |
| Day11Part2.PartialFull | src/advent_of_code_2025/day_11/solver.py:79-86 | once every output is finished the row holds the device's whole count |
| Day11Part2.AddLine | src/advent_of_code_2025/day_11/solver.py:59-62 | one line adds its device to each output's reversed list and its counter once per output |
| Day11Part2.Reverse | src/advent_of_code_2025/day_11/solver.py:55-62 | the node list is `out` then the devices in line order; the reversed lists and counters are those of the whole graph |
| Day11Part2.Positions | src/advent_of_code_2025/day_11/solver.py:64 | every node has a position naming it, and a repeated name keeps its last one |
| Day11Part2.Relax | src/advent_of_code_2025/day_11/solver.py:79-82 | the row of the feeding device gains, state by state, the counts of `state \| mask`; nothing else changes |
| Day11Part2.StartPending | src/advent_of_code_2025/day_11/solver.py:69-71 | a waiting device is pending with nothing added when a release begins |
| Day11Part2.EndPending | src/advent_of_code_2025/day_11/solver.py:79-84 | once every listing of w is added the device waits on one device less |
| Day11Part2.PoppedFinished | src/advent_of_code_2025/day_11/solver.py:70-86 | a device with nothing open holds its whole count when popped |
| Day11Part2.PoppedPending | src/advent_of_code_2025/day_11/solver.py:70-71 | at the start of a release every waiting device is pending |
| Day11Part2.PoppedStack | src/advent_of_code_2025/day_11/solver.py:70 | after the pop the rest of the stack still holds only ready devices, each once |
| Day11Part2.Popped | src/advent_of_code_2025/day_11/solver.py:69-71 | the popped device is finished and its release can begin |
| Day11Part2.FinishedKept | src/advent_of_code_2025/day_11/solver.py:79-82 | rows not updated keep their counts |
| Day11Part2.SettledKept | src/advent_of_code_2025/day_11/solver.py:79-82 | finished rows are never updated again |
| Day11Part2.EdgeDown | src/advent_of_code_2025/day_11/solver.py:71 | in a layered graph an edge leaves a device with a line for another device |
| Day11Part2.StepFacts | src/advent_of_code_2025/day_11/solver.py:71-84 | the device reached by the next reversed edge is unfinished and its counter is still positive |
| Day11Part2.StepPending | src/advent_of_code_2025/day_11/solver.py:79-84 | adding one more copy of w's counts keeps the device pending with one more listing seen |
| Day11Part2.StepStack | src/advent_of_code_2025/day_11/solver.py:84-86 | a device is pushed exactly when its counter reaches 0, and never twice |
| Day11Part2.ReleaseEndWaiting | src/advent_of_code_2025/day_11/solver.py:71-86 | after the release every unfinished device waits on one device less |
| Day11Part2.ReleaseEndSettled | src/advent_of_code_2025/day_11/solver.py:71-86 | after the release the device is finished along with all its outputs |
| Day11Part2.ReleaseEnd | src/advent_of_code_2025/day_11/solver.py:69-86 | after the release the main loop's invariant holds again with one more device done |
| Day11Part2.NothingDone | src/advent_of_code_2025/day_11/solver.py:65 | with nothing finished a row holds no count and every output is open |
| Day11Part2.Started | src/advent_of_code_2025/day_11/solver.py:65-67 | before the main loop only `out` has its counts, and it is alone on the stack |
| Day11Part2.Drained | src/advent_of_code_2025/day_11/solver.py:69 | when the stack runs empty every device with a line is finished |
| Day11Part2.ReleaseStep | src/advent_of_code_2025/day_11/solver.py:71-86 | one turn of the inner loop keeps its invariant |
| Day11Part2.ActiveStep | src/advent_of_code_2025/day_11/solver.py:84-85 | counting down drops a device from the positive counters exactly when it was at 1 |
| Day11Part2.Feed | src/advent_of_code_2025/day_11/solver.py:72-86 | one turn of the inner loop keeps the rows shaped, keeps its invariant, and trades one positive counter for one push |
| Day11Part2.Release | src/advent_of_code_2025/day_11/solver.py:71-86 | the inner loop over a device's reversed edges keeps the release invariant to the end |
| Day11Part2.Drain | src/advent_of_code_2025/day_11/solver.py:67-86 | in a layered graph every row ends holding its device's four counts |
| Day11Part2.NodesListed | src/advent_of_code_2025/day_11/solver.py:55-59 | the node list names `out` and every device with a line, nothing else |
| Day11Part2.Setup | src/advent_of_code_2025/day_11/solver.py:55-67 | the set-up builds the reversed graph, the counters, the positions and rows with only `out`'s full-state count at 1 |
| Day11Part2.Part2 | src/advent_of_code_2025/day_11/solver.py:53-88 | part 2 fails exactly on an unparsable line or a missing `svr`; on a layered graph it is the number of paths from `svr` to `out` through both `dac` and `fft` |
| Day11Part2.DictIsMap | src/advent_of_code_2025/day_11/solver.py:38 | a `dict` over lines with distinct devices maps each device to its outputs and holds nothing else |
| Day11Part2.AdjIsDict | src/advent_of_code_2025/day_11/solver.py:38-62 | with one line per device, part 2's graph is the `dict` part 1 reads |
| Day11Part2.CountFrom | src/advent_of_code_2025/day_11/solver.py:79-82 | a device's count for a state is the sum of its outputs' counts for the state with the device's mask set |
| Day11Part2.CountOfShape2 | test/test_day_11.py:30-46 | a graph with the second example's lines has two paths from `svr` through `dac` and `fft` |
| Day11Part2.ExamplePart2 | test/test_day_11.py:30-46 | the second example parses, is layered, and has two paths from `svr` to `out` through both `dac` and `fft` |
| Day11Part2.ExampleAnswer2 | test/test_day_11.py:30-46 | `part_2` on the second example returns 2 |
| Day12.ParseRegion | src/advent_of_code_2025/day_12/solver.py:27-29 | a region is read only when the line splits on ": " into two parts and the dimensions on "x" into two, with one count per word |
| Day12.JoinedWords | src/advent_of_code_2025/day_12/solver.py:29 | `split()` of the joined counts gives their spellings |
| Day12.SpellingsRead | src/advent_of_code_2025/day_12/solver.py:29 | `int` reads every spelling back |
| Day12.ParseFormat | src/advent_of_code_2025/day_12/solver.py:27-29 | a region line written as `RxC: n n …` reads back as its numbers, row first |
| Day12.CellsInside | src/advent_of_code_2025/day_12/solver.py:17-26 | a 3x3 cell is counted exactly when it lies wholly inside the region |
| Day12.RowsSize | src/advent_of_code_2025/day_12/solver.py:17-26 | a rows of b cells make a·b cells |
| Day12.FitsCells | src/advent_of_code_2025/day_12/solver.py:17-26 | the corrected test counts whole cells: (col // 3)·(row // 3) of them, and it passes exactly when the presents do not outnumber them |
| Day12.FitsThenCheck | src/advent_of_code_2025/day_12/solver.py:17-31 | on non-negative dimensions the source's test accepts every region the corrected test accepts |
| Day12.CheckOvercounts | src/advent_of_code_2025/day_12/solver.py:31 | the source's test accepts three presents on a 5x6 region that holds two whole cells |
| Day12.CheckMonotone | src/advent_of_code_2025/day_12/solver.py:31 | a larger region or fewer presents never turns a pass into a failure |
| Day12.SumRaise | src/advent_of_code_2025/day_12/solver.py:31 | raising one count raises the sum by the difference |
| Day12.CheckRaise | src/advent_of_code_2025/day_12/solver.py:31 | raising a count can only turn a pass into a failure |
| Day12.Tally | src/advent_of_code_2025/day_12/solver.py:33-34 | the tally never exceeds the number of lines |
| Day12.AllParseStep | src/advent_of_code_2025/day_12/solver.py:34 | a longer input parses when its prefix does and its last marked line is a region |
| Day12.PassingStep | src/advent_of_code_2025/day_12/solver.py:34 | the last line adds its position to the passing ones exactly when it is marked and passes |
| Day12.TallyCounts | src/advent_of_code_2025/day_12/solver.py:33-34 | the tally fails exactly when a line holding an 'x' is not a region, and otherwise counts the marked lines whose region passes |
| Day12.Part1 | src/advent_of_code_2025/day_12/solver.py:16-34 | part 1 as written counts the regions passing the source's test, failing on a malformed region line |
| Day12.Part1Cells | src/advent_of_code_2025/day_12/solver.py:17-34 | part 1 with the corrected test counts the regions with a whole cell per present |
| Day12.CellsAtMost | src/advent_of_code_2025/day_12/solver.py:17-34 | on non-negative dimensions counting whole cells never passes more regions than the source's test |
| Day12.Part2 | src/advent_of_code_2025/day_12/solver.py:37-38 | part 2 is the empty string |
| Day12.RowsCount | src/advent_of_code_2025/day_12/solver.py:17-26 | a block of a rows of b cells holds b cells a times over |
| Day12.TallyDefined | src/advent_of_code_2025/day_12/solver.py:33-34 | the tally fails exactly when some line holding an 'x' is not a region line |
| Cli.Zeros | src/advent_of_code_2025/__init__.py:49 | k padding characters, all '0' |
| Cli.PadDay | src/advent_of_code_2025/__init__.py:49 | the padded day has at least two characters and keeps a longer one's length |
| Cli.ValidateDay | src/advent_of_code_2025/__init__.py:26-49 | a non-numeric argument is rejected as such; an argument is accepted exactly when it is numeric and within 1..25 |
| Cli.ZerosValue | src/advent_of_code_2025/__init__.py:49 | leading zeros keep a number's value |
| Cli.AcceptedDay | src/advent_of_code_2025/__init__.py:41-49 | an accepted day is two or more digits with the argument's value; two or more characters come back unchanged, one digit gains a '0' in front |
| Cli.ValidateIdempotent | src/advent_of_code_2025/__init__.py:26-49 | validating an accepted day again accepts it unchanged |
| Cli.DecimalDay | src/advent_of_code_2025/__init__.py:26-49 | every day 1..25 is accepted as its two-digit package number |
| Cli.PadValue | src/advent_of_code_2025/__init__.py:49 | padding keeps a digit string's value, leaves two or more digits alone and puts one '0' in front of a single digit |

## Left out

- Parsing.ParseInt: Python's `int` also accepts underscores between digits (`"1_000"`) and non-ASCII decimal digits such as `"٣"`. The model reads surrounding whitespace (Python's set), an optional sign and ASCII digits only.
- Cli.IsNumeric: `str.isnumeric` also holds for non-ASCII numerals such as `"٣"` or `"²"`. The model accepts ASCII digits only. This also leaves out the `ValueError` that `int("²")` would raise after the check passes.
- Day02.ParseInput: the scan takes only ASCII digits as digits, where the source tests `char.isdigit()`. On a non-ASCII decimal digit such as `'٣'` the source adds its value to the current field; on a digit-like character such as `'²'`, `int(char)` raises `ValueError`. The model treats both as field separators. Unicode's digit classes are not modelled.
- Day02.GenericSolve: the result equals the sum of the invalid numbers in the ranges only when every range is well formed (start ≤ end) and any two ranges are equal or share no number. On overlapping or reversed ranges the bisect can pick a range that does not hold a number another range holds. The contract states only that the solver returns some value there.
- Day05.Part1: the count equals the number of fresh IDs only when every interval is well formed (start ≤ end). A reversed interval can unsort the merged ends that `bisect_left` searches. Elsewhere the contract states only the bounds 0..|IDs|.
- Day05.Part2: the answer equals the number of IDs held only when every interval is well formed. A reversed interval adds a non-positive length.
- Day11.Part1: the whole graph must be acyclic, given as a ghost ranking of every device with a line. The source needs less. Its stack walk never ends only on a cycle reachable from `you` that does not pass through `out`. It never expands `out`, so a line for `out` that closes a cycle (such as `out: out`) is harmless, and it never visits devices unreachable from `you`. The model says nothing about those inputs.
- Day11Part2.Part2: the value is tied to the number of paths only on a layered graph: acyclic, `out` without a line, and every output either has a line or is `out`. The method runs the source's countdown on every input and states when it returns `None`. Outside layered graphs the source really does differ from the path count. On `svr: a`, `a: dac zzz`, `dac: fft`, `fft: out`, the dead end `zzz` is never pushed, so `a`'s counter never reaches 0 and `part_2` returns 0. There is one path through both devices. The contract says nothing about the value there.
- Day 10 `part_2` is not part of this model. It calls `scipy.optimize.milp` on floating-point data, which is foreign code.
- Day10.Part1: the button masks are kept in button order where the source keeps a `set`. `Day10.FewestByMasks` proves that the answer depends only on which masks there are, so the order of set iteration does not matter.
- Day08.Part1: `_parse_inputs` is cached by `functools.lru_cache`, so the two parts share one edge list, and `part_2` heapifies and pops that list in place. The model builds a fresh edge list for each part. Aliasing between the two calls is not captured.
- Day08.Part2: the heap is modelled as the sorted edge list and a cursor. The order of pops is the same, but the heap's internal layout is not modelled.
- Day09.CrossesInterior: stated only for rectangles with an open inside on the other axis. The source's strict test on a degenerate, one-tile-wide rectangle is not characterised geometrically.
- Day12.CellsAtMost: stated for region lines with non-negative dimensions. `int` also reads negative ones, and there the two tests are not ordered: on `-1x-5: 2` (row -1, column -5) the corrected test passes, as `(-5 // 3) * (-1 // 3)` is 2, while the source's fails, as `-5 // 3 * -1 // 3` is `2 // 3`, which is 0.
- File opening and reading, `sys.getdefaultencoding`, `argparse`, `importlib`, `main` and `get_solver` of `__init__.py`, `base.py` and `profiler.py` are not part of this model. They are I/O, dispatch and timing.
- Python's set iteration order (days 7, 8 and 10) is replaced by a fixed order. Each such loop is proved to give the same result for the values it computes.
- Days 2, 4, 7, 8, 10 and 12 have no test file, so they have no example lemmas.

## Findings

| source | as written | input that shows it | evidently intended | confidence | as-written member | corrected member |
|---|---|---|---|---|---|---|
| src/advent_of_code_2025/day_12/solver.py:31 | `col // 3 * row // 3 >= sum(counts)` parses as `((col // 3) * row) // 3`, which can exceed the number of whole 3x3 blocks | the region `5x6: 3`: `6 // 3 * 5 // 3` is 3, yet a 5x6 region holds only two whole 3x3 blocks | the docstring (lines 18-25) says each present needs its own 3x3 block, which is `(col // 3) * (row // 3) >= sum(counts)` | medium, not executed | Day12.Part1, Day12.CheckOvercounts | Day12.Part1Cells, Day12.FitsCells, Day12.CellsAtMost |
