# Advent of Code 2023 solvers, modelled in Dafny

This project models the puzzle solvers of an Advent of Code 2023 repository and proves properties about them. The repository has one solver per day (`examples/dayN.rs`) and a small helper crate (`src/lib.rs`). Each solver is a short, deterministic algorithm over data already in memory: scanners over text lines, lookup tables, bit-packed rows, grid walks, breadth- and depth-first searches, pulse simulations, brick settling and exact rational arithmetic.

The project has one Dafny module per source file:

- `Lib` (`lib.dfy`) models `gcd` and the line and list splitting of `src/lib.rs`.
- `Sorting` (`sorting.dfy`) models the standard library's stable `sort_by`. It is written as an insertion sort over a comparison, proved to return a sorted permutation.
- `Day1` … `Day25` (`dayNN.dfy`) model the solvers. There is no `Day6`.

The models follow the source's own form:

- Loops that update variables are methods with loop invariants. Each is proved equal to a specification function, and the lemmas about that function state what the puzzle promises.
- Objects updated in place are classes: the day 19 job stack, the day 20 machine, the day 21 bit rows, the day 23 grid and the day 25 table builder.
- Every panic of the source is an outcome: `unwrap` of `None`, an index out of range, an unsigned underflow, checked `i128` arithmetic, `panic!`, `assert!`. An `Option`, `Outcome` or `Result` value names it. Where a model does require its callers to avoid one, the member is named under "Left out".
- Integer widths are modelled where they change a result. These are the 16-bit hash of day 15, the `u32` rows of day 13, the 64-bit shifts of days 4, 12 and 21, the checked `i128` arithmetic of day 24 (over a corrected `norm`, see "Findings") and the `u64` edge codes of day 25.

## Model

| member | source | states |
|---|---|---|
| Lib.Split | src/lib.rs:67-73 | `str::split` as used by `parse_list`: at least one piece, and no piece holds the delimiter |
| Lib.SplitCount | src/lib.rs:67-73 | there is exactly one more piece than there are delimiters in the text |
| Lib.JoinSplit | src/lib.rs:67-73 | gluing the pieces back with the delimiter gives the original text (nothing is lost by splitting) |
| Lib.SplitJoin | src/lib.rs:67-73 | splitting pieces joined by a delimiter they do not contain gives exactly those pieces back |
| Lib.Lines | src/lib.rs:59-65 | `str::lines`: the empty text has no lines, and no line holds a line feed |
| Lib.LinesOfJoined | src/lib.rs:59-65 | a text of lines each ended by a line feed splits back into exactly those lines |
| Lib.ParseAll | src/lib.rs:59-73 | the parse succeeds exactly when every piece parses; then it has one element per piece, each the piece's own parse |
| Lib.ParseLines | src/lib.rs:59-65 | `parse_lines`: one parsed element per line, in order; a failure (the source's `expect` panic) means some line does not parse |
| Lib.ParseList | src/lib.rs:67-73 | `parse_list`: one parsed element per delimiter-separated piece (delimiter count plus one), in order |
| Lib.EuclidIsGcd | src/lib.rs:87-98 | the remainder recursion yields a common divisor that every common divisor divides |
| Lib.GcdUnique | src/lib.rs:87-98 | the greatest common divisor is unique, so the result is independent of how it is computed |
| Lib.EuclidSymmetric | src/lib.rs:87-98 | `gcd(a, b) == gcd(b, a)`, which is why the source may order its arguments larger first |
| Lib.Gcd | src/lib.rs:87-98 | the loop returns the greatest common divisor of its arguments; `gcd(a, 0) == a` and `gcd(0, b) == b` |
| Sorting.SortBySortsAndPermutes | examples/day7.rs:133 | the stable sort used for `sort`/`sort_by_key` yields a sorted permutation of its input, of the same length |
| Sorting.InsertSorted | examples/day7.rs:133 | inserting into a sorted sequence keeps it sorted under a total preorder |
| Sorting.InsertPermutes | examples/day7.rs:133 | inserting adds exactly one copy of the element |
| Day1.Digits | examples/day1.rs:13-17 | the digit values of a line, each at most 9 |
| Day1.NoDigits | examples/day1.rs:13-18 | a line yields no digit values exactly when it has no digit character (the case where `digits[0]` panics) |
| Day1.Calibration | examples/day1.rs:18 | a line has a value exactly when it has at least one digit value |
| Day1.CalibrationDigits | examples/day1.rs:18 | the value is a two-digit number whose tens digit is the first digit and whose units digit is the last |
| Day1.AnswerFails | examples/day1.rs:12-20 | the sum is missing (the source panics) exactly when some line has no digit value |
| Day1.AnswerBound | examples/day1.rs:12-20 | with digit values each line adds at most 99 to the sum |
| Day1.NoValueFails | examples/day1.rs:18 | one line without a digit makes the whole answer fail |
| Day1.Part1 | examples/day1.rs:10-21 | `part1` is the sum over the lines of the input of their first-and-last-digit values |
| Day1.SumDigitLines | examples/day1.rs:11-20 | the summing loop computes the answer over all lines, failing as soon as a line has no digit |
| Day1.DigitLine | examples/day1.rs:13-18 | one line's value from its filtered digit characters |
| Day1.FirstMatchFound | examples/day1.rs:50-55 | trying the table in order finds nothing exactly when no entry starts the rest of the line, and otherwise the value of an entry that does |
| Day1.ValueAtMeaning | examples/day1.rs:49-55 | a value is recorded at an index exactly when some table entry starts there, and it is that entry's value |
| Day1.DigitWins | examples/day1.rs:26-55 | a digit character is recorded as its own value, since the digit strings come first in the table |
| Day1.NoWordValue | examples/day1.rs:26-55 | on a line without digit words a non-digit character records nothing |
| Day1.SpelledAgreesWithDigits | examples/day1.rs:13-17 | on a line without digit words the scan of `part2` records exactly the digits `part1` filters |
| Day1.PartsAgree | examples/day1.rs:10-60 | on input without digit words `part1` and `part2` give the same answer |
| Day1.LineAgrees | examples/day1.rs:47-57 | per line, the two parts see the same values when no digit words occur |
| Day1.AnswersAgree | examples/day1.rs:47-58 | two ways of reading values that agree on every line give the same sum |
| Day1.ScanLine | examples/day1.rs:48-56 | the nested loop over indices and table entries records, at each index, the first table entry starting there |
| Day1.Part2 | examples/day1.rs:24-60 | `part2` is the sum over the lines of the first-and-last values of digits and digit words |
| Day1.SingleDigit | examples/day1.rs:64-67 | a line with one digit counts it as both first and last digit, worth eleven times the digit |
| Day1.SampleSingleDigit | examples/day1.rs:67 | the sample line `treb7uchet` is worth 77 |
| Day2.TotalUnmentioned | examples/day2.rs:32-40 | a colour no handful mentions stays at its default of zero |
| Day2.RoundFromStr | examples/day2.rs:29-43 | `Round::from_str` fails exactly when some comma-separated handful fails to parse (the `unwrap` panic); otherwise each colour holds the sum of its handfuls |
| Day2.ParseGame | examples/day2.rs:45-53 | the game keeps its id and has one round per semicolon-separated piece, in order; it fails exactly when some piece's round fails |
| Day2.PossibleIdsBound | examples/day2.rs:63-74 | the answer never exceeds the sum of all ids, and equals it when every game is possible |
| Day2.Part1 | examples/day2.rs:63-74 | `part1` sums the ids of the games none of whose rounds shows more than 12 red, 13 green or 14 blue |
| Day2.Sample | examples/day2.rs:81-89 | the five sample games add up to 8 |
| Day3.RunEnd | examples/day3.rs:27-46 | the end of a run of digits: every character before it is a digit and the one at it is not |
| Day3.PartsFromAreRuns | examples/day3.rs:26-55 | each number found from a column on is a maximal run of digits whose value is the run read in decimal |
| Day3.FirstRun | examples/day3.rs:33-39 | a number starts at every run start and covers the whole run |
| Day3.LinePartsAreRuns | examples/day3.rs:27-46 | every number of a line is a maximal digit run on that line, with the run's decimal value |
| Day3.RunStartIsPart | examples/day3.rs:33-39 | every run start of a line (a digit with no digit before it) begins one of the numbers found |
| Day3.DecimalSnoc | examples/day3.rs:43-44 | appending a digit multiplies the value by ten and adds the digit |
| Day3.NonDigitSnoc | examples/day3.rs:28-32 | a non-digit character ends the pending number and adds none |
| Day3.NewRunSnoc | examples/day3.rs:34-39 | a digit after a non-digit starts a new one-digit number at its column |
| Day3.NewRunAtEnd | examples/day3.rs:34-39 | a digit alone is a number of one digit |
| Day3.ExtendSnoc | examples/day3.rs:40-45 | a digit after a digit extends the pending number by one digit |
| Day3.ExtendRun | examples/day3.rs:40-45 | the same, where a number starts at the scan's column |
| Day3.ExtendLast | examples/day3.rs:40-45 | the same, where the extended number is the last one |
| Day3.SymbolsStep | examples/day3.rs:31-49 | every character other than '.' and a digit is recorded as a symbol at its (x, y); nothing else is |
| Day3.SymbolsNextLine | examples/day3.rs:26-27 | finishing a line keeps the symbol map exact for the next line |
| Day3.SymbolsDone | examples/day3.rs:21-57 | after the last line the map holds exactly the symbols of the input |
| Day3.PartsStep | examples/day3.rs:28-46 | one character's effect: a pending number is flushed at column 0 or at a non-digit, a digit starts or extends the pending number |
| Day3.StepNonDigit | examples/day3.rs:28-32 | a non-digit flushes the pending number |
| Day3.StepExtend | examples/day3.rs:40-45 | a digit after a digit extends the pending number |
| Day3.StepNewRun | examples/day3.rs:28-39 | a digit at column 0 or after a non-digit flushes any pending number and starts a new one |
| Day3.ParseInput | examples/day3.rs:21-57 | `parse_input` yields exactly the numbers of the input as maximal digit runs in reading order, and exactly its symbols |
| Day3.ScanRow | examples/day3.rs:27-51 | the inner loop handles one line, keeping numbers and symbols exact up to the line's end |
| Day3.ParsedPartsAreRuns | examples/day3.rs:21-57 | every number `parse_input` yields is a maximal digit run of its line, with its decimal value |
| Day3.Part1 | examples/day3.rs:60-73 | `part1` sums the values of the numbers with a symbol anywhere in their surrounding box, each counted once however many symbols touch it |
| Day3.AdjacentParts | examples/day3.rs:81-87 | the numbers collected for a symbol are exactly those whose box contains it, in order |
| Day3.GearSumOnlyStars | examples/day3.rs:80 | symbols other than '*' add nothing to the gear sum |
| Day3.Part2 | examples/day3.rs:75-94 | `part2` sums, over the symbol map in its iteration order, the product of the two numbers next to each '*' that has exactly two |
| Day3.FindAdjacent | examples/day3.rs:81-87 | the inner loop collects the numbers next to the symbol, in order |
| Day4.CountWinningBounds | examples/day4.rs:20-25 | the match count is at most the count of numbers held, zero exactly when none wins, and all of them exactly when all win |
| Day4.CountWinningBySet | examples/day4.rs:20 | the count depends only on which numbers win, not on their order or repeats among the winning numbers (the source collects them into a set) |
| Day4.NewCard | examples/day4.rs:15-33 | `Card::new` stores the fields and the count of held numbers that are winning numbers |
| Day4.Part1 | examples/day4.rs:58-67 | `part1` sums `1 << (n - 1)` over cards with `n > 0` matches; it fails exactly when some shift is wider than the 64-bit word |
| Day4.ContributionSettles | examples/day4.rs:72-81 | cards at or after card `j` never add copies of `j` |
| Day4.TotalCopiesAtLeast | examples/day4.rs:70 | every card is held at least once, so the total is at least the number of cards |
| Day4.WinCounts | examples/day4.rs:75 | the match counts of the cards, in order |
| Day4.Part2 | examples/day4.rs:69-83 | `part2` totals the copies of each card, each card adding its copy count to the next `n` cards; it fails exactly when some card reaches past the last one (an index panic) |
| Day4.Sample | examples/day4.rs:86-97 | the sample cards win 4, 2, 2, 1, 0 and 0 numbers: 13 points and 30 cards |
| Day5.WellFormedTail | examples/day5.rs:18-27 | dropping the first entry keeps a sorted, non-overlapping map so |
| Day5.MapIdCovered | examples/day5.rs:28-32 | in a sorted non-overlapping map, any entry covering an id decides its image, `dest + (id - src)` |
| Day5.MapIdUncovered | examples/day5.rs:33-35 | an id that no entry covers maps to itself |
| Day5.BinarySearch | examples/day5.rs:18-27 | the search returns an entry covering the id, or the insertion point: every entry before it ends at or below the id and every entry from it on starts above |
| Day5.Lookup | examples/day5.rs:17-37 | `Map::lookup` agrees with the reference image of the id, and leaves uncovered ids alone |
| Day5.LookupLen | examples/day5.rs:39-67 | `Map::lookup_len` returns the image and a positive count of ids from `id` that map linearly: to the end of the covering entry, to the next entry's start, or `Id::MAX` past the last entry |
| Day5.SumLensAppend | examples/day5.rs:95-104 | total range length adds over concatenation |
| Day5.SplitStep | examples/day5.rs:99-103 | pushing the overlap as a piece keeps every piece a non-empty block mapped linearly |
| Day5.SumLensSnoc | examples/day5.rs:101 | pushing a piece adds its length |
| Day5.PieceOf | examples/day5.rs:99-103 | every piece after the push, the new one included, maps its block linearly |
| Day5.SplitRange | examples/day5.rs:96-104 | the inner loop cuts one range into consecutive non-empty pieces of total length `startlen`, each the linear image of its block |
| Day5.InRangesAppend | examples/day5.rs:93-107 | an id is in concatenated ranges exactly when it is in one of the parts |
| Day5.SplitPrefix | examples/day5.rs:96-104 | dropping the last piece leaves a split of the shorter range |
| Day5.SplitCovers | examples/day5.rs:96-104 | the image of every id of the range lies in one of the pieces |
| Day5.InRangesInit | examples/day5.rs:96-104 | an id in the pieces but not in the last one is in the others |
| Day5.SplitImages | examples/day5.rs:96-104 | every id of every piece is the image of some id of the range |
| Day5.MapRanges | examples/day5.rs:93-105 | one stage of `map_to_multiple`: the new ranges keep the total length, are non-empty, and hold exactly the images of the old ranges' ids |
| Day5.WalkShape | examples/day5.rs:77-87 | whether a walk along the `dest` chain finishes does not depend on the id carried |
| Day5.MapTo | examples/day5.rs:77-87 | `Data::map_to` follows `dest` from "seed" to the target looking the id up in each map; a missing map (the `unwrap` panic) or a chain longer than the fuel is an error |
| Day5.WalkUnfold | examples/day5.rs:80-85 | one step of the chain: look up in the current map, move to its `dest` |
| Day5.StageForward | examples/day5.rs:92-108 | after a stage every seed of the range is still tracked by some current range |
| Day5.StageBackward | examples/day5.rs:92-108 | after a stage every id of the current ranges still stands for some seed of the range |
| Day5.MapToMultiple | examples/day5.rs:89-110 | `map_to_multiple` succeeds exactly when `map_to` does; its ranges total `count`, and hold exactly the locations of the seeds in the range |
| Day5.Part1 | examples/day5.rs:164-172 | `part1` is the least location of the listed seeds; no seeds (the `min().unwrap()` panic) or a failing walk is an error |
| Day5.Pairs | examples/day5.rs:177-180 | the seed list read as consecutive (start, count) pairs |
| Day5.MinStart | examples/day5.rs:182-185 | the least start among the ranges, which is attained |
| Day5.MinStartIsLeast | examples/day5.rs:182-185 | with no empty ranges the least start is the least id in the ranges |
| Day5.RangeMin | examples/day5.rs:181-185 | one seed range's least location is attained by a seed of the range and bounds every seed's location; an empty range (the `unwrap` panic) or a failing walk is an error |
| Day5.Part2 | examples/day5.rs:174-189 | `part2` is the least location over all seed ranges, capped at `Id::MAX`; an odd seed list (the `unwrap` panic) or a failing range is an error |
| Day5.ParseMap | examples/day5.rs:139-151 | a section parses exactly when every row has three numbers |
| Day5.ParsedMapWellFormed | examples/day5.rs:139-154 | when the rows' source ranges are non-empty and pairwise disjoint, the sorted entries are sorted and non-overlapping, as the binary search needs |
| Day5.SortedWellFormed | examples/day5.rs:151 | sorting entries of pairwise disjoint rows gives a well-formed map |
| Day5.EntryLeOrders | examples/day5.rs:151 | the tuple order `sort` uses on entries is a total preorder |
| Day5.PairOrdered | examples/day5.rs:151 | two entries in sorted order do not overlap |
| Day5.RowsDisjoint | examples/day5.rs:145-149 | distinct entries of pairwise disjoint rows are disjoint |
| Day7.CardValueIncreasing | examples/day7.rs:4-14 | `card_value` gives 2..9, T, J, Q, K, A the values 2 to 14 in increasing order, J is 11, and exactly digits and T, J, Q, K, A have a value (anything else panics) |
| Day7.Rank | examples/day7.rs:16-25 | the derived order of `HandValue` is declaration order, HighCard lowest and Five highest |
| Day7.Tally | examples/day7.rs:75-79 | the 256-entry count table after counting the cards |
| Day7.TallyCounts | examples/day7.rs:75-79 | entry `v` of the table is the number of cards of value `v` |
| Day7.SumTally | examples/day7.rs:75-79 | the table's entries add up to the number of cards |
| Day7.PositiveFacts | examples/day7.rs:81-83 | filtering out the zero counts keeps the sum and leaves only positive counts |
| Day7.SumSortBy | examples/day7.rs:84 | sorting the counts keeps their sum |
| Day7.PartitionsOfFive | examples/day7.rs:85-93 | every sorted list of positive counts adding up to five is one of the seven patterns matched |
| Day7.SortedCounts | examples/day7.rs:81-84 | sorted positive counts stay positive and keep their sum |
| Day7.HandPatternClassifies | examples/day7.rs:74-95 | the counts of any five cards form one of the seven patterns, so `calc_hand_value` never reaches its panic |
| Day7.PatternIgnoresOrder | examples/day7.rs:74-95 | the hand value depends only on which cards the hand holds, not on their order |
| Day7.FiveOfAKind | examples/day7.rs:86 | five equal cards are a Five |
| Day7.SortByKeepsSorted | examples/day7.rs:84 | sorting an already sorted list of counts leaves it unchanged |
| Day7.PositiveOfSingle | examples/day7.rs:81-83 | a table with one positive entry filters to just that entry |
| Day7.PositiveNone | examples/day7.rs:109-114 | a table with no positive entry filters to nothing, the case where all five cards are jokers |
| Day7.CalcHandValue | examples/day7.rs:74-95 | `calc_hand_value` returns the pattern of the hand's sorted card counts |
| Day7.CollectPositive | examples/day7.rs:81-83 | the filter over the count table keeps exactly its positive entries, in order |
| Day7.HandPattern2Classifies | examples/day7.rs:97-128 | with jokers added to the largest group the counts still form one of the seven patterns, so `calc_hand_value_2` never panics |
| Day7.JokerPatternClassifies | examples/day7.rs:104-117 | any count table of five cards yields one of the seven patterns once the jokers are held back and added to the last sorted count |
| Day7.JokerPatternUnfold | examples/day7.rs:104-117 | the jokers are held back and then pushed alone, or added to the last (largest) sorted count |
| Day7.NonJokerCounts | examples/day7.rs:105-112 | the sorted counts of the other cards are positive and add up to five less the jokers |
| Day7.JokersJoinLargest | examples/day7.rs:113-127 | adding the jokers to the largest count of such a list gives one of the seven patterns |
| Day7.JoinedSorted | examples/day7.rs:116 | raising the last of a sorted list keeps it sorted and positive |
| Day7.NoJokerSameValue | examples/day7.rs:97-128 | without a J, `calc_hand_value_2` agrees with `calc_hand_value` |
| Day7.AllJokersFive | examples/day7.rs:113-114 | five jokers make a Five |
| Day7.CalcHandValue2 | examples/day7.rs:97-128 | `calc_hand_value_2` returns the pattern of the counts with the jokers added to the largest group |
| Day7.LexFlip | examples/day7.rs:47 | comparing card arrays is antisymmetric, and Equal exactly for equal arrays |
| Day7.LexTransitive | examples/day7.rs:47 | comparing card arrays is transitive |
| Day7.CompareProperties | examples/day7.rs:35-49 | the comparison is antisymmetric, Equal exactly for equal hand values and cards (the hand-written `eq`), and orders by hand value first |
| Day7.HandLeTotalPreorder | examples/day7.rs:41-49 | "sorts no later than" is a total preorder, so the sort is well defined |
| Day7.RankingSorted | examples/day7.rs:133 | the sort yields every hand exactly once, in ascending order |
| Day7.WinningsAtLeastBids | examples/day7.rs:134-139 | every hand earns at least its bid, so the winnings are at least the sum of the bids |
| Day7.SumWinnings | examples/day7.rs:134-139 | the `enumerate().map().sum()` loop sums `(i + 1) * bid` over the ranked hands |
| Day7.Part1 | examples/day7.rs:131-140 | `part1` is the rank-weighted bid sum of the sorted hands |
| Day7.JokersLow | examples/day7.rs:150-154 | lowering jokers keeps the hand's length |
| Day7.JokerLosesTie | examples/day7.rs:150-156 | when two hands agree up to a joker in one facing a non-zero card in the other, the hand with the joker sorts first |
| Day7.Rejoker | examples/day7.rs:146-155 | a hand as `part2` sees it: same bid, every J lowered to 0, value computed with jokers wild |
| Day7.RejokerAll | examples/day7.rs:146-155 | every hand is revalued |
| Day7.LowerJokers | examples/day7.rs:150-154 | the inner loop sets every 11 to 0 and leaves the other cards |
| Day7.Part2 | examples/day7.rs:142-163 | `part2` revalues every hand with jokers wild and lowered, then ranks and sums as `part1` does |
| Day7.HandCards | examples/day7.rs:56-62 | the card string parses when it has at most five known cards; the cards hold their values in order, padded with zeros to five |
| Day8.Move | examples/day8.rs:51-56 | one move follows the left or right branch as the cycled instruction says; a missing node, empty instructions or an instruction other than L and R is a panic |
| Day8.ReachSnoc | examples/day8.rs:50-58 | the node after `n + 1` moves is one move on from the node after `n` moves |
| Day8.WalkToGoalSound | examples/day8.rs:44-60 | a finished walk from AAA ends at ZZZ after the reported number of moves and passes no earlier ZZZ |
| Day8.WalkToGoalComplete | examples/day8.rs:44-60 | if ZZZ is reachable within the fuel, the walk finishes, no later than that |
| Day8.Part1 | examples/day8.rs:44-60 | `part1` counts the moves from AAA to the first ZZZ |
| Day8.SamplePart1 | examples/day8.rs:113-121 | the first sample network takes two moves |
| Day8.FirstZSound | examples/day8.rs:63-81 | `steps_to` takes at least one move, ends at a node ending in Z after the reported number of moves, and passes no such node before |
| Day8.StepsTo | examples/day8.rs:63-81 | the loop of `steps_to`, starting at move `start_step` of the cycled instructions |
| Day8.Lcm | examples/day8.rs:83-86 | `lcm(a, b) = (a / gcd(a, b)) * b` fails (a division by zero) exactly when both are zero |
| Day8.LcmIsCommonMultiple | examples/day8.rs:83-86 | otherwise it is a common multiple of both, zero only when one of them is |
| Day8.LcmIsLeast | examples/day8.rs:83-86 | and it divides every common multiple of the two, so it is the least one |
| Day8.CoprimeParts | examples/day8.rs:84-85 | dividing both arguments by their gcd leaves coprime quotients |
| Day8.RepeatPositive | examples/day8.rs:99-102 | every repeat length `second - first` is at least one move |
| Day8.FoldLcmCommonMultiple | examples/day8.rs:107-108 | folding `lcm` from 1 over positive lengths never divides by zero, stays positive, and is a common multiple of every length |
| Day8.FoldLcmIsLeast | examples/day8.rs:107-108 | the fold divides every common multiple of the lengths: it is their least common multiple |
| Day8.Part2 | examples/day8.rs:89-109 | `part2` returns the least common multiple of the repeat lengths of all start nodes ending in A (a positive common multiple that divides every other); it fails only when some start's walk fails |
| Day8.RepeatLengths | examples/day8.rs:96-103 | the first loop yields, in order, each start's repeat length, every one positive, or fails exactly when some start's walk fails |
| Day8.LcmAll | examples/day8.rs:107-108 | the loop computes the `lcm` fold of the lengths from 1 and never divides by zero, so its result is the fold that Day8.FoldLcmIsLeast shows least |
| Day9.Diffs | examples/day9.rs:22-25 | `windows(2)` differences: one fewer than the elements, none for an empty sequence |
| Day9.DiffsAt | examples/day9.rs:23-25 | each difference is the step between neighbouring elements |
| Day9.Levels | examples/day9.rs:19-31 | the stored levels start with the sequence itself |
| Day9.LevelsNonEmpty | examples/day9.rs:21-31 | every stored difference level is non-empty and not all zero, so only an empty input leaves an empty level to pop |
| Day9.NextExtendsDiffs | examples/day9.rs:32-36 | appending the prediction extends the difference table consistently: the differences gain their own prediction, or stay all zero |
| Day9.SumLastsPrepend | examples/day9.rs:34-36 | popping one more level adds its last element |
| Day9.SumLastsIsNext | examples/day9.rs:32-36 | the popped last elements add up to the prediction; the sum fails (the `unwrap` panic) exactly for an empty sequence |
| Day9.BuildLevels | examples/day9.rs:19-31 | the first loop stores the sequence and its difference levels up to the first all-zero one |
| Day9.DiffLevel | examples/day9.rs:22-25 | the inner loop computes the differences of the deepest level |
| Day9.PopLasts | examples/day9.rs:33-36 | the second loop pops the levels deepest first, summing their last elements |
| Day9.Extrapolate | examples/day9.rs:18-37 | one sequence's prediction: its last element plus the prediction of its differences; an empty sequence panics |
| Day9.Part1 | examples/day9.rs:16-40 | `part1` sums the predictions of all sequences; it fails exactly when some sequence is empty |
| Day9.DiffsOf | examples/day9.rs:23-25 | a sequence of neighbouring steps is the difference level |
| Day9.SampleFirst | examples/day9.rs:48 | `0 3 6 9 12 15` predicts 18 |
| Day9.SampleSecond | examples/day9.rs:49 | `1 3 6 10 15 21` predicts 28 |
| Day9.SampleThird | examples/day9.rs:50-53 | `10 13 16 21 30 45` predicts 68 |
| Day9.SampleTotal | examples/day9.rs:48-53 | the three sample sequences total 114 |
| Day10.Cell | examples/day10.rs:16-31 | a tile exists exactly inside the rows and the row's length; indexing elsewhere panics |
| Day10.IsConnectedRules | examples/day10.rs:10-39 | `is_connected` does not depend on the order of its two positions; it panics exactly for diagonal pairs and tiles it reads outside the field, and otherwise checks that the upper (left) tile opens down (right) and the lower (right) tile opens up (left) |
| Day10.Candidates | examples/day10.rs:40-55 | at most four neighbours are tried |
| Day10.KeepSound | examples/day10.rs:40-55 | what is kept is exactly the connected candidates, in order, and every candidate was checked without a panic |
| Day10.AdjacentSound | examples/day10.rs:40-55 | `adjacent` returns at most four orthogonal neighbours, all connected, and every in-field connected neighbour |
| Day10.CandidatesAreNeighbours | examples/day10.rs:42-53 | the four guarded positions are orthogonal neighbours and include every in-field neighbour |
| Day10.Consider | examples/day10.rs:42-53 | one guarded check of `adjacent` is the step `Check`: push the neighbour when connected, keep the list when not, and a panic there is a panic |
| Day10.KeepSnoc | examples/day10.rs:42-53 | filtering one more candidate is one more `Check` on what the earlier candidates left |
| Day10.KeepCandidatesSteps | examples/day10.rs:40-55 | the four guarded checks, left, right, up and down, filter exactly the candidate list |
| Day10.Adjacent | examples/day10.rs:40-55 | `adjacent` checks left, right, up and down in that order |
| Day10.KeepKept | examples/day10.rs:56-61 | re-filtering an already connected list by the same check keeps all of it |
| Day10.ConnectedList | examples/day10.rs:56-61 | `connected` returns exactly what `adjacent` does |
| Day10.FindStart | examples/day10.rs:69-78 | the start is the first `S` in row-major order; a field without one panics |
| Day10.StepConnected | examples/day10.rs:91-102 | a step is taken only from a tile with exactly two connections, and moves to a connected tile |
| Day10.WalkIsLoop | examples/day10.rs:86-108 | a finished walk is a closed chain of connected moves that returns to the start and does not pass it before |
| Day10.LoopStep | examples/day10.rs:91-104 | one connected move in front of a loop is a loop |
| Day10.Part1 | examples/day10.rs:86-108 | `part1` returns half the length of the loop through the start; a tile without exactly two connections is a panic |
| Day11.DistMetric | examples/day11.rs:19-32 | `dist` is symmetric, zero exactly between equal points, and obeys the triangle inequality |
| Day11.AbsentBelow | examples/day11.rs:51-59 | the number of absent columns below `n` is at most `n` |
| Day11.CounterClosedForm | examples/day11.rs:49-60 | column `n` moves to `n + (exp - 1) * (absent columns below n)`, so with `exp = 1` nothing moves |
| Day11.RemappedGap | examples/day11.rs:49-72 | two remapped indices are apart by their original distance plus `exp - 1` for every empty column or row between them |
| Day11.MapUpTo | examples/day11.rs:51-59 | the first `n` entries of the map |
| Day11.MapUpToAt | examples/day11.rs:51-59 | entry `i` of the map is the counter before index `i` |
| Day11.BuildMap | examples/day11.rs:49-72 | the remapping loop over `0..=max` pushes, at entry `i`, the counter before `i` |
| Day11.AfterPicksOne | examples/day11.rs:74-76 | of two distinct galaxies exactly one comes after the other and no galaxy pairs with itself, so each unordered pair is summed once |
| Day11.MaxOf | examples/day11.rs:46-47 | the largest coordinate bounds all of them and is one of them |
| Day11.XList | examples/day11.rs:38-41 | the x coordinates of the galaxies |
| Day11.YList | examples/day11.rs:42-45 | the y coordinates of the galaxies |
| Day11.ColMap | examples/day11.rs:49-60 | the column map has one entry per column up to the largest x |
| Day11.RowMap | examples/day11.rs:61-72 | the row map has one entry per row up to the largest y |
| Day11.MapsFit | examples/day11.rs:77-80 | every galaxy's column and row are inside the maps, so the indexing never panics |
| Day11.NoExpansion | examples/day11.rs:49-60 | with `exp = 1` the column map is the identity |
| Day11.WithExpansion | examples/day11.rs:34-86 | `with_expansion` sums the expanded distances over unordered galaxy pairs; no galaxies (the `max().unwrap()` panic) is an error |
| Day11.InnerLoop | examples/day11.rs:75-83 | the inner loop adds the expanded distance from `g1` to every galaxy before it |
| Day12.CompletedPrefix | examples/day12.rs:82-100 | the runs completed within a prefix of the row are the first runs of the whole row |
| Day12.SumAppend | examples/day12.rs:57 | the run total adds over concatenation |
| Day12.RunsSum | examples/day12.rs:57-61 | the runs of a row add up to its number of damaged cells |
| Day12.Bit | examples/day12.rs:72 | a bit is 0 or 1 |
| Day12.BitIsShift | examples/day12.rs:72-73 | bit `k` of the mask is the low bit of the mask shifted right `k` times |
| Day12.Assign | examples/day12.rs:70-81 | filling in the unknowns from the mask keeps the row's length |
| Day12.TopBit | examples/day12.rs:65 | setting a bit above a number adds one to its count of one bits |
| Day12.OnesBelowCount | examples/day12.rs:65-73 | the one bits used by the first `u` unknowns are those of the mask modulo `2^u` |
| Day12.OnesBelowAll | examples/day12.rs:64-65 | a mask in the loop's range has all its one bits among the bits the unknowns use |
| Day12.AssignDamaged | examples/day12.rs:59-73 | the filled row has the known damaged springs plus one per one bit used |
| Day12.FitsMeaning | examples/day12.rs:82-115 | the run check accepts a mask exactly when the runs of the filled row are the listed runs |
| Day12.Matches | examples/day12.rs:68-115 | the scan rejects on a mismatch, a missing run or a run left over, and accepts exactly the masks whose filled row has the listed runs |
| Day12.Guess | examples/day12.rs:71-81 | an unknown takes the low bit of the shifted mask, which then shifts on; a known spring is what it is |
| Day12.AssignPrefix | examples/day12.rs:70-81 | filling in a prefix of the row gives a prefix of the filled row |
| Day12.Arrangements | examples/day12.rs:63-117 | at most one arrangement per mask tried |
| Day12.FitNeedsOnes | examples/day12.rs:61-65 | a fitting mask has exactly `needed_damaged` one bits, and the row needs no fewer damaged springs than it knows of |
| Day12.FilterAgrees | examples/day12.rs:65-67 | the bit-count filter only skips masks that could not fit |
| Day12.CountMatches | examples/day12.rs:56-119 | `count_matches` counts the masks below `2^unknowns` whose filled row has the listed runs; the u32 underflows and a shift of 64 or more are panics |
| Day12.CountFits | examples/day12.rs:63-117 | the mask loop counts every fitting mask |
| Day12.TryMask | examples/day12.rs:64-116 | one mask adds one exactly when it fits |
| Day12.Part1 | examples/day12.rs:122-126 | `part1` sums the rows' counts; it fails exactly when some row panics |
| Day12.AddRow | examples/day12.rs:123-125 | adding one row's count to the running sum gives the sum over one more row, and fails exactly when that row panics |
| Day13.ShiftInBit | examples/day13.rs:123-125 | shifting a bit in moves every other bit up one place |
| Day13.HighBitClear | examples/day13.rs:120-129 | a word below `2^n` has no bit set at or above `n` |
| Day13.BitsDetermine | examples/day13.rs:11-15 | a word is determined by its bits |
| Day13.PackBits | examples/day13.rs:120-129 | packing at most 32 cells loses nothing: the word is below `2^n` and cell `k` lands on bit `n - 1 - k` |
| Day13.PackInjective | examples/day13.rs:120-129 | two lines of at most 32 cells pack to the same word exactly when their cells agree |
| Day13.Cells | examples/day13.rs:122-126 | `#` is a set cell and anything else a clear one |
| Day13.MakeRow | examples/day13.rs:120-129 | `make_row` packs the line leftmost character first, wrapping at 32 bits |
| Day13.MakeRowBits | examples/day13.rs:120-129 | for a line of at most 32 cells, bit `n - 1 - k` is set exactly when character `k` is `#`, and no higher bit is |
| Day13.ColCells | examples/day13.rs:20-23 | column `i` of the field is bit `i` of every row, top to bottom |
| Day13.Col | examples/day13.rs:18-25 | `Field::col` packs bit `i` of every row with the top row most significant, wrapping at 32 bits |
| Day13.ShiftInWord | examples/day13.rs:21-22 | shifting left in a 32-bit word and or-ing a bit in is adding it before the wrap |
| Day13.Columns | examples/day13.rs:27-28 | the columns `col(0) ..= col(num_cols)` the vertical search reads |
| Day13.ColumnBeyondBlank | examples/day13.rs:28 | with rows no wider than the field, the column `col(num_cols)` beyond the leftmost one is blank |
| Day13.AllClearPacksToZero | examples/day13.rs:120-129 | a line without `#` packs to zero |
| Day13.FieldOf | examples/day13.rs:135-141 | a block parses exactly when it has a line (the `unwrap` panic); the width is the first line's length and there is one row per line |
| Day13.FieldColumnCells | examples/day13.rs:18-25 | bit `rows - 1 - k` of column `i` is the cell of line `k` that is `i` places from the right |
| Day13.FieldRowsEqual | examples/day13.rs:46 | two rows are equal exactly when their lines have `#` in the same places |
| Day13.XorBit | examples/day13.rs:12 | a bit of `a ^ b` is set exactly where the bits of `a` and `b` differ |
| Day13.PositiveHasBit | examples/day13.rs:13 | a non-zero word has a set bit and a positive `count_ones` |
| Day13.PopCountBits | examples/day13.rs:13-14 | `count_ones` is zero exactly when no bit is set, and at most one exactly when at most one bit is set |
| Day13.NearlyEqMeaning | examples/day13.rs:11-15 | `nearly_eq` holds exactly when the words differ in at most one bit place; it is reflexive and symmetric |
| Day13.NoDiffMeansEqual | examples/day13.rs:12-13 | the words differ in no bit exactly when they are equal |
| Day13.XorShiftIn | examples/day13.rs:12 | shifting a bit into both words shifts their xor, with the new bit set when the two bits differ |
| Day13.PopCountShiftIn | examples/day13.rs:13 | shifting a bit in adds it to the count of ones |
| Day13.PackSnoc | examples/day13.rs:123-125 | with at most 32 cells the last one is shifted in without loss |
| Day13.PackDiffStep | examples/day13.rs:79-80 | shifting one more cell into both lines adds one differing bit exactly when the two new cells differ |
| Day13.DiffShiftIn | examples/day13.rs:79-80 | shifting a bit into each of two words adds one differing bit exactly when the two bits differ |
| Day13.PackDiff | examples/day13.rs:79-80 | for at most 32 cells, the differing bits of two packed lines count the cells in which the lines differ |
| Day13.SmudgesGrow | examples/day13.rs:64-84 | the running smudge count never decreases as the walk goes outwards |
| Day13.FirstLineIsFirst | examples/day13.rs:26-117 | the search returns the smallest accepted gap, and none only when no gap is accepted |
| Day13.PerfectIsNotSmudged | examples/day13.rs:61-117 | a perfect mirror is never a smudged one |
| Day13.SmudgesOfPerfect | examples/day13.rs:64-84 | a perfect mirror has no smudges |
| Day13.SmudgedByTotal | examples/day13.rs:63 | the `nearly_eq` test on the two neighbours adds nothing: a total of one differing bit already implies it |
| Day13.CheckMirror | examples/day13.rs:29-38 | the inner loop walks outwards from the gap to an edge and succeeds exactly when every mirrored pair is equal; it panics exactly when it reaches a read beyond the limit first |
| Day13.CheckSmudged | examples/day13.rs:64-84 | the smudged inner loop succeeds exactly when the mirrored pairs differ in one bit in total; it panics exactly when it reaches a read beyond the limit first |
| Day13.SearchAgrees | examples/day13.rs:18-41 | the search panics exactly when some gap reaches a read beyond the limit before any gap is accepted; otherwise it returns the first accepted gap; it cannot panic when every gap and pair lies below the limit |
| Day13.FindLine | examples/day13.rs:27-41 | the outer loop tries each gap in turn and returns the first one accepted, or panics on a read beyond the limit |
| Day13.VertLine | examples/day13.rs:26-43 | a vertical line reports fewer columns than the field has |
| Day13.HorzLine | examples/day13.rs:44-60 | a horizontal line lies strictly inside the rows |
| Day13.VertReadSpec | examples/day13.rs:18-43 | the vertical search panics (the `r >> i` shift overflows) only in a field with a row and at least 32 columns; without a panic it gives the vertical line |
| Day13.VertSym | examples/day13.rs:26-43 | `vert_sym`: the first perfect vertical mirror, counted as columns to its left, or a panic on an overflowing column read |
| Day13.HorzSym | examples/day13.rs:44-60 | `horz_sym`: panics exactly on a field without rows (`rows.len() - 1` underflows); otherwise the first perfect horizontal mirror, counted as rows above it |
| Day13.VertSymSmudged | examples/day13.rs:61-89 | `vert_sym_smudged`: the first vertical mirror with exactly one smudge, or a panic on an overflowing column read |
| Day13.HorzSymSmudged | examples/day13.rs:90-117 | `horz_sym_smudged`: panics exactly on a field without rows; otherwise the first horizontal mirror with exactly one smudge |
| Day13.VertLineBeyondEdge | examples/day13.rs:28-33 | a line reported at gap `num_cols - 1` compares against the blank column beyond the edge, so the leftmost column is blank |
| Day13.FirstLinesDiffer | examples/day13.rs:26-117 | the first perfect mirror and the first smudged mirror are different gaps |
| Day13.SmudgedRowLineMoves | examples/day13.rs:44-117 | the smudged horizontal line is never the part-1 line when both exist |
| Day13.SmudgedColLineMoves | examples/day13.rs:26-89 | the same for the vertical line |
| Day13.NoteSpec | examples/day13.rs:149-154 | a field's note panics exactly when it has no rows or its vertical search panics, never for a field with a row and fewer than 32 columns; otherwise it is the vertical line plus 100 times the horizontal line |
| Day13.SummaryNone | examples/day13.rs:146-170 | the sum of the notes panics exactly when some field's note does |
| Day13.TotalStep | examples/day13.rs:149-154 | each field adds its note to the running sum, and a field whose note panics makes the whole sum panic |
| Day13.Summarize | examples/day13.rs:146-170 | `part1` / `part2` add up every field's note, stopping at the first panic |
| Day13.FieldNote | examples/day13.rs:149-154 | the loop body computes the field's note, or its panic |
| Day13.AddNote | examples/day13.rs:149-154 | adding one field's note to the running sum gives the sum over one more field, and a panic there makes the whole sum panic |
| Day13.NotesAt | examples/day13.rs:149-154 | the list of notes holds each field's note at that field's position |
| Day13.SampleSecondField | examples/day13.rs:182-188 | the sample's second field has its mirror below row 4 |
| Day13.SampleSmudge | examples/day13.rs:182-183 | its first two rows differ in one cell |
| Day13.SampleSecondFieldSmudged | examples/day13.rs:182-188 | with its smudge, its mirror is below row 1 |
| Day13.SampleGapSmudged | examples/day13.rs:182-183 | gap 0 of that field is a smudged mirror |
| Day14.ParseSpace | examples/day14.rs:17-22 | `.` is empty, `O` a round rock, `#` a square rock, and any other character panics |
| Day14.ParseRow | examples/day14.rs:13-26 | a line parses exactly when every character is `.`, `O` or `#`, into one cell per character |
| Day14.ParseInput | examples/day14.rs:12-26 | `parse_input` succeeds exactly when every line parses, giving one row per line, each the parse of its line |
| Day14.Free | examples/day14.rs:39-49 | the place the next rolling rock comes to rest lies within the column |
| Day14.Tilt | examples/day14.rs:34-54 | tilting north keeps the column's length |
| Day14.TiltFree | examples/day14.rs:39-49 | below the free place the tilted column is empty, and the place just above it is taken |
| Day14.TiltSettled | examples/day14.rs:39-49 | after the tilt no round rock has an empty place above it |
| Day14.TiltKeepsSquares | examples/day14.rs:47-49 | the tilt keeps the square rocks where they are |
| Day14.TiltKeepsRocks | examples/day14.rs:39-49 | the tilt keeps every rock; only where they lie changes |
| Day14.LoadPlace | examples/day14.rs:43-46 | a round rock resting in row `f` adds `height - f` to the load |
| Day14.ScanStart | examples/day14.rs:39-49 | `start_load` is always the height minus the free place |
| Day14.ScanIsTiltedLoad | examples/day14.rs:37-52 | the scan of a column adds up exactly the north-beam load of the column after tilting north |
| Day14.RoundStep | examples/day14.rs:43-46 | a round rock adds the load of the free place it rolls to, which moves down one |
| Day14.StillStep | examples/day14.rs:41-50 | an empty place or a square rock adds no load; a square rock moves the free place below itself |
| Day14.StartLoadBound | examples/day14.rs:45 | `start_load` never goes below the height less the rows scanned, so the subtraction never underflows |
| Day14.Column | examples/day14.rs:29-32 | `iter_col` yields one cell per row |
| Day14.Part1 | examples/day14.rs:35-54 | `part1` is the total load of the platform tilted north; no rows (`data[0]`) or a row shorter than the first (`row[c]`) panics |
| Day14.ScanColumn | examples/day14.rs:38-51 | one column's scan fails exactly when some row is too short for it, and otherwise is the column's tilted load |
| Day15.HashOf | examples/day15.rs:10-18 | the hash of a byte string is below 256 |
| Day15.Hash | examples/day15.rs:10-18 | `hash`'s loop computes the fold of `(h + b) * 17 mod 256`, and its `u16` accumulator never overflows |
| Day15.HashSample | examples/day15.rs:78 | `hash(b"HASH") == 52` |
| Day15.TrimStart | examples/day15.rs:7 | trimming drops a prefix, after which the text does not start with white space |
| Day15.TrimEnd | examples/day15.rs:7 | trimming drops a suffix, after which the text does not end with white space |
| Day15.Steps | examples/day15.rs:6-8 | `parse_input` splits the trimmed text at commas into at least one step |
| Day15.SumHashesBound | examples/day15.rs:21-25 | each step adds less than 256 |
| Day15.Part1 | examples/day15.rs:21-25 | `part1` sums the hashes of the steps |
| Day15.ParseUsize | examples/day15.rs:52 | a focal length parses exactly when it is an optional `+` and at least one decimal digit |
| Day15.FirstIndex | examples/day15.rs:50 | `split_once('=')` splits at the first `=`, and fails exactly when there is none |
| Day15.ParseInsn | examples/day15.rs:34-52 | a step ending in `-` removes the name before it; otherwise no `=` or a focal length that does not parse panics, and `name=focal` puts the lens |
| Day15.Find | examples/day15.rs:39-45 | the search finds the first slot holding the name, or none exactly when no slot does |
| Day15.WithoutAbsent | examples/day15.rs:46-48 | removing a name the box does not hold changes nothing |
| Day15.WithoutProps | examples/day15.rs:46-48 | what is left holds no lens with the name, only lenses that were there, and no repeated name if there was none before |
| Day15.RemoveIsWithout | examples/day15.rs:39-48 | on a box without repeated names, `name-` drops every lens with the name and keeps the others in order |
| Day15.RemoveSpec | examples/day15.rs:34-48 | removing keeps the box free of repeated names and leaves no focal length for the name |
| Day15.RemoveKeepsOthers | examples/day15.rs:34-48 | removing leaves every other name's focal length as it was |
| Day15.PutPresent | examples/day15.rs:54-61 | putting a name already present replaces its focal length in place; the slot and every other name's focal length stay as they were |
| Day15.PutAbsent | examples/day15.rs:62-64 | putting a new name appends it at the back; every other name keeps its focal length |
| Day15.EmptyBoxes | examples/day15.rs:28-31 | there are 256 boxes |
| Day15.Apply | examples/day15.rs:33-65 | one step changes only box `hash(name)` |
| Day15.Run | examples/day15.rs:33-66 | there are still 256 boxes after the steps |
| Day15.StepBoxKept | examples/day15.rs:33-65 | the box a step removes from or puts into stays free of repeated names and holds only lenses whose name hashes to it |
| Day15.ApplyKeeps | examples/day15.rs:33-65 | one step keeps every box free of repeated names, with every lens in the box of its name's hash |
| Day15.RunInvariant | examples/day15.rs:33-66 | after any sequence of steps every box holds no name twice, and each lens sits in the box of its name's hash |
| Day15.EmptyPower | examples/day15.rs:67-72 | empty boxes have no focusing power |
| Day15.FindSlot | examples/day15.rs:39-45 | the search loop finds the first slot holding the name |
| Day15.FindFirst | examples/day15.rs:40-44 | a slot holding the name with none before it is the one found |
| Day15.Step | examples/day15.rs:34-65 | one step of `part2` on box `hash(name)`: remove the lens, replace its focal length, or append a new lens |
| Day15.FocusingPower | examples/day15.rs:67-72 | the closing double loop sums `(box + 1) * (slot + 1) * focal` |
| Day15.Insns | examples/day15.rs:33-52 | one instruction per step |
| Day15.NewBoxes | examples/day15.rs:28-31 | the first loop makes 256 empty boxes |
| Day15.InsnsSnoc | examples/day15.rs:33 | parsing one more step appends its instruction |
| Day15.Part2 | examples/day15.rs:27-74 | `part2` is the focusing power after applying every step in order; it fails exactly when some step does not parse |
| Day16.ParseSq | examples/day16.rs:15-25 | a character is a cell exactly when it is one of `.`, `-`, `\|`, `/` and `\`; any other panics |
| Day16.ParseRow | examples/day16.rs:29-33 | a line parses exactly when every character is a cell, giving one cell per character |
| Day16.ParseInput | examples/day16.rs:29-33 | `parse_input` succeeds exactly when every line parses, giving one row per line, each the parse of its line |
| Day16.NextPos | examples/day16.rs:43-50 | `next_pos` moves one cell in the direction and gives `None` exactly at the edge the beam would cross |
| Day16.NextPosInverse | examples/day16.rs:43-50 | a step stays inside the grid, and stepping back the opposite way returns to the start |
| Day16.Turn | examples/day16.rs:65-79 | a beam leaves a cell in one or two directions |
| Day16.SplitterTurns | examples/day16.rs:67-70 | a splitter hit end-on passes the beam; hit on its flat side it sends two opposite beams out at right angles |
| Day16.MirrorReversible | examples/day16.rs:71-78 | an empty cell or mirror sends one beam on, a mirror turns it by a right angle, and running the beam backwards retraces it |
| Day16.Spread | examples/day16.rs:80-86 | the beams queued from a cell are exactly those that step in one of its directions without leaving the grid |
| Day16.EnergizedUnique | examples/day16.rs:59-89 | the light reaches one set of beams whatever order the worklist takes them in |
| Day16.Follow | examples/day16.rs:80-86 | for one beam, every following beam ends up visited and exactly the ones not seen before are queued |
| Day16.Round | examples/day16.rs:61-88 | one round of the worklist visits every beam following the current ones, queues exactly the new ones, and fails exactly when a beam stands on a missing cell |
| Day16.RoundStep | examples/day16.rs:62-87 | processing one more beam of the round keeps the round's invariant |
| Day16.EnergizedBeams | examples/day16.rs:54-89 | the worklist ends with the least set of beams that holds the start and every beam following one of its own, on the grid; it fails exactly when the source panics |
| Day16.NewBeamsInGrid | examples/day16.rs:80-86 | a round only queues beams inside the grid |
| Day16.ForcedGrows | examples/day16.rs:80-86 | every visited beam is one the light must reach |
| Day16.RoundKeeps | examples/day16.rs:59-88 | a round that does not panic keeps the search invariant: the worklist is visited, visited beams are on the grid and forced, and every beam off the worklist was read safely and had its successors visited |
| Day16.NoPanic | examples/day16.rs:65 | with the reached set closed, the source panics exactly when the light reaches a missing cell |
| Day16.PositionsBound | examples/day16.rs:90 | at most one energized position per cell |
| Day16.Part1 | examples/day16.rs:53-91 | `part1` counts the distinct positions the light reaches, at most width times height, and fails exactly when the source panics |
| Day17.CellValue | examples/day17.rs:9 | `b - b'0'` is defined exactly for bytes from `'0'` up, and gives the digit's value |
| Day17.ParseRow | examples/day17.rs:7-11 | a line parses exactly when no byte is below `'0'`, giving one heat loss per byte |
| Day17.ParseInput | examples/day17.rs:7-11 | `parse_input` succeeds exactly when every line parses, giving one row per line, each the parse of its line |
| Day17.CompareIsOrder | examples/day17.rs:29-47 | the hand-written comparison is a total order: equal exactly on equal states, antisymmetric, transitive, and a cheaper state is always greater |
| Day17.Room | examples/day17.rs:56 | a run goes at most three cells |
| Day17.Ray | examples/day17.rs:54-60 | a run of `n` cells yields `n` states |
| Day17.RayShape | examples/day17.rs:54-60 | the `k`-th state of a run is `k + 1` cells away in its direction, inside the grid, heading that way, with exactly the heat of the cells entered added |
| Day17.MovesShape | examples/day17.rs:49-90 | `nextmoves` turns at a right angle, stays in the grid, runs one to three cells, never loses cost, and offers at most six states |
| Day17.Run | examples/day17.rs:54-60 | each `while` loop of `nextmoves` builds the run of states in its direction; it panics exactly when a cell of the run lies past the end of a row shorter than the first |
| Day17.RectangularFits | examples/day17.rs:56-83 | on a grid whose rows all have the first row's length, no run of a state inside the grid reads past a row |
| Day17.NextMoves | examples/day17.rs:49-90 | `nextmoves` gives the two runs at right angles to the last direction, and panics exactly when one of them reads past a short row |
| Day17.StartRoute | examples/day17.rs:104-115 | each start is a route of its own |
| Day17.RouteEnd | examples/day17.rs:49-90 | every route ends inside the grid |
| Day17.RouteStep | examples/day17.rs:122 | a route extended by a move of its last state is a route to the move |
| Day17.Pop | examples/day17.rs:117 | `BinaryHeap::pop` takes out a state no other queued state beats in the hand-written order, and keeps the rest |
| Day17.StartInvariant | examples/day17.rs:94-115 | the search starts out with a route for each queued state and each recorded cost |
| Day17.PopKeeps | examples/day17.rs:117 | taking states off the queue keeps every queued and recorded state backed by a route |
| Day17.Offer | examples/day17.rs:123-138 | a move whose key is new or recorded at a higher cost is queued at the end and recorded at its cost, and lowers the best cost to its own when it reaches the target cheaper; any other move leaves queue, recorded costs and best cost as they were; the search invariant is kept and recorded costs only fall |
| Day17.RecordKeeps | examples/day17.rs:133-137 | queueing and recording a state with a route keeps every recorded state and the best cost backed by a real route |
| Day17.BestIsReal | examples/day17.rs:133-134 | a finite best cost is the heat lost on a real route to the bottom right corner |
| Day17.Expand | examples/day17.rs:122-139 | the loop over a state's moves leaves exactly the queue, recorded costs and best cost of offering the moves one after another (`OfferAll`), keeps the search invariant, only appends to the queue, never raises a recorded cost or the best cost, and covers every move |
| Day17.OfferAllNext | examples/day17.rs:122-139 | offering one more move is one more offer step on the result so far |
| Day17.OfferAllGrows | examples/day17.rs:122-139 | offering moves only appends to the queue, only lowers recorded costs and the best cost, and leaves every offered move recorded at a cost no higher than its own |
| Day17.Part1 | examples/day17.rs:93-144 | `part1` panics without rows or columns, and otherwise only when a state some real route reaches has a run reading past a short row (never on a rectangular grid); a finite answer is the heat lost on a real route to the bottom right corner |
| Day18.CrossesVertical | examples/day18.rs:47-61 | on a vertical edge a point toggles the parity exactly when it lies in the edge's column strictly below its top end, and is only on the edge exactly at the top end |
| Day18.CrossesHorizontal | examples/day18.rs:62-74 | a horizontal edge never toggles the parity; a point is on it exactly when it lies within its span in its row |
| Day18.CrossesPanics | examples/day18.rs:75-77 | `crosses` panics exactly on an edge that is neither vertical nor horizontal |
| Day18.Edges | examples/day18.rs:90-105 | one edge per dig |
| Day18.EdgesShape | examples/day18.rs:90-105 | the edges start at the origin, end where the plan ends, join end to start, each runs along one axis, and every end lies in the bounding box |
| Day18.Trace | examples/day18.rs:82-105 | the first loop of `part1` ends at the plan's end with its edges and its bounding box |
| Day18.CrossCount | examples/day18.rs:114-127 | a cell crosses at most one edge per edge looked at |
| Day18.Probe | examples/day18.rs:113-127 | the edge loop sets `on_edge` exactly when some edge touches the cell, and flips `inside` once per crossing edge |
| Day18.RowScan | examples/day18.rs:112-138 | a row of `n` cells digs at most `n` |
| Day18.RowScanParity | examples/day18.rs:112-138 | partway along a row the scan is inside exactly when an odd number of crossings lie at or left of the cell, and a cell is dug exactly when it touches an edge or the scan is inside |
| Day18.ScanRow | examples/day18.rs:110-138 | the middle loop counts the cells of the row the scan digs |
| Day18.Dug | examples/day18.rs:109-140 | `n` rows dig at most `n` times the box width |
| Day18.Part1 | examples/day18.rs:81-142 | `part1` fails exactly when the plan does not come back to the origin; otherwise it counts the dug cells of the bounding box, at most its area |
| Day18.HexValue | examples/day18.rs:170 | `k` hex digits read as a number below `16^k` |
| Day18.Decode | examples/day18.rs:163-170 | the distance read from the colour is below `0x100000` |
| Day18.HexString | examples/day18.rs:29 | writing a number in `k` hex digits gives `k` characters |
| Day18.HexRoundTrip | examples/day18.rs:170 | reading back `k` hex digits written for a number below `16^k` gives the number |
| Day18.DecodeRoundTrip | examples/day18.rs:163-170 | decoding reads back the direction and distance of every dig written as a colour |
| Day18.InsertSorted | examples/day18.rs:178 | `BTreeSet::insert` keeps the set strictly sorted and adds exactly the new value |
| Day18.RowEdges | examples/day18.rs:198-213 | at most one classified edge per vertical edge |
| Day18.StepTracks | examples/day18.rs:224-306 | the `unwrap` and the first `assert!` on `start_inside` never fire; a step panics exactly on a crossing inside a horizontal run |
| Day18.FoldNone | examples/day18.rs:255-258 | a step that panics ends the row's sweep |
| Day18.SweepRowLoop | examples/day18.rs:216-310 | the inner loop of `part2` with its closing checks folds the step over the row's sorted edges |
| Day18.Decoded | examples/day18.rs:162-170 | one decoded dig per colour |
| Day18.YValues | examples/day18.rs:160-185 | the rows where some dig ends come out strictly increasing, each once |
| Day18.YValuesSpec | examples/day18.rs:171-182 | a row is among them exactly when some prefix of the plan ends on it |
| Day18.Trace2 | examples/day18.rs:152-185 | the first loop of `part2` fails exactly when some colour does not decode, and otherwise yields the end point, the vertical edges and the sorted rows of the decoded plan |
| Day18.TraceStep | examples/day18.rs:171-182 | one decoded dig moves the position, records its row and keeps its edge when it is vertical |
| Day18.DecodedNone | examples/day18.rs:163-170 | a colour that does not decode spoils the whole plan |
| Day18.Part2 | examples/day18.rs:151-313 | `part2` decodes the plan, fails when it does not return to the origin, and sweeps the rows where some dig ends, filling the rows between from the row just below the previous one |
| Day18.SweepRows | examples/day18.rs:191-311 | the outer loop of `part2` sweeps the rows in increasing order |
| Day18.AreaStep | examples/day18.rs:191-197 | each row adds the rows skipped since the last one at the last inside count before sweeping |
| Day18.AreaNone | examples/day18.rs:191-311 | a row that fails spoils the whole sweep |
| Day18.SquareRowEntries | examples/day18.rs:198-214 | on the top and bottom rows of a square of side `n > 0` its two edges sort to `x = 0` then `x = n`, both turning down or both coming up |
| Day18.SquareTopRow | examples/day18.rs:194-310 | on the top row of such a square both edges turn down: the row digs `n + 1` cells and leaves `n + 1` inside below it |
| Day18.SquareBottomRow | examples/day18.rs:194-310 | on its bottom row both edges come up: the row adds its `n + 1` cells to whatever was dug before |
| Day18.SquareArea | examples/day18.rs:186-311 | the sweep of the square's two rows digs all `(n + 1) * (n + 1)` cells, the `n - 1` rows between carried from the top one |
| Day18.SquareColours | examples/day18.rs:163-170 | the colours `000020` to `000023` name 2 right, 2 down, 2 left and 2 up |
| Day18.SquareDecoded | examples/day18.rs:162-170 | the plan with those colours decodes to the square's four digs |
| Day18.SquareTrace | examples/day18.rs:171-185 | that plan returns to the origin with two vertical edges and digs ending on rows 0 and 2 |
| Day18.SquareVertical | examples/day18.rs:171-182 | its down and up digs are its vertical edges, in that order |
| Day18.SquareRows | examples/day18.rs:171-182 | its digs end on rows 0 and 2 only |
| Day18.SquarePart2 | examples/day18.rs:334-340 | `part2` of the second sample plan is 9 |
| Day18.SquareOutlineTrace | examples/day18.rs:82-105 | followed by `part1`, the square's digs give its four edges and the box from (0, 0) to (2, 2) |
| Day18.SquareRow | examples/day18.rs:109-138 | each of the square's three rows digs its three cells |
| Day18.SquarePart1 | examples/day18.rs:81-142 | `part1` of the square's digs is also 9, the same answer as `part2` |
| Day19.ParseField | examples/day19.rs:16-28 | a field name parses exactly when it is `x`, `m`, `a` or `s`; any other panics |
| Day19.ParseWorkflowId | examples/day19.rs:56-66 | `A` and `R` are the two verdicts and every other text names a workflow |
| Day19.CollectKeepsLast | examples/day19.rs:123-125 | every listed workflow is in the map under its name, with the rules of the last workflow of that name |
| Day19.CollectKeys | examples/day19.rs:123-125 | no name is in the map unless some listed workflow has it |
| Day19.FireAt | examples/day19.rs:137-174 | the first rule that fires decides where the part goes |
| Day19.FireNone | examples/day19.rs:137-174 | a workflow sends the part nowhere exactly when none of its rules fires |
| Day19.FirstFiring | examples/day19.rs:137-174 | the rule loop of `run_workflows` stops at the first rule that fires |
| Day19.RunWorkflows | examples/day19.rs:133-176 | `run_workflows` starts at `in`, follows the workflows, panics on a missing one and returns the verdict reached |
| Day19.IterSnoc | examples/day19.rs:135-175 | following one more workflow takes one more step |
| Day19.ReachesStep | examples/day19.rs:135-175 | a part that reaches a workflow reaches wherever that workflow sends it |
| Day19.IterFinal | examples/day19.rs:142-145 | a verdict, once reached, is kept |
| Day19.RunIter | examples/day19.rs:133-176 | a run that ends has reached its verdict by following the workflows |
| Day19.IterRun | examples/day19.rs:133-176 | a part that reaches `A` within `n` steps is accepted by the run with `n` steps of fuel |
| Day19.RunMeansAccepted | examples/day19.rs:133-176 | a run of `run_workflows` that ends accepts exactly the parts that reach `A` from `in` |
| Day19.AcceptedRuns | examples/day19.rs:133-176 | every part that reaches `A` is accepted by a run with enough fuel |
| Day19.Part1 | examples/day19.rs:179-191 | the loop of `part1` runs each part in turn and stops at the first that fails |
| Day19.Part1Stops | examples/day19.rs:181-189 | once a part fails, the whole of `part1` fails the same way |
| Day19.Part1Meaning | examples/day19.rs:179-191 | `part1` finishes exactly when every part's run ends, and then it is the total rating of the accepted parts |
| Day19.EmptyMeansNoParts | examples/day19.rs:242-247 | a box is empty exactly when it holds no part |
| Day19.SetMinMeaning | examples/day19.rs:223-231 | `set_min` keeps exactly the parts whose rating for the field is at least the value, and only shrinks the box |
| Day19.SetMaxMeaning | examples/day19.rs:233-241 | `set_max` keeps exactly the parts whose rating for the field is at most the value, and only shrinks the box |
| Day19.SplitLt | examples/day19.rs:299-309 | a `<` rule splits a box into the parts it sends on and the parts it does not |
| Day19.SplitGt | examples/day19.rs:310-320 | a `>` rule splits a box into the parts it sends on and the parts it does not |
| Day19.VolumePositive | examples/day19.rs:330-337 | a box has a positive volume exactly when it is not empty |
| Day19.Jobs.Push | examples/day19.rs:260-264 | `Jobs::push` drops an empty box and otherwise pushes it on top |
| Day19.Jobs.Pop | examples/day19.rs:265-267 | `Jobs::pop` takes off the most recently pushed box, or gives `None` on an empty stack |
| Day19.BranchSound | examples/day19.rs:300-306 | the branch a rule splits off holds only parts the workflow sends to the rule's target |
| Day19.RestPending | examples/day19.rs:308 | what a rule leaves of the box holds only parts no earlier rule sent on |
| Day19.TargetKnown | examples/day19.rs:303-305 | every pushed target is `in` or a rule's target |
| Day19.BranchRestMeaning | examples/day19.rs:299-326 | the box a rule pushes holds exactly the parts of the box the rule sends on; what a conditional rule leaves holds exactly those it does not; both lie inside the box |
| Day19.SplitsJmp | examples/day19.rs:321-326 | an unconditional rule pushes the whole box, when not empty, to its target |
| Day19.SplitsCons | examples/day19.rs:299-320 | a conditional rule's branch, in front of jobs that split what it leaves, splits the whole box by where each part goes |
| Day19.PushedAllSplits | examples/day19.rs:297-328 | when only the last rule may be unconditional, every part of the box that the workflow sends on lies in exactly one pushed box, the one for its target, and no pushed box holds any other part |
| Day19.PushedAllStep | examples/day19.rs:297-328 | one turn of the rule loop pushes the rule's branch and goes on with what the rule leaves |
| Day19.ApplyRule | examples/day19.rs:298-327 | one rule of `part2` fails exactly on a `<` against 0, changing no job; otherwise it appends its non-empty branch for its target and gives back what it leaves, which for a conditional rule holds exactly the parts of the box the rule does not send on; every queued box stays non-empty, inside the default box and holding only parts that reach its workflow |
| Day19.RunRules | examples/day19.rs:297-328 | the rule loop of `part2` appends exactly the boxes `PushedAll` lists, rule by rule, and fails exactly where that meets a `<` against 0; queued boxes stay well formed, and a failure means broken workflows |
| Day19.StartSound | examples/day19.rs:273-280 | every part of the start box is at `in` |
| Day19.MissingBroken | examples/day19.rs:296 | a popped name with no workflow means a missing `in` or a rule targeting a missing workflow |
| Day19.Part2 | examples/day19.rs:271-338 | `part2` panics only on broken workflows; otherwise it sums the volumes of the boxes that reach `A`, each non-empty, inside the default box and, when only last rules are unconditional, holding only accepted parts |
| Day20.CollectFrom | examples/day20.rs:94-120 | every module of the machine comes from a line of its name |
| Day20.FromConjunctions | examples/day20.rs:102-117 | a conjunction starts out remembering low from exactly the lines that list it as an output |
| Day20.FromWellFormed | examples/day20.rs:93-147 | a machine built from parsed lines has a broadcaster, and every conjunction knows each module that can send to it |
| Day20.Send | examples/day20.rs:199-203 | a module sends one pulse per output, in output order, all of the new value |
| Day20.DeliverCounts | examples/day20.rs:160-164 | every delivered pulse adds one to exactly the counter of its value |
| Day20.FlipFlopRule | examples/day20.rs:168-176 | a flip-flop ignores a high pulse; on a low one it toggles and sends its new state to every output |
| Day20.ConjunctionRule | examples/day20.rs:177-181 | a conjunction remembers the sender's value, then sends low exactly when every remembered input is high |
| Day20.RxRule | examples/day20.rs:185-197 | a watched module keeps the press number of its first low pulse and leaves every other watch alone |
| Day20.UnknownRule | examples/day20.rs:165-166 | a pulse to an unknown module is only counted |
| Day20.DeliverNoPanic | examples/day20.rs:177-194 | a well-formed machine never panics on a pulse a module can send |
| Day20.DeliverWiring | examples/day20.rs:165-204 | a pulse never changes which modules exist, their kinds or their outputs |
| Day20.DeliverSends | examples/day20.rs:199-203 | every pulse a module sends goes from it to one of its outputs |
| Day20.WiringKeepsWellFormed | examples/day20.rs:165-204 | well-formedness depends only on the wiring |
| Day20.WiringTransitive | examples/day20.rs:165-204 | keeping the wiring is transitive |
| Day20.DeliverSafe | examples/day20.rs:158-205 | a well-formed machine handles the front pulse without panicking, keeps its wiring, and everything queued afterwards can be sent |
| Day20.RunSafe | examples/day20.rs:158-205 | a well-formed machine runs its whole queue without panicking and keeps its wiring |
| Day20.PressSafe | examples/day20.rs:153-206 | a machine built from parsed lines never panics on a press |
| Day20.RunRecords | examples/day20.rs:158-205 | handling the queue only raises the counters, by at least one per queued pulse, keeps the press number and the watched names, and only sets an unset watch, to the current press |
| Day20.Machine.PulseCount | examples/day20.rs:149-151 | `pulse_count` is zero exactly when no high or no low pulse was sent |
| Day20.Machine.Handle | examples/day20.rs:158-204 | one turn of `prod`'s loop updates the machine in place exactly as delivering the pulse does, and fails exactly where the source panics |
| Day20.Machine.Prod | examples/day20.rs:153-206 | `prod` presses the button and leaves the machine in the state the press reaches |
| Day20.Part1 | examples/day20.rs:210-217 | `part1` presses 1000 times on the machine built from the lines and multiplies the two pulse counts |
| Day20.PressesStop | examples/day20.rs:213-215 | once a press fails, every later number of presses fails the same way |
| Day20.PressesSafe | examples/day20.rs:211-215 | a machine built from parsed lines keeps its wiring and never panics over any number of presses |
| Day20.OnePressSafe | examples/day20.rs:153-206 | one press of a machine wired like a well-formed one never panics and keeps the wiring |
| Day20.Part1Safe | examples/day20.rs:210-217 | `part1` never panics on parsed lines |
| Day21.Shl1 | examples/day21.rs:32 | `w << 1` on a `u64` moves every bit up one and drops the top bit |
| Day21.Shr1 | examples/day21.rs:63 | `w >> 1` moves every bit down one and drops bit 0 |
| Day21.ShrTop | examples/day21.rs:34 | `w >> 63` leaves only the top bit, as bit 0 |
| Day21.ShlTop | examples/day21.rs:68 | `w << 63` leaves only bit 0, as the top bit |
| Day21.ShiftedLeft | examples/day21.rs:24-39 | `shift_left` keeps at least one word |
| Day21.ShiftWord | examples/day21.rs:31-37 | each new word is the old word shifted up one, taking the top bit of the word below |
| Day21.ShiftedLeftBits | examples/day21.rs:24-39 | `shift_left` moves every bit up by one within the words it keeps |
| Day21.ShiftedInBits | examples/day21.rs:41-46 | `shift_in` on a tidy row loses nothing: bit 0 is the new value, old bit `j` is now bit `j + 1`, and the row stays tidy and one bit longer |
| Day21.WordCount | examples/day21.rs:52 | the set bits among the first places of a word are its population count |
| Day21.CountOnesCounts | examples/day21.rs:48-54 | `count_ones` is the number of places `j` where `get(j)` holds |
| Day21.CountBitsBeyond | examples/day21.rs:73-81 | no bit is set past the stored words |
| Day21.OrShifted2Bits | examples/day21.rs:56-71 | after `or_shift_2`, bit `j` is set when it was, or, within the other row's words, when bit `j - 1` or `j + 1` of the other row is |
| Day21.OrShifted2Word | examples/day21.rs:61-70 | within the other row's words, each word ORs in the spread of the other row's word |
| Day21.SpreadNeighbours | examples/day21.rs:61-70 | bit `j` of the spread is set exactly when bit `j - 1` or `j + 1` of the other row is |
| Day21.SpreadBit | examples/day21.rs:62-69 | each bit of the spread comes from a neighbouring bit in the same word or across the border into the word below or above |
| Day21.OrWithBits | examples/day21.rs:93-104 | after `\|=` a bit is set exactly when it was in either row, and the width is the larger one |
| Day21.AndWithBits | examples/day21.rs:106-117 | after `&=` a bit within the right-hand words is set exactly when it was in both rows, bits beyond them are kept, and the width is the larger one |
| Day21.SetBitBits | examples/day21.rs:82-90 | after `set(j, v)`, `get(j)` is `v` and every other bit is unchanged |
| Day21.Row.ShiftLeft | examples/day21.rs:24-39 | `shift_left` updates the row in place as described |
| Day21.Row.ShiftIn | examples/day21.rs:41-46 | `shift_in` updates the row in place as described |
| Day21.Row.OrShift2 | examples/day21.rs:56-71 | `or_shift_2` updates the row in place as described |
| Day21.Row.OrAssign | examples/day21.rs:93-104 | `\|=` updates the row in place as described |
| Day21.Row.AndAssign | examples/day21.rs:106-117 | `&=` updates the row in place as described |
| Day21.Row.Set | examples/day21.rs:82-90 | `set` fails exactly where the source's word index is out of bounds, and otherwise sets the one bit |
| Day21.SpreadOr | examples/day21.rs:61-70 | the word the loop of `or_shift_2` builds is the OR of the row's word with the spread |
| Day21.NextRows | examples/day21.rs:152-164 | `next` builds one row per spot row |
| Day21.NextRowsAt | examples/day21.rs:153-164 | row `i` of `next` is built from spot rows `i - 1`, `i`, `i + 1` and plot row `i` |
| Day21.StepRule | examples/day21.rs:151-170 | after a step a place has a spot exactly when it is a plot and a neighbour to the left, right, above or below had a spot |
| Day21.StepKeepsWords | examples/day21.rs:151-170 | a step keeps the plots and the number of words of every spot row |
| Day21.NextRowWords | examples/day21.rs:154-163 | a new row has as many words as the rows it was built from |
| Day21.BuildRow | examples/day21.rs:154-163 | one turn of the loop of `next` builds the new row |
| Day21.Next | examples/day21.rs:151-170 | `next` is one step, failing exactly where a spot row has no plot row |
| Day21.RowOfBits | examples/day21.rs:177-186 | a parsed row is tidy, as wide as its line, and bit `j` is cell `width - 1 - j` |
| Day21.PlotCells | examples/day21.rs:182 | a cell is a plot exactly when it is not `#` |
| Day21.SpotCells | examples/day21.rs:183 | a cell holds a spot exactly when it is `S` |
| Day21.ParseRow | examples/day21.rs:178-186 | one line gives the plot row and the spot row of its cells |
| Day21.RowOfSnoc | examples/day21.rs:181-184 | each character shifts one more cell in |
| Day21.ParseInput | examples/day21.rs:174-193 | `parse_input` gives one plot row and one spot row per line |
| Day21.ParsedCells | examples/day21.rs:174-193 | on lines of one width every parsed row has the same words, and cell `k` of line `i` is bit `width - 1 - k` of row `i` |
| Day21.CountSpots | examples/day21.rs:144-149 | `count_spots` is the number of places, over all spot rows, where `get` holds |
| Day21.Part1 | examples/day21.rs:196-202 | `part1` counts the spots after the given number of steps, failing exactly where a step fails |
| Day21.StepsStop | examples/day21.rs:198-200 | once a step fails, every later step fails |
| Day21.StepsKeep | examples/day21.rs:198-200 | on rows of equal words, steps never fail and the plots stay put |
| Day22.Poses | examples/day22.rs:14-40 | `poses` lists the cubes of a brick along the first axis on which its ends differ, from the lower end up, all at or above its lowest z |
| Day22.OneCube | examples/day22.rs:31-39 | a brick of one cube is just that cube |
| Day22.CanDropAt | examples/day22.rs:94-101 | `can_drop` holds exactly when no lowered cube hits a filled cell |
| Day22.DropFrom | examples/day22.rs:72-75 | the drop loop stops short of the brick's lowest z |
| Day22.Drop | examples/day22.rs:70-75 | a brick drops less than its height above z = 0 |
| Day22.DropFromMeaning | examples/day22.rs:72-74 | the drop loop only passes drops that fit, and stops at the ground or at the first that does not |
| Day22.DropMeaning | examples/day22.rs:70-75 | a brick drops as far as it fits, stopping at the ground or above a filled cell |
| Day22.DropAmount | examples/day22.rs:70-75 | the drop loop of `do_part1` and `do_part2` computes the drop |
| Day22.PlaceSpace | examples/day22.rs:79-86 | placing adds exactly the lowered cells, as the brick's number, and keeps the rest of the space |
| Day22.PlaceResting | examples/day22.rs:79-86 | `resting_on` holds exactly the other bricks found directly beneath a lowered cube at the time it is placed |
| Day22.BelowOwnCube | examples/day22.rs:80-82 | a cell beneath a cube that belongs to the same brick is a cube placed earlier in `poses` order |
| Day22.UnderOtherBeneath | examples/day22.rs:81-83 | a brick is found beneath a cube exactly when it fills the cell beneath it in the space before placing, that cell not being the brick's own |
| Day22.RestingOn | examples/day22.rs:78-86 | `resting_on` holds exactly the other bricks that fill a cell directly beneath one of the brick's cubes |
| Day22.PlaceSome | examples/day22.rs:81 | placing never underflows `pos.2 - drop_by - 1` when every cube stays above z = 0 |
| Day22.PlaceBrick | examples/day22.rs:78-86 | the placing loop fills the space and collects `resting_on` |
| Day22.PlaceStops | examples/day22.rs:81 | once a cube underflows, placing the brick fails |
| Day22.SettleBrick | examples/day22.rs:70-86 | one brick of the loop is dropped, then placed |
| Day22.SettleNext | examples/day22.rs:69-90 | settling one more brick continues from the space the earlier bricks left |
| Day22.SettleSome | examples/day22.rs:69-90 | settling fails only when a brick lies at z = 0 |
| Day22.SettleBelow | examples/day22.rs:69-90 | every brick rests only on bricks settled before it, and the space names only settled bricks |
| Day22.RestIsOld | examples/day22.rs:81-85 | a brick found beneath was already in the space |
| Day22.UnsafeMeaning | examples/day22.rs:87-89 | a brick is unsafe exactly when some brick rests on it alone |
| Day22.Part1 | examples/day22.rs:62-92 | `do_part1` counts the bricks less those that are some brick's only support |
| Day22.UnsafeBricks | examples/day22.rs:66-90 | the settling loop collects exactly the bricks that are some brick's only support |
| Day22.SettleStops | examples/day22.rs:69-90 | once a brick fails to settle, the whole settling fails |
| Day22.SortedLength | examples/day22.rs:64 | sorting keeps the number of bricks |
| Day22.SortedBricks | examples/day22.rs:64 | `sort_by_key` permutes the bricks into ascending order of their lowest z |
| Day22.Part1Some | examples/day22.rs:62-92 | `do_part1` has an answer whenever every brick lies above z = 0 |
| Day22.Part1Counts | examples/day22.rs:62-92 | the answer is between 0 and the number of bricks: the bricks less those some brick rests on alone |
| Day22.UnsafeCard | examples/day22.rs:87-89 | each brick adds at most one unsafe brick |
| Day22.FallsUnique | examples/day22.rs:140-160 | which bricks fall is determined by what rests on what and the brick taken away |
| Day22.FallsAbove | examples/day22.rs:140-160 | when bricks rest only on earlier bricks, only later bricks fall, never one on the ground |
| Day22.RemoveBlock | examples/day22.rs:146-156 | one round of `chain_len` takes the brick out of every set, and exactly the bricks that rested on it alone fall, each once |
| Day22.ChainLen | examples/day22.rs:140-160 | `chain_len` counts exactly the bricks that fall when the brick is taken away: the least set closed under "everything it rests on has fallen or was taken away" |
| Day22.ChainStep | examples/day22.rs:145-157 | one round of `chain_len` keeps its invariant, counts each fallen brick once, and either some brick falls or the queue gets shorter |
| Day22.ChainFallen | examples/day22.rs:148-154 | a brick that falls in a round rested on something, and now only on the taken brick and on bricks that fell before |
| Day22.ChainLeast | examples/day22.rs:148-154 | the bricks fallen so far are in every closed set |
| Day22.ChainShrinks | examples/day22.rs:146-156 | a round shrinks the bricks still resting on something exactly when some brick falls |
| Day22.Supports | examples/day22.rs:112-134 | the settling loop of `do_part2` records what each brick rests on |
| Day22.Part2 | examples/day22.rs:107-138 | `do_part2` sums, over every brick, the number of bricks that fall when it is taken away |
| Day22.AllFallSnoc | examples/day22.rs:135-137 | one more brick adds its count of fallen bricks to the sum |
| Day22.Part2Meaning | examples/day22.rs:140-160 | in settled bricks, taking one away makes only bricks above it fall, never itself and never one on the ground |
| Day23.StandableInside | examples/day23.rs:72-78 | `get` gives a wall outside the grid, so a tile that can be stood on lies inside it and is read from the grid |
| Day23.ParseRow | examples/day23.rs:117-127 | a line parses exactly when every character is a tile, giving one tile per character; any other character panics |
| Day23.ParseShownRow | examples/day23.rs:97-111 | a row printed by `print` parses back to itself |
| Day23.ParseInput | examples/day23.rs:114-133 | `parse_input` gives one row per line, and fails exactly when some line does not parse |
| Day23.ClearedCells | examples/day23.rs:80-95 | clearing keeps the shape of the grid and every wall, and turns every other tile into plain path |
| Day23.ClearedIdempotent | examples/day23.rs:80-95 | clearing a cleared grid changes nothing |
| Day23.Data.ClearSlopes | examples/day23.rs:80-95 | `clear_slopes` clears the grid in place |
| Day23.DirOfNeighbours | examples/day23.rs:55-66 | the four neighbours are tried in the order up, left, right, down |
| Day23.CandidatesMeaning | examples/day23.rs:54-66 | the candidates are exactly the standable neighbours, in the order they are tried |
| Day23.CandidatesMembers | examples/day23.rs:54-66 | a neighbour is a candidate exactly when it can be stood on |
| Day23.CandidatesOrdered | examples/day23.rs:54-66 | the candidates come in the order the neighbours are tried |
| Day23.OrderedParts | examples/day23.rs:54-66 | at most one neighbour pushed per direction, in direction order, is in order |
| Day23.PartAt | examples/day23.rs:54-66 | each pushed neighbour lies in the direction of the check that pushed it |
| Day23.Unvisited | examples/day23.rs:67-69 | the filter keeps exactly the candidates off the path and not the last position |
| Day23.UnvisitedOrdered | examples/day23.rs:67-69 | the filter keeps the candidates in order |
| Day23.NextPos | examples/day23.rs:34-70 | `next_pos` panics exactly on a wall or on a slope pointing off the top or left edge; on a slope it offers the one downhill move; on plain path it offers exactly the standable neighbours off the path and not the last position, in order |
| Day23.ClearedFresh | examples/day23.rs:245-255 | on a cleared grid no move goes back onto the path |
| Day23.ClearedTarget | examples/day23.rs:199-201 | clearing keeps the target |
| Day23.AllTrackPush | examples/day23.rs:160-187 | pushing a state with the walk it stands for keeps every stacked state tracking its walk |
| Day23.AllTrackPop | examples/day23.rs:160 | popping a state leaves the rest tracking their walks, and the popped state tracks its own |
| Day23.WalkSimple | examples/day23.rs:170-183 | a walk never revisits a tile, so its state has one more tile on the path than steps taken, the current one among them |
| Day23.StartTracks | examples/day23.rs:150-157 | the start state is the walk of the start tile alone |
| Day23.Extend | examples/day23.rs:177-184 | taking a move `next_pos` offers, onto a new tile, extends the walk by that tile |
| Day23.AccountTarget | examples/day23.rs:161-164 | popping a walk at the target accounts for it in the maximum |
| Day23.ExtendCovers | examples/day23.rs:165-186 | a walk to the target that begins with a popped walk short of the target begins with one of the walks pushed for its moves |
| Day23.PrefixMove | examples/day23.rs:165-186 | the move a longer walk makes after a walk it begins with is one `next_pos` offers, onto a tile off the path |
| Day23.AccountExtend | examples/day23.rs:165-186 | after expanding a popped walk short of the target, every walk to the target it began begins with a stacked walk |
| Day23.AllTrackConcat | examples/day23.rs:160-187 | stacks of tracking states concatenate |
| Day23.MovesTrack | examples/day23.rs:177-184 | each pushed state is where its pushed walk has got to |
| Day23.MoveWalksPushed | examples/day23.rs:177-184 | every move onto a tile not on the path has its walk among the pushed ones |
| Day23.PushMoves | examples/day23.rs:165-186 | the pushing loops of `do_part1` push one new state per move onto a tile not yet on the path, in order |
| Day23.Part1 | examples/day23.rs:148-190 | `do_part1` panics without a target; otherwise no walk down the slopes to the target is longer than the answer, and a positive answer is the length of one |
| Day23.Part2 | examples/day23.rs:197-259 | `do_part2` panics without a target; a positive answer is the length of a walk to the target on the cleared grid |
| Day24.Checked | examples/day24.rs:283 | `checked_mul(…).unwrap()` gives the exact result, and panics exactly when it leaves `i128` |
| Day24.Quot | examples/day24.rs:248-249 | Rust's `/` rounds toward zero, so the quotient is no larger in magnitude than the dividend |
| Day24.ReducedUnique | examples/day24.rs:237-254 | a fraction in lowest terms with a positive denominator is the only such form of its value |
| Day24.CrossVal | examples/day24.rs:332-338 | two fractions have the same value exactly when their cross products agree |
| Day24.NormAsWritten | examples/day24.rs:237-254 | `norm` as written panics exactly when the numerator or denominator is `i128::MIN` |
| Day24.NormAsWrittenChangesValue | examples/day24.rs:245 | with magnitudes cast to 64 bits before the gcd, `norm` of (2^64 + 3) / 3 gives 6148914691236517206 / 1, a different value |
| Day24.Norm | examples/day24.rs:237-254 | `norm` with the gcd of the full magnitudes panics exactly where the source's does |
| Day24.NormMeaning | examples/day24.rs:237-254 | a normalised fraction has a positive denominator, the same value, and no common factor |
| Day24.PositiveNorm | examples/day24.rs:245-253 | dividing a fraction with a positive denominator by the gcd of its magnitudes leaves it in lowest terms with the same value |
| Day24.NormAgrees | examples/day24.rs:245 | the source's `norm` and the corrected one agree while both magnitudes fit 64 bits |
| Day24.From | examples/day24.rs:262-269 | `Rat::from` gives the integer over 1 |
| Day24.Recip | examples/day24.rs:230-235 | `recip` swaps numerator and denominator |
| Day24.NormVal | examples/day24.rs:237-254 | a normalised result of `num / den` has that value |
| Day24.MulValue | examples/day24.rs:279-290 | a product that does not panic has the product of the values |
| Day24.AddValue | examples/day24.rs:316-330 | a sum that does not panic has the sum of the values |
| Day24.SubValue | examples/day24.rs:301-315 | a difference that does not panic has the difference of the values |
| Day24.DivValue | examples/day24.rs:271-277 | a quotient that does not panic has the quotient of the values |
| Day24.EqMeaning | examples/day24.rs:332-338 | `==` on fractions holds exactly when the values are equal |
| Day24.IsPosMeaning | examples/day24.rs:256-259 | `is_pos` holds exactly when the value is positive |
| Day24.CmpMeaning | examples/day24.rs:340-352 | `partial_cmp` orders fractions by value |
| Day24.OnLine | examples/day24.rs:378-381 | a point of a non-vertical path lies on its line `y = m x + b`, at the time its X coordinate determines |
| Day24.LineAtTime | examples/day24.rs:388-393 | the line at `x` is where the stone is when it reaches `x` |
| Day24.SlopesDiffer | examples/day24.rs:398-401 | two non-vertical paths have equal slopes exactly when they are parallel |
| Day24.Crossing | examples/day24.rs:378-402 | two non-parallel, non-vertical paths meet at `x = (b2 - b1) / (m1 - m2)`, at the times it determines |
| Day24.CrossingUnique | examples/day24.rs:378-402 | they meet nowhere else |
| Day24.CrossesInsideAt | examples/day24.rs:402-425 | whether the paths cross inside the window comes down to the one crossing point |
| Day24.SlopeVal | examples/day24.rs:383-384 | the computed slope is `vy / vx` |
| Day24.InterceptVal | examples/day24.rs:392-393 | the computed intercept is the line's |
| Day24.LtMeaning | examples/day24.rs:360-364 | `<` against an integer compares values |
| Day24.GtMeaning | examples/day24.rs:360-364 | `>` against an integer compares values |
| Day24.OutsideMeaning | examples/day24.rs:404 | `x < c1 \|\| x > c2` holds exactly when the value lies outside the window |
| Day24.InPastMeaning | examples/day24.rs:416-417 | the time test holds exactly when the stone reaches `x` in the past |
| Day24.CrossingXVal | examples/day24.rs:402 | the computed `x` is `(b2 - b1) / (m1 - m2)` |
| Day24.FutureMeaning | examples/day24.rs:416-428 | the time tests pass exactly when both stones reach `x` at nonnegative times |
| Day24.InsideAtMeaning | examples/day24.rs:404-428 | the tests after the crossing pass exactly when the crossing lies in the window on both axes at nonnegative times |
| Day24.YValue | examples/day24.rs:409 | `m1 * x + b1` is where the first stone is when it reaches `x` |
| Day24.YInsideMeaning | examples/day24.rs:409-428 | the Y and time tests pass exactly when the crossing's Y lies in the window at nonnegative times |
| Day24.WillCollideMeaning | examples/day24.rs:377-429 | for stones that move in X, `will_collide` holds exactly when the paths are not parallel and cross inside the window at nonnegative times |
| Day24.LineVal | examples/day24.rs:383-393 | the slope and intercept computed for a non-vertical path are those of its line |
| Day24.DecideMeaning | examples/day24.rs:398-428 | given the lines, the test holds exactly when the paths are not parallel and cross inside the window at nonnegative times |
| Day24.WillCollideSymmetric | examples/day24.rs:377-429 | the answer does not depend on which stone comes first |
| Day24.Part1 | examples/day24.rs:211-221 | `do_part1` counts the pairs with `will_collide` on the window |
| Day24.CountPairs | examples/day24.rs:212-220 | the loops of `do_part1` test every pair `j < i` once, row by row, and the first panic ends the count |
| Day24.RowPanics | examples/day24.rs:214-218 | a panic in a row ends the row's count |
| Day24.PairPanics | examples/day24.rs:213-219 | a panic in a row ends the whole count |
| Day24.RowCountIsCard | examples/day24.rs:214-218 | a row's count is the number of its colliding partners |
| Day24.PairCountIsCard | examples/day24.rs:211-221 | a count that did not panic is the number of colliding pairs |
| Day24.CollidingSplit | examples/day24.rs:213-219 | the pairs below `n` are those below `n - 1` and the row of `n - 1` |
| Day24.PairCountPanics | examples/day24.rs:211-221 | the count panics exactly when some pair's test does |
| Day24.RowPanicsAt | examples/day24.rs:214-218 | a row panics exactly when the test of one of its pairs does |
| Day25.OrDisjoint | examples/day25.rs:14 | or-ing a value shifted left by `k` bits with one below 2^k is their sum |
| Day25.EdgeEncFields | examples/day25.rs:12-18 | for ids below 2^32 `edge_enc` ignores the order of its ends and holds the smaller id in the high 32 bits and the larger in the low 32 |
| Day25.EdgeEncInjective | examples/day25.rs:12-18 | two links between ids below 2^32 share a code only when they join the same two nodes |
| Day25.WalkSnoc | examples/day25.rs:40-47 | a walk followed by a link that is not ignored is again a walk |
| Day25.ClosedHoldsWalks | examples/day25.rs:37-49 | any set that holds the start and is closed under following links holds every node a walk reaches |
| Day25.ReachedNamed | examples/day25.rs:39 | a node reached from node 0 is node 0 or the target of some link |
| Day25.GroupIsCut | examples/day25.rs:33-51 | no link that is not ignored leaves node 0's group |
| Day25.PushedMeaning | examples/day25.rs:40-48 | a link is pushed exactly when its edge is not ignored and its node has not been visited |
| Day25.PushedStale | examples/day25.rs:45-46 | the pushed nodes are unvisited, so they add no already-visited entries to the stack |
| Day25.Visit | examples/day25.rs:40-48 | the inner loop leaves the stack extended by exactly the pushed links, in order |
| Day25.DfsStep | examples/day25.rs:37-48 | one turn of the loop keeps the search invariant: visited and stacked nodes are reachable, and visited nodes whose links are pushed |
| Day25.DfsProgress | examples/day25.rs:37-48 | each turn visits a new node or drops an already-visited one from the stack, so the loop ends |
| Day25.DfsStart | examples/day25.rs:34-35 | the search starts with nothing visited and node 0 on the stack |
| Day25.DfsDone | examples/day25.rs:37-50 | when the stack empties, the visited nodes are exactly node 0's group and no node of it lacks a link list |
| Day25.GroupSize | examples/day25.rs:33-51 | `group_size` panics exactly when a node reachable from 0 has no link list, and otherwise returns the size of node 0's group in the graph without the ignored links |
| Day25.Shortest | examples/day25.rs:89-106 | while layer `d` is expanded, any walk of at most `d` links from `n1` ends at a routed node whose route is no longer |
| Day25.ExpandNode | examples/day25.rs:91-104 | expanding one node returns its route plus `n2` when `n2` is a new link, and otherwise routes and queues each new link |
| Day25.BfsStep | examples/day25.rs:91-104 | expanding the next queued node keeps the breadth-first invariant |
| Day25.RoutesFromStep | examples/day25.rs:93-99 | every stored route is a walk from `n1` to its node, also after an expansion |
| Day25.LayeredStep | examples/day25.rs:99-101 | after an expansion the queued nodes are still the routed nodes of the next layer |
| Day25.SettledStep | examples/day25.rs:91-104 | after expanding a node of the current layer every link of it has a route |
| Day25.ExpandedKept | examples/day25.rs:99 | adding routes for new nodes keeps an expanded node expanded |
| Day25.BfsLayer | examples/day25.rs:105 | a finished layer hands the queued nodes on as the next layer |
| Day25.BfsDone | examples/day25.rs:89-107 | when the queue empties, no walk leads from `n1` to a different `n2` |
| Day25.FoundIsShortest | examples/day25.rs:94-97 | the route returned for `n2` is a walk from `n1` to `n2` no longer than any other |
| Day25.RoutedNamed | examples/day25.rs:99 | routed nodes are `n1` or the target of some link |
| Day25.Layer | examples/day25.rs:89-106 | one layer either stops with a found route or a panic meeting `route`'s promise, or routes strictly more nodes and keeps the invariant |
| Day25.BfsStart | examples/day25.rs:83-87 | the search starts with `n1` routed by itself and queued |
| Day25.Route | examples/day25.rs:82-108 | `route` returns a shortest walk from `n1` to `n2`, `None` exactly when `n1 == n2` or `n2` cannot be reached, and panics only on a reachable node without a link list |
| Day25.ForwardMeaning | examples/day25.rs:24-28 | one node contributes exactly the codes of its links to larger ids |
| Day25.EdgeListMeaning | examples/day25.rs:21-31 | the list holds exactly the codes of links from a node to a larger id |
| Day25.EdgesCoverLinks | examples/day25.rs:21-31 | when links are listed both ways, every link between two different nodes has its code in the list |
| Day25.Edges | examples/day25.rs:21-31 | `Data::edges` builds exactly that list |
| Day25.FindFrom | examples/day25.rs:131 | the first index at or after `i` where the separator occurs, or none when it does not occur again |
| Day25.SplitOnce | examples/day25.rs:131 | `split_once` splits at the first occurrence, and the parts joined by the separator give back the line |
| Day25.Builder.GetId | examples/day25.rs:111-122 | a known name keeps its id and changes nothing; a new name gets the next id, an entry in the name map and an empty link list |
| Day25.DedupSpec | examples/day25.rs:111-122 | the first-appearance list of a name sequence holds each of its names exactly once and no other |
| Day25.DedupSnoc | examples/day25.rs:112-120 | meeting a name appends it to the first-appearance list exactly when it has not been met |
| Day25.NameStep | examples/day25.rs:111-122 | `get_id` keeps `names` equal to the names in order of first appearance |
| Day25.LinksNewName | examples/day25.rs:116-119 | a new name with an empty link list adds no link, so every link still comes from some line |
| Day25.LinksLink | examples/day25.rs:137-138 | linking two nodes that a line links, both ways, keeps every link traced to a line |
| Day25.TokensSnoc | examples/day25.rs:130-135 | reading one more line appends its source and then its destinations to the names met |
| Day25.Builder.Link | examples/day25.rs:137-138 | each of the two nodes gets the other appended to its links and nothing else changes |
| Day25.RecordedKept | examples/day25.rs:130-140 | a link recorded between two names stays recorded as the tables grow |
| Day25.GrowsTransitive | examples/day25.rs:130-140 | growing the tables twice is growing them once |
| Day25.AddDest | examples/day25.rs:136-138 | one destination leaves the tables grown and the two names linked, keeps the names in first-appearance order and adds only a link some line states |
| Day25.AddDests | examples/day25.rs:135-139 | the inner loop links the source to every name after the colon, in first-appearance order, adding only links some line states |
| Day25.AddLine | examples/day25.rs:131-139 | one line links its source to every name after the colon; the names become those met so far in first-appearance order and every link comes from a line |
| Day25.LinesRecordedStep | examples/day25.rs:130-140 | handling the next line extends the lines whose links are all recorded |
| Day25.ConnectedFromLines | examples/day25.rs:130-140 | when every listed link comes from a line, two names are connected only if some line links them |
| Day25.LinesConnected | examples/day25.rs:130-140 | two names that some line links are connected, in either order |
| Day25.BuiltData | examples/day25.rs:142-144 | the built tables are well formed, link every source to each of its destinations, and connect two names exactly when some line links them, so they hold no other link |
| Day25.ParseInput | examples/day25.rs:125-145 | `parse_input` panics exactly when some line lacks `": "`; otherwise it returns well-formed data linking every source to each destination both ways, whose names are the names of the input in order of first appearance (source before destinations, line by line), and each of whose links joins two names that some line links; two names are connected exactly when some line links them |
| Day25.ZeroInGroup | examples/day25.rs:35-38 | node 0 is always in its own group |
| Day25.GroupBounds | examples/day25.rs:50 | for well-formed data a group size is between one and the number of names |
| Day25.BumpCounts | examples/day25.rs:165 | counting an edge adds one to its count and leaves the others alone |
| Day25.BumpEdges | examples/day25.rs:165 | the histogram gains an entry for the counted edge and loses none |
| Day25.BumpDistinct | examples/day25.rs:165 | the histogram keeps one entry per edge |
| Day25.PathEdges | examples/day25.rs:161-164 | a route of `n` nodes uses `n - 1` links |
| Day25.AddAllCounts | examples/day25.rs:161-166 | counting a list of edges adds each edge's number of occurrences and keeps one entry per edge |
| Day25.HistCounts | examples/day25.rs:158-169 | the histogram holds one entry per edge with the number of times the routes use it |
| Day25.CountRoute | examples/day25.rs:161-166 | the inner loop counts the links of one route |
| Day25.Probe | examples/day25.rs:179-181 | one trial panics, reports a cut of the group's size, or finds the graph whole, as `group_size` decides |
| Day25.ScanKDone | examples/day25.rs:177-184 | an answer from the innermost loop comes from a splitting triple |
| Day25.ScanJDone | examples/day25.rs:175-186 | an answer from the middle loop comes from a splitting triple |
| Day25.ScanIDone | examples/day25.rs:173-188 | an answer from the triple loop comes from a splitting triple of the first `m` entries |
| Day25.SplitMeaning | examples/day25.rs:179-181 | a splitting triple cuts well-formed data into two nonempty parts that no remaining link joins, and the answer is the product of their sizes |
| Day25.Search | examples/day25.rs:172-189 | the triple loop returns the first split in its order, and panics when it indexes past the histogram or runs out of triples |
| Day25.AllShortestMeaning | examples/day25.rs:158-160 | each route found is a shortest walk from `i` to `i + n/2` |
| Day25.HistSnoc | examples/day25.rs:161-166 | the histogram of one more route is the old one with that route's links counted |
| Day25.LongEnough | examples/day25.rs:160-161 | a route between different nodes has at least two nodes, so `p.len() - 1` does not wrap |
| Day25.RoutesStep | examples/day25.rs:158-167 | one more shortest route keeps all routes shortest |
| Day25.ByCountOrders | examples/day25.rs:170 | ordering entries by falling count is a total preorder |
| Day25.SortedHistogram | examples/day25.rs:168-170 | the sorted histogram is a permutation of the entries in falling order of count |
| Day25.NextRoute | examples/day25.rs:159-160 | the route from `i` to `i + n/2` is a shortest one, or unwrapping it panics |
| Day25.CountedStep | examples/day25.rs:158-167 | counting one more route keeps the histogram equal to that of the routes so far |
| Day25.CountRoutes | examples/day25.rs:158-167 | the first loop finds shortest routes for each `i < n/4` with their histogram, or stops at the first route that panics |
| Day25.Part1 | examples/day25.rs:147-190 | `do_part1` panics when a route panics, and otherwise searches the triples of the histogram sorted by falling count among the first `edges.len()` entries |

## Left out

- `examples/day6.rs` is not part of this model: its answers come from floating-point square roots and rounding.
- File and console I/O is not modelled: `get_input`, `get_input_str`, every `main`, the `timeit!` macro, and the printing helpers (`print_dot`, `do_print`, `Display`). The solvers take already-read text or records as parameters.
- Where a width is modelled, overflow follows a debug build of the source, in which Rust checks overflow. There an overflowing shift panics (day 13), as does `abs` of `i128::MIN` (day 24), and the model returns `None` or `Panic` for them. A release build would wrap instead; that wrapping is not modelled.
- Regex matching inside `regex_parser!` is a foreign crate. The records those parsers produce are parameters of the models.
- Unimplemented `part2`s (`unimplemented!()` or `todo!()`) are not modelled: days 2, 9, 10, 12, 14, 16 and 17, and `do_part2` of day 25.
- Day 8's `part2` is modelled only as the `lcm` fold over repeat lengths. Whether that is the puzzle's answer rests on input geometry the source does not check.
- Day 20's `part2` and day 21's `part2` (`count_start_from` and the extrapolation around it) are left out. Both rest on unstated input geometry.
- Day 24's floating-point part is left out: `PosF`, `Pos::cross`, `Pos::len`, `Stone::dist` and `do_part2`.
- `find_group` and `print_dot` of day 25 are left out: only progress printing uses them. The model of `do_part1` follows its search loop up to its return; running out of triples is the `todo!()` panic.
- `HashMap` and `HashSet` iteration order is a parameter wherever the result depends on it: the symbol map of day 3, the start nodes of day 8, the node keys of day 25.
- Day25.Part1: the histogram entries keep the order of first use before the stable sort, where the source starts from the `HashMap`'s order. Entries with equal counts may therefore be tried in another order.
- Loops that may run forever in the source take a `fuel` bound, and running out of fuel is an outcome of its own. This covers the map chain of day 5, the walks of days 8 and 10, the priority-queue search of day 17, the workflows of day 19, the pulse queue of day 20 and the depth-first searches of day 23. The lemmas say what the answer is whenever the fuel suffices.
- Day15.Step: the 256 boxes are a value that each step returns, not a table updated in place. Aliasing of the boxes plays no part in the source.
- Input text is taken as ASCII, one character per byte, as `seq<char>`. Where the source mixes byte offsets and characters, the multi-byte case is not modelled. `examples/day1.rs:51` slices `line[i..]` at every byte offset, which panics inside a multi-byte character; Day1.ScanLine never panics. `examples/day13.rs:136` takes the row width as the byte `len()`, while `make_row` (`examples/day13.rs:122`) shifts once per `char`. Days 3 (`examples/day3.rs:27`), 10 (`examples/day10.rs:66`) and 17 (`examples/day17.rs:9`) read `as_bytes()`, which is the same thing on ASCII text. Day 15 works on bytes (`seq<Byte>`).
- Day15.ParseUsize: a focal length of any number of digits parses, where `usize::from_str` (`examples/day15.rs:52`) fails on values of 2^64 or more.
- Integers are unbounded except where a width is modelled (listed above). Other `usize` sums and products are taken as exact.
- Day12.CountMatches: the `as u32` casts of the run total and the counts are taken as exact, so totals of 2^32 or more are not modelled.
- Sample answers from the tests are proved only in part. Whole samples are proved for days 2, 4, 8 (the first network) and 9, and the second `part2` sample of day 18. Single lines or fields are proved for days 1, 13 and 15. The other samples need the regex parsers or a long search. Day 18's first sample (62 and 952408144115) is among them: its fourteen digs would need the whole scan and sweep unfolded.
- Day17.Part1: only soundness is proved. A finite answer is the heat lost on a real route; that no route loses less is not proved.
- Day19.Part2: the boxes are proved non-empty and inside the default box, and, when only last rules are unconditional, to hold only accepted parts. That the boxes cover every accepted part exactly once is proved only for one workflow's rule loop (Day19.PushedAllSplits), not across the whole queue.
- Day23.Part2: only soundness is proved. A positive answer is the length of a real walk on the cleared grid; that no walk is longer is not proved.
- Day18.Part2: proved equal to the row sweep it performs (Day18.Part2Spec), and to 9 on the second sample (Day18.SquarePart2). That it agrees with `part1`'s count on every plan is not proved.
- Day18.SweepRows: the sweep is proved to be the fold of its rows; that the rows between two swept rows have the inside count of the row above is not proved against `part1`.
- Day18.SweepRowLoop: the checks after the row (`examples/day18.rs:308-310`) are modelled as failures; which plans never fail them is not proved.
- Day24.WillCollideMeaning: stated over the corrected `norm` (see "Findings"), and only for two stones with nonzero x velocity. A stone moving only along y is not covered.
- Day24.Norm: stated over the corrected `norm` (see "Findings"), not the source's 64-bit one. The two agree while both magnitudes fit 64 bits (Day24.NormAgrees); beyond that the source's results are not modelled.
- Day24.NormVal: stated over the corrected `norm` (see "Findings"), not the source's 64-bit one. The two agree while both magnitudes fit 64 bits (Day24.NormAgrees); beyond that the source's results are not modelled.
- Day24.MulValue: stated over the corrected `norm` (see "Findings"), not the source's 64-bit one. The two agree while both magnitudes fit 64 bits (Day24.NormAgrees); beyond that the source's results are not modelled.
- Day24.AddValue: stated over the corrected `norm` (see "Findings"), not the source's 64-bit one. The two agree while both magnitudes fit 64 bits (Day24.NormAgrees); beyond that the source's results are not modelled.
- Day24.SubValue: stated over the corrected `norm` (see "Findings"), not the source's 64-bit one. The two agree while both magnitudes fit 64 bits (Day24.NormAgrees); beyond that the source's results are not modelled.
- Day24.DivValue: stated over the corrected `norm` (see "Findings"), not the source's 64-bit one. The two agree while both magnitudes fit 64 bits (Day24.NormAgrees); beyond that the source's results are not modelled.
- Day24.EqMeaning: stated over the corrected `norm` (see "Findings"), not the source's 64-bit one. The two agree while both magnitudes fit 64 bits (Day24.NormAgrees); beyond that the source's results are not modelled.
- Day24.IsPosMeaning: stated over the corrected `norm` (see "Findings"), not the source's 64-bit one. The two agree while both magnitudes fit 64 bits (Day24.NormAgrees); beyond that the source's results are not modelled.
- Day24.CmpMeaning: stated over the corrected `norm` (see "Findings"), not the source's 64-bit one. The two agree while both magnitudes fit 64 bits (Day24.NormAgrees); beyond that the source's results are not modelled.
- Day24.SlopeVal: stated over the corrected `norm` (see "Findings"), not the source's 64-bit one. The two agree while both magnitudes fit 64 bits (Day24.NormAgrees); beyond that the source's results are not modelled.
- Day24.InterceptVal: stated over the corrected `norm` (see "Findings"), not the source's 64-bit one. The two agree while both magnitudes fit 64 bits (Day24.NormAgrees); beyond that the source's results are not modelled.
- Day24.LineVal: stated over the corrected `norm` (see "Findings"), not the source's 64-bit one. The two agree while both magnitudes fit 64 bits (Day24.NormAgrees); beyond that the source's results are not modelled.
- Day24.CrossingXVal: stated over the corrected `norm` (see "Findings"), not the source's 64-bit one. The two agree while both magnitudes fit 64 bits (Day24.NormAgrees); beyond that the source's results are not modelled.
- Day24.YValue: stated over the corrected `norm` (see "Findings"), not the source's 64-bit one. The two agree while both magnitudes fit 64 bits (Day24.NormAgrees); beyond that the source's results are not modelled.
- Day24.LtMeaning: stated over the corrected `norm` (see "Findings"), not the source's 64-bit one. The two agree while both magnitudes fit 64 bits (Day24.NormAgrees); beyond that the source's results are not modelled.
- Day24.GtMeaning: stated over the corrected `norm` (see "Findings"), not the source's 64-bit one. The two agree while both magnitudes fit 64 bits (Day24.NormAgrees); beyond that the source's results are not modelled.
- Day24.OutsideMeaning: stated over the corrected `norm` (see "Findings"), not the source's 64-bit one. The two agree while both magnitudes fit 64 bits (Day24.NormAgrees); beyond that the source's results are not modelled.
- Day24.InPastMeaning: stated over the corrected `norm` (see "Findings"), not the source's 64-bit one. The two agree while both magnitudes fit 64 bits (Day24.NormAgrees); beyond that the source's results are not modelled.
- Day24.FutureMeaning: stated over the corrected `norm` (see "Findings"), not the source's 64-bit one. The two agree while both magnitudes fit 64 bits (Day24.NormAgrees); beyond that the source's results are not modelled.
- Day24.InsideAtMeaning: stated over the corrected `norm` (see "Findings"), not the source's 64-bit one. The two agree while both magnitudes fit 64 bits (Day24.NormAgrees); beyond that the source's results are not modelled.
- Day24.YInsideMeaning: stated over the corrected `norm` (see "Findings"), not the source's 64-bit one. The two agree while both magnitudes fit 64 bits (Day24.NormAgrees); beyond that the source's results are not modelled.
- Day24.DecideMeaning: stated over the corrected `norm` (see "Findings"), not the source's 64-bit one. The two agree while both magnitudes fit 64 bits (Day24.NormAgrees); beyond that the source's results are not modelled.
- Day24.WillCollideSymmetric: stated over the corrected `norm` (see "Findings"), not the source's 64-bit one. The two agree while both magnitudes fit 64 bits (Day24.NormAgrees); beyond that the source's results are not modelled.
- Day24.Part1: stated over the corrected `norm` (see "Findings"), not the source's 64-bit one. The two agree while both magnitudes fit 64 bits (Day24.NormAgrees); beyond that the source's results are not modelled.
- Day24.CountPairs: stated over the corrected `norm` (see "Findings"), not the source's 64-bit one. The two agree while both magnitudes fit 64 bits (Day24.NormAgrees); beyond that the source's results are not modelled.
- Day24.PairCountIsCard: stated over the corrected `norm` (see "Findings"), not the source's 64-bit one. The two agree while both magnitudes fit 64 bits (Day24.NormAgrees); beyond that the source's results are not modelled.
- Day24.PairCountPanics: stated over the corrected `norm` (see "Findings"), not the source's 64-bit one. The two agree while both magnitudes fit 64 bits (Day24.NormAgrees); beyond that the source's results are not modelled.

## Findings

| source | as written | input that shows it | evidently intended | confidence | as-written member | corrected member |
|---|---|---|---|---|---|---|
| examples/day24.rs:237-254 | `norm` casts the numerator's and denominator's magnitudes to `usize` (64 bits) before taking their gcd, so an `i128` magnitude of 2^64 or more is truncated and the fraction is divided by the wrong number | `Rat(2^64 + 3, 3)` normalises to `6148914691236517206 / 1`, which is not its value | divide by the gcd of the full magnitudes, keeping the value | high, not executed | Day24.NormAsWrittenChangesValue | Day24.NormMeaning |
