# Advent of Code 2025, days 1 to 10, in Dafny

This project models the puzzle solvers of a Rust Advent of Code 2025 workspace: the ten
`src/days/day_N.rs` modules (one Dafny module `Day1` … `Day10` each) and the two helpers of
`src/main.rs` that do more than I/O, `parse_day` and `format_duration` (module `Cli`). Each
solver takes the whole puzzle input as text and answers a number or an error message; the model
keeps that shape and proves what each answer means against an independent reference
definition.

Shared pieces live in three small modules: `Common` (the `Option`/`Result` wrappers, decimal
digits, Rust's unsigned integer parsing, `str::lines`, `str::split`, and a first-failure
parse of a list), `Sorting` (a stable insertion sort by key, which stands for `sort_by`) and
`IndexPairs` (the enumeration of index pairs i < j used by days 8 and 9).

How the Rust program is rendered:

- A panic (`unwrap` on a bad number, an `unreachable!`, an out-of-range index the input can
  cause) becomes an `Err` result, so every error path is part of a contract.
- Where the Rust code would loop for ever on some inputs, the model states the inputs on which
  it stops as a precondition (listed under "Left out").
- Objects whose methods update fields in place are classes: day 8's `DistanceQueue` (a binary
  heap over a vector) and `Graph`. Loops of the source are `while`/`for` loops with invariants,
  each method proved against a specification function.
- Day 8 orders pairs of junction boxes by the squared integer distance instead of the `f64`
  Euclidean distance. The two orders agree while coordinates stay below 2^25: each `powi(2)`
  and the sum of three squares are then exact in an `f64` (below 2^52), and the square root
  keeps distinct sums apart. Larger coordinates are outside the model (see "Left out").
- Day 10's light and button masks are natural numbers below 2^16 with the bit operations
  written arithmetically (shift, or, exclusive or, bit test).
- Integers are unbounded; the few widths that matter (a `u8` day, a `u16` rotation, the `u16`
  masks) are bounded explicitly.

## Model

| member | source | states |
|---|---|---|
| Day1.DirectionFrom | src/days/day_1.rs:9-19 | only 'R' and 'L' name a direction, R for 'R'; any other character is an error (the panic) |
| Day1.Sign | src/days/day_1.rs:21-28 | the sign is -1 exactly for L and +1 for R |
| Day1.ParseRotation | src/days/day_1.rs:42-50 | a line is read only when its first character is a direction and the rest is a u16; an empty line or a bad direction is an error |
| Day1.ParseRotationText | src/days/day_1.rs:42-50 | a rotation written out reads back as itself exactly when its value fits a u16 |
| Day1.TurnIsFlooredMod | src/days/day_1.rs:52-69 | from a position in 0..99 the hand-written wrap-around lands on (position + sign·value) mod 100, floored, again in 0..99 |
| Day1.TurnRight | src/days/day_1.rs:52-59 | a right turn lands on (position + value) mod 100 |
| Day1.TurnLeft | src/days/day_1.rs:52-66 | a left turn lands on (position − value) mod 100, floored |
| Day1.PositionsOnDial | src/days/day_1.rs:57-69 | every position the dial takes is in 0..99 |
| Day1.LandingsFoldCounts | src/days/day_1.rs:38-72 | the fold of star_one fails exactly when some line is not a rotation, and otherwise adds the number of positions equal to 0 |
| Day1.StarOneCountsZeroLandings | src/days/day_1.rs:31-75 | star_one, starting at 50, counts the rotations after which the dial is at 0, and fails exactly on a bad line |
| Day1.ZeroClicksUp | src/days/day_1.rs:102-127 | turning right k clicks from p passes 0 exactly (p + k) / 100 times |
| Day1.ZeroClicksDown | src/days/day_1.rs:128-141 | turning left k clicks from a non-zero p passes 0 once at click p and then every 100 clicks |
| Day1.ZeroClicksDownFromZero | src/days/day_1.rs:128-141 | turning left k clicks from 0 passes 0 exactly k / 100 times (the start does not count) |
| Day1.ClickTurnCountsZeroClicks | src/days/day_1.rs:102-144 | star_two's step (value / 100 plus the extra click for landing on 0, passing 99 or passing 0 from a non-zero position) counts exactly the clicks that point at 0, and moves the dial like star_one's step |
| Day1.ClicksFoldCounts | src/days/day_1.rs:84-153 | the fold of star_two fails exactly when some line is not a rotation, and otherwise adds the clicks pointing at 0 over all rotations |
| Day1.StarTwoCountsZeroClicks | src/days/day_1.rs:77-158 | star_two, starting at 50, counts every click over all rotations that leaves the dial at 0, and fails exactly on a bad line |
| Day1.LandingsAreClicks | src/days/day_1.rs:71-71 | with non-zero values, star_one's count is at most star_two's (every landing on 0 is a click on 0) |
| Day2.ParseRangeSpec | src/days/day_2.rs:6-11 | a parsed range's bounds are the u128 values of the first two '-'-separated parts; a piece without '-' is an error |
| Day2.ParseRangeText | src/days/day_2.rs:6-11 | a range written "start-end" reads back as itself when both bounds fit a u128 |
| Day2.HalvesEqualIsSquare | src/days/day_2_regex_impl.rs:16-21 | part one's test holds exactly when the text is a non-empty word written twice, the meaning of `^(\d+)\1$` |
| Day2.RepeatedBlockIsPower | src/days/day_2_regex_impl.rs:48-49 | part two's test holds exactly when the text is a non-empty word written two or more times, the meaning of `^(\d+)\1+$` |
| Day2.HalvesEqualRepeats | src/days/day_2.rs:19-19 | every id part one counts is counted by part two, since half the length is among the block lengths tried |
| Day2.ChunksMatchFirst | src/days/day_2.rs:23-36 | the chunk loop answers true exactly when every chunk from the given index on equals the first chunk |
| Day2.DoubledCheck | src/days/day_2.rs:14-41 | part one's per-id check holds exactly when the decimal text has even length and equal halves |
| Day2.RepeatedCheck | src/days/day_2.rs:60-86 | part two's per-id check holds exactly when some block length from 1 to half the length divides it and every block equals the first; a match adds the id once |
| Day2.SumDoubled | src/days/day_2.rs:13-42 | the fold over start..=end adds exactly the ids part one counts |
| Day2.SumRepeated | src/days/day_2.rs:59-87 | the fold over start..=end adds exactly the ids part two counts |
| Day2.StarOne | src/days/day_2.rs:2-46 | star_one fails exactly when a piece is not a range, and otherwise sums the doubled ids of every range |
| Day2.StarTwo | src/days/day_2.rs:48-91 | star_two fails exactly when a piece is not a range, and otherwise sums the repeated-block ids of every range |
| Day2.StarOneAtMostStarTwo | src/days/day_2.rs:19-19 | over any ranges, part one's answer never exceeds part two's |
| Day2.SingleDigitsValid | src/days/day_2.rs:62-62 | a one-digit id is counted by neither part |
| Day3.FirstMaxIsFirstMax | src/days/day_3.rs:21-28 | the scan's index holds a largest value of its window and every earlier position holds strictly less (the strict `>` keeps the first occurrence) |
| Day3.BestStart | src/days/day_3.rs:17-30 | the best start is inside a non-empty bank and, when count ≤ length, leaves room for count − 1 more batteries after it |
| Day3.GetBestStart | src/days/day_3.rs:17-30 | get_best_start's loop returns the first position of a largest value among those that leave count − 1 batteries after them |
| Day3.GreedyLength | src/days/day_3.rs:7-13 | a bank with at least count batteries gets exactly count of them switched on |
| Day3.BankJoltageBound | src/days/day_3.rs:7-14 | the joltage read from count switched-on digits is below 10^count |
| Day3.GreedyIsPick | src/days/day_3.rs:7-13 | the switched-on batteries sit at strictly increasing indices inside the bank |
| Day3.GreedyIsBest | src/days/day_3.rs:2-15 | no choice of count batteries kept in order reads as a larger number than get_bank_joltage's (greedy optimality) |
| Day3.GetBankJoltage | src/days/day_3.rs:2-15 | get_bank_joltage's loop reads the greedy choice of digits as one number, most significant first |
| Day3.BankOfSpec | src/days/day_3.rs:35-37 | read from the characters: one value per UTF-8 byte of the line, and the subtraction fails exactly when some character lies below '0' (every byte of a multi-byte character is 0x80 or above) |
| Day3.DigitLineBank | src/days/day_3.rs:35-37 | a line of ASCII decimal digits gives one value per character, the digit values in order |
| Day3.SumBankJoltages | src/days/day_3.rs:34-40 | the fold over the lines adds every bank's greedy joltage and stops at the first line that is not a bank |
| Day3.StarOne | src/days/day_3.rs:33-41 | star_one sums the 2-battery joltage of every line |
| Day3.StarTwo | src/days/day_3.rs:44-52 | star_two sums the 12-battery joltage of every line |
| Day4.FromGrid | src/days/day_4.rs:28-71 | Room::from's loop over the characters gives exactly the room (or the panic) that the scan of the text defines |
| Day4.ScanPrefixSpec | src/days/day_4.rs:36-60 | the scan succeeds exactly on texts of '.', '@', '\n' and '\r' whose complete rows all have the first row's length, and then it has read the text's rows and cells |
| Day4.AlignedLength | src/days/day_4.rs:38-47 | aligned rows hold the first row's width for every complete row, plus the unchecked last row |
| Day4.RoomOfSpec | src/days/day_4.rs:28-71 | Room::from succeeds exactly when every character is allowed, complete rows are aligned and there is a line break; the room is then the cells ('@' true, '.' false, '\r' ignored), the first row's width, and one row per line break plus one |
| Day4.RoomCellCount | src/days/day_4.rs:35-46 | the room holds exactly width × height cells exactly when the last row is as long as the first (a trailing line break leaves an empty last row) |
| Day4.RowsOfCount | src/days/day_4.rs:35-46 | the row count is one more than the number of line breaks |
| Day4.GetYXOfIndex | src/days/day_4.rs:73-81 | get_yx undoes get_index on every column of a row |
| Day4.GetIndexOfYX | src/days/day_4.rs:73-81 | get_index undoes get_yx on every spot |
| Day4.SpotInGrid | src/days/day_4.rs:77-81 | a spot below width × height lies on one of the first height rows |
| Day4.IndexInGrid | src/days/day_4.rs:73-75 | a row and column inside width × height give a spot below width × height |
| Day4.SlotFor | src/days/day_4.rs:92-116 | each of the eight non-zero offsets has its own slot in get_neighbors' order |
| Day4.GetNeighbors | src/days/day_4.rs:83-119 | get_neighbors' loops fill the eight slots with the spot at each offset, leaving a slot empty where the offset crosses the top row, the row the height calls the bottom one, or a side |
| Day4.NeighborSound | src/days/day_4.rs:83-119 | every spot get_neighbors names is different from the spot and at most one row and one column away |
| Day4.NeighborsDistinct | src/days/day_4.rs:83-119 | no spot is named in two slots |
| Day4.NeighborComplete | src/days/day_4.rs:83-119 | every spot below width × height next to the given one is named in some slot |
| Day4.RectangularIsSound | src/days/day_4.rs:83-119 | when the room holds exactly width × height cells, no slot names a spot past the last cell, so no lookup panics |
| Day4.CheckedRollsInSpec | src/days/day_4.rs:129-137 | the per-roll sum over the slots panics (index out of bounds) exactly when some slot names a spot past the last cell, and otherwise counts the slots naming a roll |
| Day4.RollsInSet | src/days/day_4.rs:129-137 | summing over slots that name no spot twice counts each neighbouring roll once |
| Day4.RollNeighborsCount | src/days/day_4.rs:128-137 | when the cells reach no further than width × height, the per-roll sum over get_neighbors' slots is the number of rolls next to the spot |
| Day4.JudgeSpot | src/days/day_4.rs:127-139 | judging one roll panics exactly when one of its lookups falls past the last cell, and otherwise finds it reachable exactly when fewer than four of its slots name rolls |
| Day4.ReachableSpotsMembers | src/days/day_4.rs:149-167 | star_two's filter_map lists exactly the reachable rolls, once each and in increasing order |
| Day4.ReachableFoldSpec | src/days/day_4.rs:126-141 | star_one's fold panics exactly when judging some roll looks past the last cell (or divides by a zero width), and otherwise counts the reachable rolls |
| Day4.ReachableCountSpec | src/days/day_4.rs:124-142 | in a room whose cells reach no further than width × height, star_one counts the rolls with fewer than four rolls among the spots next to them |
| Day4.StarOne | src/days/day_4.rs:124-142 | star_one fails exactly when Room::from does or when judging a roll looks past the last cell, and otherwise answers the number of reachable rolls |
| Day4.TrailingBreakSound | src/days/day_4.rs:35-47 | a text ending in a line break gives a room whose cells fill one row fewer than its height, and its lookups panic exactly when the last row of cells holds a roll |
| Day4.TrailingBreakExample | src/days/day_4.rs:28-71 | the text "..\n@@\n" is read as four cells of width 2 and height 3, and its rolls look below the last cell |
| Day4.IntendedExample | src/days/day_4.rs:124-142 | read as intended, "..\n@@\n" is a 2 × 2 room in which both rolls are reachable, so part one answers 2 |
| Day4.IntendedRoomSound | src/days/day_4.rs:35-47 | with the trailing line break closing the last row, a text of equal rows gives a room of exactly width × height cells, nothing panics, and part one counts the rolls with fewer than four neighbouring rolls |
| Day4.Round | src/days/day_4.rs:149-175 | one round of removal keeps the room's shape |
| Day4.RoundSound | src/days/day_4.rs:148-175 | a round keeps the lookups panic-free: the slots depend only on the room's shape and fewer rolls are judged |
| Day4.RoundCount | src/days/day_4.rs:149-176 | a round removes exactly as many rolls as star_one counts on the same room |
| Day4.SettleSpec | src/days/day_4.rs:148-177 | removal rounds end in a room of the same shape where no roll is reachable and every remaining roll was there at the start |
| Day4.RemovableSpots | src/days/day_4.rs:149-167 | the search panics exactly when some roll's lookup falls past the last cell, and otherwise lists exactly the reachable rolls of the room at the start of the round |
| Day4.ClearSpots | src/days/day_4.rs:173-175 | clearing sets exactly the listed spots to no roll and changes nothing else |
| Day4.ClearedIsRound | src/days/day_4.rs:149-175 | clearing the reachable rolls is one round |
| Day4.RemoveAll | src/days/day_4.rs:148-177 | the removal loop terminates (each continuing round lowers the roll count), panics exactly when the first round does, and otherwise the count removed is the rolls lost on the way to the settled room |
| Day4.StarTwo | src/days/day_4.rs:144-179 | star_two fails exactly when Room::from does or when the first round looks past the last cell, and otherwise answers the number of rolls removed until none is reachable |
| Day5.DigitRun | src/days/day_5.rs:10-26 | the leading run of a line is all digits, the rest starts with a non-digit (or is empty), and the two put together give back the line |
| Day5.EatNumber | src/days/day_5.rs:10-26 | eat_number's digit-by-digit loop gives the value of the leading digit run and the text after it |
| Day5.FromInput | src/days/day_5.rs:28-68 | StoreRoom::from's loop over the lines gives exactly the store room (or the panic) the line-by-line reading defines |
| Day5.RangeEntrySpec | src/days/day_5.rs:49-58 | reading a range line by digit runs accepts exactly the lines made of one or more digits, a '-' and zero or more digits (cut at the first '-'; an empty end reads as 0, so "5-" is the range 5..=0), with the same bounds |
| Day5.IdEntrySpec | src/days/day_5.rs:49-50 | reading an ingredient line accepts exactly the non-empty all-digit lines, with their value |
| Day5.FirstEmpty | src/days/day_5.rs:44-47 | the ranges section ends at the first empty line, and no line before it is empty |
| Day5.NonEmpty | src/days/day_5.rs:44-47 | empty lines are skipped and the others are kept in order |
| Day5.FromLinesIds | src/days/day_5.rs:60-64 | after the first empty line every non-empty line must be an ingredient id and they are appended in order |
| Day5.FromLinesRanges | src/days/day_5.rs:52-59 | before the first empty line every line must be a range; then the ingredient lines follow |
| Day5.StoreRoomSpec | src/days/day_5.rs:28-68 | StoreRoom::from succeeds exactly when every line before the first empty line is one or more digits, a '-' and zero or more digits, and every later non-empty line is all digits; the store room is then those ranges and ids in order |
| Day5.AnyContains | src/days/day_5.rs:80-82 | the `any` over the ranges holds exactly when some range contains the id |
| Day5.FreshCountSpec | src/days/day_5.rs:79-84 | star_one's fold counts the listed ingredients (with repeats) that some range contains |
| Day5.StarOne | src/days/day_5.rs:73-85 | star_one fails exactly when StoreRoom::from does, and otherwise answers the number of fresh ingredients |
| Day5.MergePush | src/days/day_5.rs:109-111 | pushing a range that starts after the last merged one ends keeps the merged ranges separated and covers the union |
| Day5.MergeExtend | src/days/day_5.rs:103-107 | extending the last merged range to a later end covers the union and keeps the ranges separated |
| Day5.MergeAbsorb | src/days/day_5.rs:103-104 | a range that ends inside the last merged one adds no ids |
| Day5.MergeRanges | src/days/day_5.rs:95-113 | merging ranges sorted by start gives ranges, each starting after the one before ends, that cover exactly the same ids |
| Day5.TotalFreshOk | src/days/day_5.rs:115-117 | the final fold's u64 subtraction succeeds exactly when no merged range is empty |
| Day5.IntervalSize | src/days/day_5.rs:116 | start..=end holds end - start + 1 ids |
| Day5.TotalFreshSpec | src/days/day_5.rs:115-117 | over separated ranges sorted by start, the sum of end - start + 1 is the number of ids covered |
| Day5.FreshIdsSnoc | src/days/day_5.rs:115-117 | a range after separated sorted ones adds its own ids and none already covered |
| Day5.FreshIdsReordered | src/days/day_5.rs:93 | sorting the ranges changes neither the ids covered nor whether any range is empty |
| Day5.StarTwo | src/days/day_5.rs:87-118 | star_two fails when StoreRoom::from does or there are no ranges, succeeds when every range is non-empty, and then answers the number of ids some range contains |
| Day6.OpOf | src/days/day_6.rs:9-19 | Op::from accepts exactly '*' (Mult) and '+' (Add) and panics on any other character |
| Day6.Solve | src/days/day_6.rs:37-49 | Column::solve's loop gives the product of the values (1 when there are none) for Mult and their sum (0 when there are none) for Add |
| Day6.TotalAppend | src/days/day_6.rs:81-94 | the worksheet total of two lists of columns side by side is the sum of their totals |
| Day6.SolveAll | src/days/day_6.rs:81-94 | Worksheet::solve is the sum of Column::solve over the columns |
| Day6.EatNumberSkipWhitespace | src/days/day_6.rs:98-118 | eat_number_skip_whitespace skips the leading whitespace (Unicode White_Space, as `char::is_whitespace`), reads the digit run after it, and returns the text from the first character after the run; no digits gives None |
| Day6.NextChar | src/days/day_6.rs:120-136 | the first character that is not Unicode whitespace and the text after it, or None and an empty rest when the text is all whitespace |
| Day6.EatNextCharSkipWhitespace | src/days/day_6.rs:120-136 | eat_next_char_skip_whitespace's search gives exactly that character and rest |
| Day6.LineStepShrinks | src/days/day_6.rs:149-166 | on a line of whitespace, digits and operators, every round of the line loop consumes at least one character |
| Day6.ScanLineHalts | src/days/day_6.rs:149-166 | the line loop ends on every line made only of whitespace, digits and operators |
| Day6.ScanLineUnfold | src/days/day_6.rs:149-166 | the reading of a line is its first round's token followed by the reading of the rest |
| Day6.ReadToken | src/days/day_6.rs:151-166 | one round reads an operator when the rest of the line holds one and a number otherwise |
| Day6.ReadLine | src/days/day_6.rs:144-167 | the line loop pushes the line's operators and numbers in order and counts its tokens, or panics on a bad operator |
| Day6.BuildColumns | src/days/day_6.rs:184-196 | the column loops build one column per token with the operator in the same place and deal each number to its column |
| Day6.HumanFrom | src/days/day_6.rs:138-201 | HumanWorksheet::from gives exactly the columns (or the panic) that reading every line and dealing the numbers defines |
| Day6.ColumnLengthStep | src/days/day_6.rs:192-196 | one more number raises the length of exactly the column it falls to |
| Day6.ColumnValuesLength | src/days/day_6.rs:192-196 | column c of w holds one number for each index that leaves c over on division by w |
| Day6.ColumnValuesAt | src/days/day_6.rs:192-196 | number k is at place k / w of column k % w |
| Day6.ScanLinesSpec | src/days/day_6.rs:144-177 | the loop over the lines succeeds exactly when every line reads to its end with the token count of the line before, and then gathers every operator and number in order |
| Day6.NoTokensNoNumbers | src/days/day_6.rs:144-177 | a worksheet whose lines hold no tokens holds no numbers |
| Day6.HumanOfOk | src/days/day_6.rs:138-201 | HumanWorksheet::from succeeds exactly when there is a line, every line reads to its end with the same token count, and there are at least that many operators |
| Day6.AssembleShape | src/days/day_6.rs:184-196 | the assembled columns are one per token, column i with the i-th operator and the numbers that fall to it |
| Day6.AssembleLengths | src/days/day_6.rs:192-196 | every assembled column holds the count of indices that fall to it |
| Day6.AssembleDealt | src/days/day_6.rs:192-196 | number k of the assembled worksheet sits at place k / w of column k % w |
| Day6.HumanOfSheet | src/days/day_6.rs:138-201 | on success the line loop gathers every operator and number in order and the columns are assembled from them |
| Day6.HumanOfColumns | src/days/day_6.rs:169-196 | on success there is one column per token of a line; column c has the c-th operator and number k goes to place k / w of column k % w |
| Day6.StarOne | src/days/day_6.rs:340-344 | star_one fails exactly when HumanWorksheet::from does, and otherwise answers the worksheet total |
| Day7.RowColOf | src/days/day_7.rs:27-29 | RowCol::from puts character n in a column below the width, with row × width + column == n |
| Day7.PlaceFirstRow | src/days/day_7.rs:14-21 | before the width is known, a first-row character is placed where the width would later put it |
| Day7.PlaceKnown | src/days/day_7.rs:14-17 | once the width is known, from_optional_width places as RowCol::from does |
| Day7.Cells | src/days/day_7.rs:56-77 | the characters the fold counts are the ones that are not line breaks |
| Day7.FirstBreak | src/days/day_7.rs:57-60 | the width is fixed at the first line break, with no break before it |
| Day7.ParsePrefixSnoc | src/days/day_7.rs:56-77 | the fold over one more character is one more step, or the earlier panic |
| Day7.ParsePrefixFails | src/days/day_7.rs:56-77 | once the fold panics, the rest of the text does not undo it |
| Day7.FromInput | src/days/day_7.rs:53-97 | TachyonManifold::from's fold gives exactly the manifold (or the panic) the character-by-character reading defines |
| Day7.SplittersFirstRow | src/days/day_7.rs:57-60 | splitters read before the first line break are where the width it fixes puts them |
| Day7.ParseBreak | src/days/day_7.rs:57-62 | a line break fixes the width the first time and is not counted |
| Day7.ParseCell | src/days/day_7.rs:64-76 | any other character is counted and recorded as the start or a splitter, or the fold panics for a named reason |
| Day7.ReadCell | src/days/day_7.rs:64-76 | a cell is recorded, or the fold panics on a second 'S' or a zero width |
| Day7.TroubleGrows | src/days/day_7.rs:56-77 | a reason to panic stays a reason when more text follows |
| Day7.ParsePrefixSpec | src/days/day_7.rs:56-77 | the fold either reads the text (cells counted, first-row width, splitters, the only 'S') or panics for a named reason |
| Day7.FirstRowCells | src/days/day_7.rs:95 | a grid with a line break has at least as many cells as its first row |
| Day7.ManifoldOfSpec | src/days/day_7.rs:53-97 | TachyonManifold::from succeeds exactly when there is one 'S', a line break and a non-empty first row; the width is then the first row's length, the height the cells divided by it (at least one), the splitters are at the '^' cells and the one beam is at the 'S' |
| Day7.ManifoldOfWellFormed | src/days/day_7.rs:53-97 | a parsed manifold has a non-empty grid and one beam inside the width |
| Day7.Advance | src/days/day_7.rs:112-131 | one beam: nothing from the bottom row; the in-grid cells left and right of a splitter below it, counting a split; or one row down |
| Day7.Step | src/days/day_7.rs:99-145 | step moves every beam at once, keeps splitters, width and height, counts the beams that split and reports whether any beam was above the bottom row |
| Day7.StepSpec | src/days/day_7.rs:110-142 | after a step every beam lies in the next row inside the width, the splits are at most the beams before, and the loop continues exactly when some beam was above the bottom row (which is then not the last row) |
| Day7.SplitsAreSplitters | src/days/day_7.rs:119-127 | the splits of a step are the splitters directly below a beam, each counted once |
| Day7.TotalSplitsBound | src/days/day_7.rs:237-250 | star_one counts at most as many splits as there are splitters below the start |
| Day7.CountSplits | src/days/day_7.rs:240-248 | star_one's loop terminates (the beams' row rises by one per step) and adds up the splits of every step |
| Day7.CountingStep | src/days/day_7.rs:241-247 | one round of star_one's loop takes its splits off what is left to count |
| Day7.TotalSplitsUnfold | src/days/day_7.rs:240-248 | the total from a row is this step's splits plus the total from the next row while the loop continues |
| Day7.OneStart | src/days/day_7.rs:80-85 | a parsed manifold has exactly one beam, at the start |
| Day7.StarOne | src/days/day_7.rs:237-250 | star_one fails exactly when TachyonManifold::from does, and otherwise answers the splits counted from the start row |
| Day7.QuantumFrom | src/days/day_7.rs:150-161 | QuantumTachyonManifold::from keeps the grid and takes one of the beams, and panics when there is none |
| Day7.StepQuantumlySpec | src/days/day_7.rs:163-211 | step_quantumly gives JobsDone exactly on the bottom row and Split exactly above a splitter; its timelines are the beams step would leave (left None at column 0, right None at the last column), one timeline each, over the same grid |
| Day7.QuantumSplitsNone | src/days/day_7.rs:163-211 | a timeline with no splitter below it never splits |
| Day7.SumSplitsAppend | src/days/day_7.rs:268-281 | the splits still to come of two lists of timelines add up |
| Day7.QuantumStep | src/days/day_7.rs:163-211 | one step of a timeline accounts for its split, if any, plus the splits of its children, each in the next row |
| Day7.StepUniverses | src/days/day_7.rs:268-281 | star_two's inner loop moves every timeline to the next row and adds one universe per split, keeping universes counted plus splits to come |
| Day7.CountUniverses | src/days/day_7.rs:253-283 | star_two's outer loop terminates and answers 1 plus every split across all timelines |
| Day7.StarTwo | src/days/day_7.rs:252-284 | star_two fails exactly when TachyonManifold::from does, and otherwise answers 1 plus the splits of every timeline from the start |
| Day8.ExtractPoint | src/days/day_8.rs:29-46 | extract_point consumes some text when it succeeds, and fails on a text with no digit (the three numbers must all be present) |
| Day8.EatShrinks | src/days/day_8.rs:3-23 | reading a number never lengthens the text, and reading one shortens it |
| Day8.NoDigitsNoNumber | src/days/day_8.rs:3-23 | with no digit in the text, eat_number_skip_charset finds no number |
| Day8.EatDecimal | src/days/day_8.rs:3-23 | charset characters are skipped only before the first digit, and a decimal number followed by a non-digit is read back whole |
| Day8.ExtractPointText | src/days/day_8.rs:29-46 | a point written "x,y,z" after skipped characters is read back, with the text after it left |
| Day8.PointsRoundTrip | src/days/day_8.rs:318-326 | reading the lines "x,y,z" of a list of points gives the list back |
| Day8.TrailingLineBreakRejected | src/days/day_8.rs:322-326 | a line break after the last point makes the reader look for one more point and panic |
| Day8.ParsePoints | src/days/day_8.rs:319-326 | the reading loop of Graph::from extracts points until no text is left, or panics as extract_point does |
| Day8.ParentIdx | src/days/day_8.rs:94-99 | parent_idx(0) is 0, and any other slot's parent is a smaller slot of which it is one of the two children |
| Day8.ChildrenIdxs | src/days/day_8.rs:101-103 | the two child slots are adjacent, after the slot, and have it as their parent |
| Day8.HeapRootMin | src/days/day_8.rs:82-86 | in a min-heap the root is no farther than any entry |
| Day8.SiftUpStep | src/days/day_8.rs:120-124 | swapping a slot with a strictly farther parent moves the sift up to the parent |
| Day8.SiftUpSettled | src/days/day_8.rs:120 | the sift up stops below a parent that is no farther, and the heap order is restored |
| Day8.SiftDownStep | src/days/day_8.rs:210-273 | swapping a slot with its nearer, strictly nearer child moves the sift down to that child |
| Day8.SiftDownSettled | src/days/day_8.rs:242-277 | the sift down stops when no child is strictly nearer, and the heap order is restored |
| Day8.DistanceQueue.WithCapacity | src/days/day_8.rs:90-92 | with_capacity gives an empty heap; the capacity is only a hint |
| Day8.DistanceQueue.SwapIdx | src/days/day_8.rs:105-109 | swap_idx exchanges two slots and keeps the entries |
| Day8.DistanceQueue.Enqueue | src/days/day_8.rs:111-126 | enqueue adds exactly the new entry, keeps the min-heap order and returns the slot the entry ends in |
| Day8.DistanceQueue.Peek | src/days/day_8.rs:128-135 | peek is None exactly on an empty queue, and otherwise an entry no farther than any other |
| Day8.DistanceQueue.ConfirmTreeIsHeapCheck | src/days/day_8.rs:137-179 | confirm_tree from the root passes exactly when every slot is no farther than the children it has |
| Day8.DistanceQueue.Dequeue | src/days/day_8.rs:181-282 | dequeue returns what peek would; on an empty queue it changes nothing, otherwise it removes exactly that entry, which is no farther than any other, and keeps the heap order |
| Day8.DistanceQueue.SiftDownOnce | src/days/day_8.rs:205-279 | one round of the sift-down loop swaps with the nearer strictly nearer child and moves down, or stops on a heap |
| Day8.DistanceQueue.NearerChild | src/days/day_8.rs:206-278 | the branches over the children that exist pick a strictly nearer child, the nearer of the two when both are, and find none only when every existing child is no nearer than the slot |
| Day8.DistanceQueue.SiftDown | src/days/day_8.rs:204-280 | the sift-down loop restores the heap order and keeps the entries |
| Day8.AliveSizes | src/days/day_8.rs:485-492 | one size per live circuit, adding up to the points the live circuits hold |
| Day8.InsertAll | src/days/day_8.rs:428-430 | the insertion loop adds exactly the dead circuit's points |
| Day8.Remap | src/days/day_8.rs:438-440 | the remapping loop maps exactly the given points to the new circuit and leaves the others alone |
| Day8.CircuitsPartition | src/days/day_8.rs:410-440 | the live circuits partition the points: p lies in live circuit c exactly when circuits_map sends p to c |
| Day8.InitialSums | src/days/day_8.rs:358-368 | at the start every point is alone in a live circuit: n live circuits holding n points and no connection |
| Day8.MergeValid | src/days/day_8.rs:418-440 | merging two different live circuits keeps the bookkeeping valid, removes exactly one live circuit, adds one connection and keeps every point |
| Day8.ReconnectValid | src/days/day_8.rs:413-416 | a pair already in one circuit adds one connection to that circuit and changes nothing else |
| Day8.AllJoinedOneAlive | src/days/day_8.rs:513-524 | when every two points share a circuit, exactly one circuit is alive |
| Day8.OneAliveAllConnected | src/days/day_8.rs:512-524 | exactly one live circuit remains exactly when the connections made join every point |
| Day8.ConnectValid | src/days/day_8.rs:401-444 | taking the nearest pair off the queue and joining its circuits keeps the graph's invariant, joins its two points, and lowers the live circuits by one exactly when they were apart |
| Day8.Graph.FromPoints | src/days/day_8.rs:328-370 | Graph::from queues each pair p1 < p2 once and puts every point in a live circuit of its own, with circuits_map[i] = i; no connection has been made yet |
| Day8.InitialHistory | src/days/day_8.rs:358-370 | before any connection each point is joined to itself alone, the queue holds every pair, and circuit i holds point i |
| Day8.QueueAllPairs | src/days/day_8.rs:334-356 | the nested loops queue exactly the entries of all pairs p1 < p2 |
| Day8.EnqueueRow | src/days/day_8.rs:337-354 | the inner loop queues the pairs of row p1 with every later p2 |
| Day8.Graph.MergeInto | src/days/day_8.rs:418-440 | the merge kills circuit c2, hands its points and connections (plus one) to c1 and maps its points to c1 |
| Day8.Graph.AddConnection | src/days/day_8.rs:401-444 | add_connection returns None and changes nothing on an empty queue; otherwise it takes the nearest pair off the queue, records it as the latest connection, returns it, joins its two points and removes one live circuit exactly when they were apart |
| Day8.ConnectStep | src/days/day_8.rs:401-444 | taking the nearest queued pair keeps the whole invariant once its circuits are joined and it is appended to the connections, with one connection more, and both its points are in live circuits |
| Day8.Graph.Connect | src/days/day_8.rs:410-442 | joining the two points of a dequeued pair sets the circuits to their join and circuits_map to the merged map, counts and records the pair, and so reaches the state whose invariant (connections nearest first, circuits exactly the groups they join) the caller established |
| Day8.Graph.JoinCircuits | src/days/day_8.rs:410-440 | inside one circuit only its connection count grows; otherwise the second circuit merges into the first |
| Day8.ConnectHistory | src/days/day_8.rs:401-444 | appending the nearest queued pair to the connections made keeps them nearest first, keeps history and queue together equal to all pairs, and keeps circuits equal to the groups they join |
| Day8.NearestFirstAfter | src/days/day_8.rs:181-197 | taking an entry no farther than any queued one keeps the connections in non-decreasing distance and none farther than a pair still queued |
| Day8.ConnectedAfter | src/days/day_8.rs:410-440 | after merging the pair's circuits, two points share a circuit exactly when a walk along the connections made, the new one included, joins them |
| Day8.PathKeeps | src/days/day_8.rs:410-440 | a labelling that every connection respects is the same at both ends of any walk along connections |
| Day8.LiveIdsSpec | src/days/day_8.rs:485-492 | the live circuits listed in circuit order, each once, beside the size star_one collects for it |
| Day8.LiveIdsIncreasing | src/days/day_8.rs:485-492 | the live circuits are listed in strictly increasing circuit order, so each once |
| Day8.LiveIdsComplete | src/days/day_8.rs:485-492 | every live circuit is listed |
| Day8.CircuitsAreComponents | src/days/day_8.rs:485-492 | the live circuits stand one for each group the connections made join, and their sizes are those groups' sizes |
| Day8.HistoryIsNearestPairs | src/days/day_8.rs:401-408 | the connections made are pairs p1 < p2, none twice, in non-decreasing distance, with no pair left out nearer than one taken |
| Day8.TopThreeLargest | src/days/day_8.rs:493-498 | star_one's product takes min(3, n) of the live sizes, and no size left out is larger than one taken |
| Day8.StarOne | src/days/day_8.rs:448-501 | star_one fails exactly when the points do not parse; otherwise, for some nearest-first choice of the first 10 (20 points) or 1000 pairs, it answers the product of the three largest sizes of the groups those pairs join |
| Day8.LargestCircuitsProduct | src/days/day_8.rs:450-500 | with enough pairs queued, star_one answers the product of the three largest live circuit sizes after the target number of connections, which is the product of the three largest sizes of the groups the nearest pairs join |
| Day8.ConnectNearest | src/days/day_8.rs:451-482 | the loop makes connections until the live circuits hold 10 (20 points) or 1000, keeping the graph invariant |
| Day8.StarOneAnswer | src/days/day_8.rs:484-498 | in a valid state the product of the three largest live sizes is the product of the three largest group sizes of the connections made, which are nearest first |
| Day8.DrainedAllJoined | src/days/day_8.rs:505-529 | once the queue is drained every pair has been joined, so one circuit is alive |
| Day8.StarTwo | src/days/day_8.rs:503-531 | star_two fails exactly when the points do not parse or there are fewer than two; otherwise, for some nearest-first choice of pairs, the pairs join all points into one group while all but the last do not, and the answer is the product of the last pair's x coordinates |
| Day8.LastJoinProduct | src/days/day_8.rs:505-530 | star_two panics exactly when there are fewer than two points; otherwise the last pair joins every point into one group while the pairs before it did not, and the answer is the product of its x coordinates |
| Day8.StarTwoAnswer | src/days/day_8.rs:512-529 | once one circuit is alive the connections made, nearest first, join every point, and without the last of them they did not |
| Day9.PointOfText | src/days/day_9.rs:15-20 | Point::from reads back a point written "x,y" exactly when both coordinates fit a usize |
| Day9.PointOfNoComma | src/days/day_9.rs:15-20 | a line without a comma has no y, and Point::from panics |
| Day9.At | src/days/day_9.rs:39-47 | one pair of points for each index pair, in the same order |
| Day9.RowPairsSnoc | src/days/day_9.rs:42-44 | each round of the inner loop pushes (points[i], points[i+1+m]) |
| Day9.GetPairs | src/days/day_9.rs:39-47 | get_pairs pushes (points[i], points[j]) for every i < j, in the order of the nested loops |
| Day9.RowsUpToStep | src/days/day_9.rs:41-45 | each round of the outer loop appends row i of the pairs |
| Day9.AreaPositive | src/days/day_9.rs:55-57 | every rectangle covers at least one tile |
| Day9.Areas | src/days/day_9.rs:54-57 | the area of every pair (x distance plus one times y distance plus one), in order |
| Day9.MaxOfSpec | src/days/day_9.rs:53-61 | the running maximum bounds every value and, for a non-empty sequence, is one of them |
| Day9.MaxOfSnoc | src/days/day_9.rs:58-60 | one more value replaces the maximum only when it is strictly larger |
| Day9.StarOneSpec | src/days/day_9.rs:51-63 | no pair spans a larger rectangle than star_one's answer; with two points or more some pair spans it, and with fewer the answer is 0 |
| Day9.LargestArea | src/days/day_9.rs:53-61 | the loop over the pairs keeps the largest area |
| Day9.StarOne | src/days/day_9.rs:51-63 | star_one fails exactly when Floor::from does, and otherwise answers the largest area over all pairs |
| Day9.ExtremesExist | src/days/day_9.rs:79-82 | a finite non-empty set has a point with the least key and one with the largest |
| Day9.BoundsOf | src/days/day_9.rs:73-89 | Bounds::from refuses exactly the empty set; every point lies within the bounds and each bound is some point's coordinate |
| Day9.SegmentSpec | src/days/day_9.rs:117-154 | for two tiles on one axis, the tiles marked are exactly those strictly between them (never an end), each sharing a line with both ends, whichever end comes first |
| Day9.MarkedStep | src/days/day_9.rs:132-136 | marking one more tile is one more map insertion with both red ends |
| Day9.MarkColumn | src/days/day_9.rs:125-138 | the vertical loop marks the tiles (x, y) for lo <= y < hi, each with both ends |
| Day9.MarkRow | src/days/day_9.rs:139-153 | the horizontal loop marks the tiles (x, y) for lo <= x < hi, each with both ends |
| Day9.ConnectPoints | src/days/day_9.rs:117-154 | connect_points panics exactly when the tiles do not share exactly one axis, and otherwise marks exactly the tiles strictly between them, each recorded with both ends |
| Day9.GetRedPtKindSpec | src/days/day_9.rs:156-208 | get_red_pt_kind panics exactly when the tile before is not on one axis with it or the path runs straight on; otherwise it gives the corner its two arms make, whichever way the loop runs |
| Day9.UnionOfSpec | src/days/day_9.rs:255-260 | a tile is in the union exactly when it is in one of the sets |
| Day9.GreenOfSpec | src/days/day_9.rs:255-260 | a tile is green exactly when it lies on the segment ending at some red tile, the closing segment included |
| Day9.RecordedSpec | src/days/day_9.rs:262-281 | the recorded tiles are the tiles inserted, each with the kind of its last insertion |
| Day9.CornerKinds | src/days/day_9.rs:263-281 | each red tile's kind is what get_red_pt_kind gives from its cyclic predecessor and successor |
| Day9.FirstTilesAll | src/days/day_9.rs:254-259 | the set built tile by tile holds exactly the red tiles |
| Day9.ClosedLoopFrom | src/days/day_9.rs:255-260 | a loop is closed when each tile after the first is on one axis with the one before, and the last with the first |
| Day9.GreenClose | src/days/day_9.rs:255-260 | the segments after the first, then the closing one, are all the segments |
| Day9.ConnectAll | src/days/day_9.rs:247-260 | the first half of ChristmasFloor::from panics exactly when the loop is not closed, and otherwise gives the red tiles and the green tiles of every segment |
| Day9.CornerKindsUnique | src/days/day_9.rs:263-281 | the kinds found in loop order are the corner kinds |
| Day9.RecordKinds | src/days/day_9.rs:262-281 | the corner loop panics exactly when some tile has no kind, and otherwise records each red tile's kind |
| Day9.KindedIffTurns | src/days/day_9.rs:156-208 | on a closed loop, every tile has a kind exactly when the loop turns at every red tile |
| Day9.ChristmasFloorFrom | src/days/day_9.rs:244-301 | ChristmasFloor::from panics exactly when there is no point, the loop is not closed or it runs straight on somewhere; otherwise it keeps the points, their set, the green tiles of every segment and each red tile's corner kind |
| Day10.ShrAll | src/days/day_10.rs:257-262 | sixteen right shifts empty any u16 |
| Day10.OrBit | src/days/day_10.rs:41 | the bits of a OR b are those of a and those of b |
| Day10.XorBit | src/days/day_10.rs:91 | the bits of a XOR b are those set in exactly one of a and b |
| Day10.OrBound | src/days/day_10.rs:40-42 | a OR b of two u16 values is a u16 |
| Day10.XorBound | src/days/day_10.rs:91 | a XOR b of two u16 values is a u16 |
| Day10.Pow2Bit | src/days/day_10.rs:41 | `1 << k` has bit k and no other |
| Day10.BitsEqual | src/days/day_10.rs:22-43 | two masks with the same bits are equal |
| Day10.ShiftInBits | src/days/day_10.rs:22-30 | shifting a u16 left by one and adding 0 or 1 moves every bit up by one, bit 15 falling off, and puts the addend in bit 0 |
| Day10.IndicatorMask | src/days/day_10.rs:22-30 | the desired-state fold gives a u16 |
| Day10.IndicatorMaskBit | src/days/day_10.rs:22-30 | bit i of the desired state is set exactly when the i-th indicator is '#' |
| Day10.IndicatorMaskHead | src/days/day_10.rs:22-30 | the first indicator lands in bit 0 and the others one bit higher |
| Day10.ButtonMaskOk | src/days/day_10.rs:36-43 | a button decodes exactly when every listed index parses as a u16 below 16 (a larger shift overflows) |
| Day10.ButtonMaskBit | src/days/day_10.rs:40-42 | a decoded button mask has exactly the listed indices as its bits |
| Day10.ButtonMaskStep | src/days/day_10.rs:40-42 | each step of the fold adds the bit of its index to the mask of the earlier ones |
| Day10.ButtonMaskBound | src/days/day_10.rs:32-43 | a decoded button mask is a u16, non-zero when it lists an index |
| Day10.NonEmpty | src/days/day_10.rs:35 | the empty pieces of the button list are dropped, the others kept in order |
| Day10.ButtonMasksBound | src/days/day_10.rs:32-43 | every decoded button is a non-zero u16 |
| Day10.Padded | src/days/day_10.rs:46-51 | sixteen counters: the listed requirements, then zeros |
| Day10.JoltageFrom | src/days/day_10.rs:45-53 | the requirement loop succeeds exactly when every value is a u8 and there are at most sixteen; counter i is then the i-th value (zeros after) and max_joltage_depth their sum |
| Day10.RequirementStep | src/days/day_10.rs:49-52 | storing the next value at its index and adding it to the total extends both |
| Day10.RequirementTotalBound | src/days/day_10.rs:45-53 | sixteen u8 requirements add up to at most 16 × 255, so the usize total never overflows |
| Day10.ByteSumBound | src/days/day_10.rs:52 | a sum of u8 values is at most 255 per value |
| Day10.MachineFrom | src/days/day_10.rs:13-62 | Machine::from succeeds exactly when the buttons and the requirements decode, reporting the buttons' error first; the machine then has the indicator mask, the button masks, the padded requirements and their total, and is well formed |
| Day10.XorPeel | src/days/day_10.rs:91 | pressing a button twice toggles back |
| Day10.IndicatorPathMeaning | src/days/day_10.rs:69-110 | a path of the indicator search presses buttons of the machine that XOR to the state, never the one just pressed, and passes through pairwise different states none in the memo |
| Day10.ReachesCons | src/days/day_10.rs:84-98 | one allowed press followed by a path is a path |
| Day10.CoversSkip | src/days/day_10.rs:87-94 | a button the search skips (the one just pressed, or a state already in the memo) starts no path |
| Day10.PathHead | src/days/day_10.rs:80-98 | a path from a lit state starts with an allowed press |
| Day10.CoversPress | src/days/day_10.rs:96-107 | after the nested call, the best so far matches every path it could improve on |
| Day10.IndicatorSearch | src/days/day_10.rs:69-110 | depth 10 and a bound at or below the depth give usize::MAX and a state of 0 gives the depth; overall a nested call returns usize::MAX or at most the bound it was given; a depth it returns is reached by a path; every path shorter than the bound and the depth limit is matched; it fails (`min.unwrap()` on None) exactly when no call finds a match and the first pressable button at every level leads, within the depth limit, to a state with no pressable button |
| Day10.SearchButtons | src/days/day_10.rs:84-109 | the loop over the buttons keeps a bound the nested calls only lower, returns a depth some path reaches, matches every path that could improve on the bound, and fails exactly when no bound was found and the search stalls |
| Day10.MinIndicatorPresses | src/days/day_10.rs:64-66 | a result other than usize::MAX is below 10, and some sequence of that many presses, never the same button twice in a row, XORs to the desired state; no shorter search path exists; it fails exactly when the search from the desired state stalls |
| Day10.Pressed | src/days/day_10.rs:195-208 | a press leaves sixteen counters |
| Day10.PressButton | src/days/day_10.rs:190-212 | the shift loop over a button accepts the press exactly when no counter it bumps passes its requirement, and then bumps each wired counter by one |
| Day10.JoltagePathCounts | src/days/day_10.rs:175-225 | a path of the joltage search presses buttons of the machine, and counter by counter the start value plus the presses that bump it is exactly the requirement |
| Day10.CountsJoltagePath | src/days/day_10.rs:175-225 | conversely, presses of non-zero buttons that bring every counter exactly to its requirement are a search path |
| Day10.JoltagePathHead | src/days/day_10.rs:186-212 | a path from a state short of the requirement starts with a press that fits |
| Day10.JoltageReachesCons | src/days/day_10.rs:190-214 | one fitting press followed by a path is a path |
| Day10.JoltageCoversSkip | src/days/day_10.rs:210-212 | a press that does not fit starts no path |
| Day10.JoltageCoversPress | src/days/day_10.rs:214-222 | after the nested call, the best so far matches every path it could improve on |
| Day10.JoltageSearch | src/days/day_10.rs:175-225 | a nested call returns usize::MAX or at most the bound it was given; a depth it returns is reached by valid presses; every path below the depth bound that could improve is matched |
| Day10.Zeros | src/days/day_10.rs:171 | the search starts from sixteen zero counters |
| Day10.MinJoltagePresses | src/days/day_10.rs:170-172 | a finite result r is below max_joltage_depth / 10 and r presses reach exactly the requirement vector; no shorter press sequence below the bound does |
| Day10.BitsBelow | src/days/day_10.rs:257-264 | the count of bits below n is at most n |
| Day10.BitsBelowStable | src/days/day_10.rs:259-262 | once the shifted mask is 0, no higher bit adds to the count |
| Day10.CountBitsInNum | src/days/day_10.rs:257-264 | count_bits_in_num's loop returns the number of set bits of a u16, at most 16 |
| Cli.ParseDay | src/main.rs:27-33 | parse_day answers a day from 1 to 25, or one of its two error messages |
| Cli.ParseDayMeaning | src/main.rs:27-33 | a day is accepted exactly when the text is a u8 from 1 to 25 (the range 1..26 excludes 26), and it is that number; a text that is no u8 is "Not a valid number" |
| Cli.ParseDayDecimal | src/main.rs:27-33 | every number from 1 to 25 written in decimal is accepted as itself, 0 and 26 to 255 are out of range, and anything past a u8 is not a number |
| Cli.Hours | src/main.rs:38 | the hours field is below 24 |
| Cli.Minutes | src/main.rs:39 | the minutes field is below 60 |
| Cli.Seconds | src/main.rs:40 | the seconds field is below 60 |
| Cli.Nanos | src/main.rs:42 | the nanoseconds field is below 10^9 |
| Cli.ClockFields | src/main.rs:36-42 | ((h·60 + m)·60 + s)·10^9 + ns is the duration in nanoseconds modulo one day |
| Cli.TwoDigits | src/main.rs:51 | `{:02}` writes a number below 100 as two digits |
| Cli.TwoDigitsValue | src/main.rs:51 | the two digits read back as the number |
| Cli.Reverse | src/main.rs:47-49 | the text written back to front, character by character |
| Cli.CommaAfterTriples | src/main.rs:48-49 | the replacement adds one comma per complete group of three |
| Cli.CommaAfterTriplesShape | src/main.rs:48-49 | after the replacement a comma sits exactly at every fourth place from the front, and removing the commas gives the input back |
| Cli.NoCommas | src/main.rs:47-49 | removing commas from a text that has none leaves it as it is |
| Cli.RemoveCommasAppend | src/main.rs:47-49 | removing commas works piece by piece |
| Cli.RemoveCommasReverse | src/main.rs:47-49 | removing commas commutes with writing back to front |
| Cli.ReverseAppend | src/main.rs:47-49 | a concatenation written back to front is its pieces back to front in the other order |
| Cli.ReverseReverse | src/main.rs:47-49 | writing back to front twice gives the text back |
| Cli.NanoTextDigits | src/main.rs:47-49 | without its commas the nanoseconds text is the decimal digits of the nanoseconds |
| Cli.NanoTextCommas | src/main.rs:47-49 | counted from the right a comma precedes every group of three digits (also at the very front when the digit count is a multiple of three) and stands nowhere else |
| Cli.CommasFromTheRight | src/main.rs:47-49 | commas every fourth place from the front become commas every fourth place from the back when the text is turned around |
| Cli.FormatDuration | src/main.rs:35-52 | the duration text is at least the fixed "HH:MM:SS " and " nanos" long |
| Cli.DurationLayout | src/main.rs:51 | where the pieces of the formatted text sit |
| Cli.FormatDurationReadsBack | src/main.rs:35-52 | the text reads back as two-digit hours, minutes and seconds separated by ':', a space, the grouped nanoseconds whose digits are the nanoseconds, and " nanos" |
| Common.DigitsValueSnoc | src/days/day_5.rs:13-16 | reading one more digit turns the value v into v × 10 + digit, the step of every digit-eating loop |
| Common.DecimalString | src/days/day_2.rs:19-20 | `to_string` of an unsigned number is digits only, with no leading zero |
| Common.DecimalStringRoundTrip | src/days/day_2.rs:19-20 | the digits of `to_string` read back as the number |
| Common.ParseUnsigned | src/days/day_10.rs:50 | `parse::<uN>` accepts an optional '+' and then one or more digits whose value fits the type, and gives that value |
| Common.ParseDecimalString | src/main.rs:28 | a number written in decimal parses back as itself exactly when it fits the type |
| Common.Split | src/days/day_10.rs:48 | `split` gives at least one piece and no piece holds the separator |
| Common.SplitJoin | src/days/day_10.rs:48 | joining the pieces of `split` with the separator gives the text back |
| Common.Lines | src/days/day_5.rs:29 | `lines` gives no line holding a line break, and none only for an empty text |
| Common.LinesOfJoined | src/days/day_5.rs:29 | lines each written with a "\n" after it are read back by `lines` |
| Common.ParseEachSpec | src/days/day_9.rs:33 | mapping a parser over lines succeeds exactly when every line parses, and then line by line |
| Common.EatNumberSkippingRuns | src/days/day_8.rs:3-23 | the skip-then-read scan shared by days 6 and 8 gives the value of the digit run after the skipped run (None when there is no digit) and the text from the first character after it |
| Common.Utf8 | src/days/day_3.rs:36 | a character's UTF-8 encoding is one to four bytes, a single byte exactly for ASCII (the character's code), otherwise bytes of 0x80 and above |
| Common.Utf8RoundTrip | src/days/day_3.rs:36 | the encoding has the lead and continuation byte tags of its length and decodes back to the character |
| Common.Utf8OfBelow | src/days/day_3.rs:36 | below 0x80, a text's bytes include one under a bound exactly when its characters include one |
| IndexPairs.PairsEnumeration | src/days/day_9.rs:39-47 | the nested loops visit each pair i < j < n and nothing else, in strictly increasing lexicographic order (so each exactly once), n(n-1)/2 of them |
| IndexPairs.RowsUpToLength | src/days/day_9.rs:41-45 | the first r rows of the loops hold r(2n - r - 1)/2 pairs |
| Sorting.InsertBy | src/days/day_5.rs:93 | inserting into a sequence sorted by key keeps it sorted and adds exactly the element |
| Sorting.SortBy | src/days/day_5.rs:93 | `sort_by` on the start gives a permutation of the ranges whose starts never decrease |
| Sorting.SortByStable | src/days/day_5.rs:93 | `sort_by` is stable: the elements with any one key keep their order |

## Left out

- Reading the input file, the command line (structopt), timing with `Instant` and all printing in `src/main.rs`, and the dispatch to days 11 to 25: I/O and stubs with no logic.
- The `(\d{3})` regex in `format_duration` (src/main.rs:48-49): modelled by its effect, a comma after every three digits of the reversed number.
- The code generators `make_main.py` and `make_days.py`: they write source files and take no part in a run.
- `src/days/day_2_regex_impl.rs`: an alternative day 2 solver selected by a flag; its patterns serve only as the reference meaning of an invalid id in `Day2`.
- Every `Display` implementation, `fmt_bstring` and the debugging prints of days 1, 7 and 8: output formatting only.
- Day 8 `dist` and the `f64` `total_cmp` ordering: replaced by the squared integer distance. This orders pairs the same way only while coordinates stay below 2^25. Beyond that, `powi(2)` and the sums round, and two different distances can become one `f64` that the heap then breaks as a tie.
- Day 8 `distance_matrix` and `_print_circuits`: the matrix is built and never read, and the printer only prints.
- Day 9 `star_two`, `shape_fill` and the `void` and `solution` fields of the floor: the flood fill of part two is not modelled; part one and the corner classification it relies on are.
- Day 10 line splitting by regex: the model starts from the three captured substrings of a line (lights, buttons, joltages), and so the `star_one`/`star_two` sums over the lines, which depend on the regex, are left out; the per-machine answers are modelled.
- Day 10 `get_min_indicator_button_presses_iterative`: an unused alternative of the recursive search.
- Day 10 `Machine.state`: written and never read by either part.
- Day 6 `CephalopodWorksheet::from` and day 6 `star_two`: the right-to-left digit-column reading of part two is not modelled, so neither is its property that the last line holds one operator per column; part one's `HumanWorksheet` is modelled in full.
- Day 7 `star_two` memory reporting and the `Rc` sharing of the universe tree: the model counts universes on values.
- Ordinary overflow of `usize`, `u64` and `u128` sums and products: integers are unbounded, so answers that would overflow in Rust are not modelled as panics.
- Day10.PressButton: does not model the `u8` overflow panic when a joltage counter at 255 is bumped; counters are unbounded naturals.
- Day4.GetNeighbors: the source casts rows and columns to `i16` before adding the offset; the model adds without that cast, so rooms more than 32767 rows or columns wide are not modelled.
- Day6.EatNumberSkipWhitespace: the source cuts the rest at `&line[idx..]` with idx counted in characters, not bytes. The model cuts after idx characters, which agrees only when every character before the cut is ASCII. After a skipped non-ASCII whitespace character (U+00A0, say) the source's rest starts inside text already read, or panics when the offset splits a character.
- Day6.NextChar: the rest starts after the character found, counted in characters. The source's `idx + 1` is a byte offset, and so differs on lines whose skipped whitespace or found character is not ASCII.
- Day6.EatNextCharSkipWhitespace: the same character-for-byte offset as Day6.NextChar.
- Day6.StarOne: requires that the worksheet scan finishes; on a stray character the source makes no progress and loops for ever.
- Day7.StarOne and Day7.StarTwo: require the start to lie above the last row; a start in a short last row makes the source's beams fall for ever.
- Day8.StarOne: requires at least as many pairs as connections to make; with fewer the source loops for ever.
- Day8.LargestCircuitsProduct and Day8.ConnectNearest: the same requirement as Day8.StarOne, for the loop of star_one they model.
- Digits are ASCII `0` to `9`; Rust's `is_numeric` also accepts other Unicode numerals, on which `to_digit(10).unwrap()` panics.

## Findings

| source | as written | input that shows it | evidently intended | confidence | as-written member | corrected member |
|---|---|---|---|---|---|---|
| src/days/day_4.rs:35-47 | the height counts one row per line break plus one, so a grid whose last line ends in a line break gets one row too many; get_neighbors then treats the last real row as having a row below it, and the lookup of that spot indexes past the cells and panics | "..\n@@\n": four cells, width 2, height 3; the roll at spot 2 looks up spot 4 | a trailing line break closes the last row (height 2), the room is rectangular, no lookup panics, and part one answers 2 | not executed | Day4.TrailingBreakExample | Day4.IntendedRoomSound |
