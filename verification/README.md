# Advent of Code 2021, days 1 to 3, in Dafny

A model of the puzzle kernels in `sol.py` and `day1/sol.py`:

- **Depth** (day 1, "Sonar Sweep"). This module counts the depth readings that are larger than the one before. It also builds sliding windows of three readings, sums them, and counts increases over the sums. `sol.py` and `day1/sol.py` contain the same three kernels (`_count_incs`, `_build_windows`, `_compact_windows`), so one module models both.
- **Dive** (day 2, "Dive!"). This module steers the submarine with `forward`, `up` and `down` commands.
  - Under the first reading, the commands move it directly (`move_v1`).
  - Under the second, `up` and `down` turn an aim and `forward` dives along it (`move_v2`).
  - The `Day2` object keeps two append-only logs, the aims and the positions. It is modelled as the class `Submarine`, with `seq` fields that its methods reassign.
  - Depth is a signed `y` coordinate: `up` raises it, `down` lowers it, and `finalise` multiplies `x` by `-y`.
- **Diagnostic** (day 3, "Binary Diagnostic"). This module works on a report of equal-width bit rows.
  - It computes the most and least common bit of every column (gamma and epsilon).
  - It narrows the rows column by column by the most or the least common bit (the oxygen generator and CO2 scrubber ratings).
  - The `"0"`/`"1"` strings the solver builds are sequences of bits here, and `int(s, 2)` is `BitsToNat`.

The loops in the source are methods with loop invariants. Each is proved against a specification function, and the lemmas state what those functions mean. Examples: the number of increases equals the size of a set of indices, and the three-wide window pipeline counts the `j` with `lines[j] > lines[j-3]`. Others: final positions depend only on per-command totals, and the aim of the second reading is the depth of the first. Gamma and epsilon add up to `2^width - 1`. The narrowing that builds a rating is specified step by step: the rating is the only row left by the first column that leaves at most one row. Following the most common bit never runs out of rows, and distinct rows of non-zero width never run out of columns.

## Model

| member | source | states |
|---|---|---|
| `Depth.LaggedIncreases` | day1/sol.py:13-25 | The number of increases at distance `lag` is at most `len - lag`. With lag 1 that is at most `len - 1`, and 0 for lists of length 0 or 1. |
| `Depth.LaggedIncreasesIsCardinality` | day1/sol.py:13-25 | The counting function equals the number of indices `j >= lag` with `s[j] > s[j-lag]`. |
| `Depth.CountIncs` | sol.py:14-26 | The loop that remembers the previous value (initially none) returns the number of `i >= 1` with `lines[i] > lines[i-1]`. The result is at most `max(0, len - 1)`. |
| `Depth.Windows` | day1/sol.py:28-43 | There are `len - size + 1` windows when `len >= size` (size > 0), none when the list is shorter, and `len` empty windows for size 0. Window `i` is `lines[i..i+size)`. |
| `Depth.BuildWindows` | sol.py:29-44 | The loop stops at the first start index whose window would run past the end. It returns exactly those windows, each of length `size`. |
| `Depth.CompactWindows` | day1/sol.py:46-48 | The length is preserved, and element `i` is the sum of window `i`. This is the same as sol.py:47-49. |
| `Depth.Part2Pipeline` | day1/sol.py:55-57 | Counting increases of the sums of three-wide windows equals counting the `j >= 3` with `lines[j] > lines[j-3]`. |
| `Depth.Part2` | sol.py:77-80 | `Day1.part2`, built from the three kernels, returns that same count. |
| `Dive.MoveV1` | sol.py:99-106 | A move adds its units to x if it is `forward`, to y if it is `up`, and takes them from y if it is `down`. Any other word changes nothing. This is stated through the per-command totals of the one-move list. |
| `Dive.StepV2` | sol.py:108-125 | x moves as under `move_v1`. The aim changes by as much as `move_v1` changes the depth `-y`. y sinks by the forward units times the incoming aim. |
| `Dive.Step` | sol.py:142-145 | One loop step keeps the chosen reading and adds the forward units to x. Without an aim, y changes by up minus down units. With an aim, y sinks by the forward units times the aim, and the aim changes by down minus up units. |
| `Dive.Finalise` | sol.py:151-153 | The answer is 0 exactly when x or y is 0. It is positive when the submarine has moved forward and is below the surface (`y < 0`). |
| `Dive.Run` | sol.py:140-145 | The step function chosen at the start (`move_v1` without an aim, `move_v2` with one) stays chosen for the whole run. |
| `Dive.LogsAt` | sol.py:140-141 | Entry `k` of the position log is the position before move `k`. Entry `k` of the aim log is the aim before move `k`. Under `move_v1` no aim is logged. |
| `Dive.RunV1Totals` | sol.py:99-106 | Under `move_v1`, x grows by all `forward` units and y by `up` minus `down` units. Other words change nothing, so order does not matter. |
| `Dive.RunV2Totals` | sol.py:108-125 | Under `move_v2`, x grows by all `forward` units, and the aim ends at the start aim plus `down` minus `up` units. |
| `Dive.AimIsFirstDepth` | sol.py:99-125 | Starting from zero, the second reading's final aim is the first reading's final depth (`-y`), and both readings end at the same x. |
| `Dive.Part1Answer` | sol.py:151-158 | `finalise` applied to the first reading's final position is `forward total * (down total - up total)`. |
| `Dive.Submarine.constructor` | sol.py:86-90 | Both logs start empty. |
| `Dive.Submarine.MoveV2` | sol.py:108-125 | It appends exactly the incoming aim to `aims`, and returns the position and aim of one second-reading step. |
| `Dive.Submarine.ProcessMoves` | sol.py:127-146 | `positions` gets exactly the position log of the moves appended, and `aims` the aim log. The method returns the final position of the fold. |
| `Dive.Submarine.Part1` | sol.py:155-158 | The answer is `forward total * (down total - up total)`. `positions` gets exactly the position log of the first reading's run from (0, 0) appended, one entry per move. `aims` is unchanged. |
| `Dive.Submarine.Part2` | sol.py:160-163 | The answer is `forward total * depth`, where depth is `-y` after the aimed run from aim 0. `positions` and `aims` get exactly the position and aim logs of that run appended, one entry of each per move. |
| `Diagnostic.ColumnTotal` | sol.py:182 | A column's total of ones is at most the number of rows. |
| `Diagnostic.VerdictAsWritten` | sol.py:183-190 | This is the tie test as written (against `len // 2`). On an even row count it raises exactly when ones and zeros are equal. |
| `Diagnostic.Verdict` | sol.py:183-190 | This is the corrected tie test. It gives 1 iff ones outnumber zeros, 0 iff zeros outnumber ones, and no verdict iff they are equal. |
| `Diagnostic.VerdictsAgreeOnEvenCounts` | sol.py:183-190 | On an even number of rows the two tests agree. |
| `Diagnostic.AsWrittenRejectsClearMinority` | sol.py:183-190 | On an odd number `n` of rows with `n // 2` ones, the test as written raises, although zeros are the strict majority. |
| `Diagnostic.FiveRowExample` | sol.py:182-190 | On the report `1,1,0,0,0` the column total is 2 = 5 // 2. The test as written raises; the corrected one says 0. |
| `Diagnostic.MostLeastAsWritten` | sol.py:178-191 | It fails with "unexpected total" iff some column total equals `len // 2`, that is iff `VerdictAsWritten` gives no verdict for some column. Otherwise it returns the majority bits (`MajorityBits`), each agreeing with `VerdictAsWritten`, and their complement. |
| `Diagnostic.MajorityBits` | sol.py:181-188 | The majority bits have one bit per column. Bit `c` is 1 iff the ones in column `c` outnumber the zeros. |
| `Diagnostic.MostLeast` | sol.py:178-191 | It fails iff some column is an exact tie. Otherwise it returns the majority bits (each agreeing with `Verdict`) and their complement. |
| `Diagnostic.BitsToNat` | sol.py:196-197 | A `w`-bit string denotes a number below `2^w`. |
| `Diagnostic.ParseBinary` | sol.py:196-197 | `int(s, 2)` fails exactly on the empty string. |
| `Diagnostic.ComplementSum` | sol.py:193-199 | Gamma plus epsilon (the complement's value) is `2^width - 1`. |
| `Diagnostic.Part1` | sol.py:193-199 | It fails on a tied column, or on a zero-width report when `int("", 2)` raises. Otherwise it returns gamma times epsilon for the majority bits. Every failure is one of those two. |
| `Diagnostic.SelectedBit` | sol.py:204-215 | The most common bit is 1 iff ones are at least as many as zeros, so ties go to 1. The least common bit is 1 iff ones are fewer, so ties go to 0. |
| `Diagnostic.Part2Common` | sol.py:201-215 | It returns two strings of the report's width that complement each other. Column `c` holds the most and least common bit, with an exact half counted as "1"/"0". |
| `Diagnostic.KeepMatching` | sol.py:219 | It keeps exactly the rows whose bit at `idx` is `b`, in order (a subsequence). The count is the column's ones (or zeros), and it keeps rows distinct. |
| `Diagnostic.Filter` | sol.py:217-220 | It keeps exactly the rows whose bit at `idx` equals the selected pattern's bit at `idx`. |
| `Diagnostic.SelectionShare` | sol.py:201-220 | Following the most common bit keeps at least half the rows. Following the least common bit keeps at most half. |
| `Diagnostic.WithPrefixStep` | sol.py:217-220 | Keeping the rows whose bit at column `|p|` is `b`, out of those that begin with `p`, leaves exactly the rows that begin with `p + [b]`, in order. |
| `Diagnostic.WithPrefixDistinct` | sol.py:219 | Selecting rows by a prefix keeps distinct rows distinct. |
| `Diagnostic.SamePrefixRepeats` | sol.py:222-232 | Two or more rows of `width` bits that agree on all `width` bits are not distinct. |
| `Diagnostic.NarrowStep` | sol.py:224-225 | One pass of `filter` on the rows that survived `k` columns leaves the rows that survive `k + 1` columns. |
| `Diagnostic.RatingUnique` | sol.py:222-233 | There is at most one rating: the first column that leaves at most one row is unique. |
| `Diagnostic.RatingExcludesFailures` | sol.py:222-233 | A narrowing that finds a rating neither runs out of lines nor of width. |
| `Diagnostic.FailuresExclusive` | sol.py:229-232 | A narrowing that runs out of lines does not also run out of width. |
| `Diagnostic.RatingFromMeaning` | sol.py:224-232 | If no column before `k + 1` has decided, the outcome of narrowing from column `k` on is the rating, or the right one of the two failures. |
| `Diagnostic.RatingCharacterised` | sol.py:222-233 | The narrowing returns a row iff a rating exists, and then the row is the rating and one of the input rows. It fails with "Run out of lines!" iff the first column that leaves at most one row leaves none. It fails with "Ran out of width?" iff every column leaves two or more rows. There is no other failure. |
| `Diagnostic.MostCommonNeverEmpties` | sol.py:222-233 | Following the most common bit never runs out of lines. |
| `Diagnostic.ExhaustedRowsRepeat` | sol.py:231-232 | If a report of non-zero width runs out of width, two of its rows are equal. |
| `Diagnostic.FilterLoop` | sol.py:222-233 | The loop returns exactly the specified outcome `Rating`. So it returns a row iff a rating exists, and that row is the rating. "Run out of lines!" comes iff the first column leaving at most one row leaves none, and "Ran out of width?" iff no column decides. The most-common narrowing never runs out of lines. Distinct rows of non-zero width never run out of width. |
| `Diagnostic.LifeSupport` | sol.py:246-249 | The product of the two ratings' values fits in as many bits as the two rows have together. |
| `Diagnostic.Part2` | sol.py:235-249 | It succeeds iff both narrowings find a rating. Its answer is `LifeSupport` of the oxygen and CO2 ratings, each characterised by `IsRating`. An oxygen failure is reported first, then a CO2 failure. On distinct rows of non-zero width the only possible failure is "run out of lines". |

## Left out

- `_get_lines` (sol.py:5-11, day1/sol.py:4-10), the `parser` static methods, `Day2.load_moves` and the `moves` field: file reading and line parsing. Inputs are given as sequences of integers, of `Move` values and of bit rows.
- `Day.sol`, `Day3.sol`, `sol1`/`sol2` printing and the `__main__` blocks: console output only. `Day1.part1` is `CountIncs` on the input, and `sol1`/`sol2` in day1/sol.py are the same compositions as `Day1.part1`/`Depth.Part2`.
- Bingo (day 4): no code for it is part of this model.
- Exceptions become values. The `RuntimeError`s and the `ValueError` of `int("", 2)` are `DiagnosticError` results. The `IndexError` that ends `_build_windows` is the loop's `break`. The `IndexError` that `most_least`, `part2_common` and `filter_loop` would hit on an empty report, or on a row shorter than the first, is a precondition instead: the report must be non-empty and every row must have the width of the first.
- Rows longer than the first: the model requires every row to have exactly the width of the first. `most_least` reads only the first `len(lines[0])` columns of every row and raises nothing on longer rows. `filter_loop` does not behave that way: each `filter` call recomputes the pattern with `part2_common` on the rows left so far, which reads as many columns as the current first row has. Once a longer row becomes the first survivor, a shorter survivor raises `IndexError`. For example, on `[0,0], [1,1,1], [1,1]` the first column keeps `[1,1,1], [1,1]`, and the next pattern reads `[1,1][2]`. Reports whose rows have different lengths are not modelled.
- `Depth.BuildWindows`: `size` is a natural number. Python treats a negative size like 0, and that case is not modelled.
- `process_moves`' `move_fnc` parameter: `aim: Option<int>` replaces it. An absent aim selects `move_v1` and a present one `move_v2`. These are the combinations the solver uses. A mismatched pair (an aim with `move_v1`, or `move_v2` without an aim) raises a `TypeError` at the first move, and on an empty move list it returns the start position without calling `move_fnc`; neither pairing is modelled. Likewise, `filter_loop`'s predicate is a `Selector` (most or least common) rather than a Python callable.
- `Diagnostic.Part2Common`: Python compares the column total with the float `len / 2`. The model compares `2 * total` with `len`, which is exact.
- `Dive.Submarine.Part2`: the answer is stated through the final depth of `Dive.Run`, not through a closed formula for the depth.
- `Diagnostic.Part1` and `Diagnostic.MostLeast` use the corrected tie rule (see Findings). `Diagnostic.MostLeastAsWritten` keeps the rule as written.

## Findings

| source | as written | input that shows it | evidently intended | confidence | as-written member | corrected member |
|---|---|---|---|---|---|---|
| sol.py:183-190 | Each column total is compared with `len(lines) // 2`, and equality raises "unexpected total". With an odd row count, a total equal to `len // 2` is a strict minority of ones, not a tie. | The five one-bit rows `1, 1, 0, 0, 0`: the total is 2 = 5 // 2, so it raises, although 0 is the most common bit. | Raise only on an exact tie (`2 * total == len`), and otherwise take the strict majority bit. The two rules agree on even row counts. | medium; not executed | `Diagnostic.MostLeastAsWritten` (with `Diagnostic.VerdictAsWritten`, `Diagnostic.AsWrittenRejectsClearMinority`, `Diagnostic.FiveRowExample`) | `Diagnostic.MostLeast` (with `Diagnostic.Verdict`, `Diagnostic.VerdictsAgreeOnEvenCounts`) |
