# Team round-robin tournament scheduling, modelled in Dafny

The repository schedules a team match between two teams of n players,
A_1..A_n and B_1..B_n (n = 2m). The schedule has n rounds. In every round
each A-player meets exactly one B-player, and each pair (A_i, B_j) meets
exactly once overall. In every round m A-players and m B-players move first.
Over the whole tournament every player moves first m times and second m
times.

The solvers split a schedule into two tables:

- a pairing table L, where `L[r][i] = j` means A_i meets B_j in round r
  (a Latin square);
- a colour table F, where `F[r][i] = 1` means A_i moves first in round r.

Several searches (backtracking, simulated annealing, a cyclic local search)
look for a colour table F that balances a given L. The verifiers read
written schedules in the notation `第k轮 A1-B3 B5-A2 …`: the player left of
`-` moves first.

The model keeps n and m as parameters throughout. Tables are `seq<seq<int>>`.
The solvers' running counters (`col_count`, `b_count`, `col_sum`, `bt_sum`,
`ad_sum`, `energy`, `col_avail`, `pair_used`) are sequences that methods
update in `while` loops. The backtracking search is a class whose methods
update the counters and the partial solution in place.

Every check that collects an error list returns a sequence of `Issue`
values, in the order the source appends its messages. Each check has two
partners:

- a specification function (`…Report`) that the method computes;
- a lemma saying exactly when that report is empty.

Randomness (`shuffle`, `choice`, `randint`) and the floating-point
acceptance test are modelled as arbitrary choices (`:|`) that satisfy
whatever the source guarantees. For example, a move that lowers the energy
is always accepted.

Modules, in dependency order:

- `Outcomes`: `Option`, `Result` and Python's list indexing.
- `Tables`: permutations, Latin squares, sums, balance, the inverse table `L_inv` and the B-transversals.
- `Notation`: `str`/`int` conversion, `split`/`strip`/`join`, the match notation, round lines.
- `Squares`: the constructed pairing tables and the Latin-square checks.
- `Inverse`: `L_inv` and `compute_b_transversals`.
- `Selection`: `itertools.combinations`.
- `Backtrack`: `solve_backtrack`.
- `Checks`: the shared error-list checks.
- `BtCheck`: `solver_bt.verify_full` and `main`.
- `FastCheck`: `solver_fast.verify_and_format`.
- `Schedule`: formatting and reading schedules.
- `Streaks`: `solver_n34_plus.verify`.
- `Tally`, `RoundChecks`, `SolutionCheck`: `verify_solution.py`.
- `N34Check`: `verify_n34.py`.
- `PlusCheck`: `verify_n34_plus.py`.
- `WikiCheck`: `verify_wiki.py`.
- `Annealing`: `solve_sa`.
- `LocalSearch`: `solver.solve`.
- `Shifts`: the cyclic-shift checks of `solver_ilp.py` and `solver.py`.
- `RandomSquare`: `make_random_ls`.

## Model

| member | source | states |
|---|---|---|
| Outcomes.PyIndex | verify_wiki.py:51-52 | Python list indexing: a negative index counts from the end, and anything outside -len..len-1 raises IndexError |
| Tables.PermIff | solver_bt.py:96 | `sorted(s) == list(range(n))` holds exactly when s has length n, values in 0..n-1 and no repeat |
| Tables.CoversIsPerm | verify_solution.py:162 | a list of n entries that holds every value 0..n-1 passes the `sorted(...) == list(range(n))` test |
| Tables.DistinctCovers | solver_bt.py:96-101 | n distinct values in 0..n-1 cover all of 0..n-1 (pigeonhole) |
| Tables.LatinPairsOnce | solver_bt.py:241-246 | in a Latin square every pair (A_i, B_j) meets in exactly one round |
| Tables.InverseInverts | solver_bt.py:116-119 | for a permutation row, `L_inv` inverts it: `L[r][L_inv[r][v]] == v`, and no other index holds v |
| Tables.TransversalIsPerm | solver_fast.py:106-110 | for a Latin square, each B-transversal `trans[j]` visits every column once |
| Tables.RoundHitsAtInverse | solver_bt.py:160-166 | in a permutation round, B_j's second count gains exactly the colour of the A-player that `L_inv` names |
| Tables.BSecondAlongTransversal | solver_fast.py:129 | for permutation rows and a 0/1 colouring, counting B_j's seconds cell by cell (the verifiers) equals summing F along B_j's transversal (the solvers) |
| Tables.BinaryRowZeros | solver_n34.py:133-136 | in a 0/1 row the zeros are n minus the ones, so the per-round B-first count is n minus the row sum |
| Notation.ParseNatToString | verify_solution.py:34-35 | `int(str(k)) == k` for every k >= 0 |
| Notation.WordsJoin | verify_solution.py:48 | `' '.join(tokens).split()` gives the tokens back |
| Notation.SplitJoin | verify_solution.py:44 | splitting a `sep.join(pieces)` on sep gives the pieces back when no piece holds sep |
| Notation.ParseMatch | verify_solution.py:29-32 | parse_match raises IndexError exactly when the string holds no '-' (fewer than two pieces), and every index it reads back is at least -1 |
| Notation.ReadMatch | verify_solution.py:33-40 | the left token decides the orientation (A first exactly when it starts with 'A'); the result is a ValueError exactly when `int()` refuses one of the two numbers, and neither index is below -1 when neither token holds '-' |
| Notation.ParseInt | verify_solution.py:34-35 | `int()` on a decimal string succeeds exactly when, after stripping whitespace and one sign, what is left is ASCII digits with single underscores between digits; an unsigned string gives a value of at least 0, and a refusal is a ValueError |
| Notation.ParseIntSigned | verify_solution.py:34-35 | `int("+3") == 3` and `int("-12") == -12` |
| Notation.ParseIntGrouped | verify_solution.py:34-35 | `int("1_0") == 10` |
| Notation.ParseIntPadded | verify_solution.py:34-35 | `int(" 7\n") == 7` |
| Notation.ParseIntRejects | verify_solution.py:34-35 | `int()` raises ValueError on `""`, `"+"`, `"1__0"`, `"_1"` and `"1_"` |
| Notation.ParseMatchSigned | verify_solution.py:33-35 | `parse_match("A+3-B4")` reads A_3 against B_4 with A first, as `int()` accepts the sign |
| Notation.ParseMatchGrouped | verify_solution.py:33-35 | `parse_match("A1_0-B2")` reads A_10 against B_2 with A first, as `int()` accepts the underscore |
| Notation.ParseFormatMatch | verify_solution.py:29-40 | parse_match inverts `A{i+1}-B{j+1}` / `B{j+1}-A{i+1}` for every non-negative pair, in both orientations |
| Notation.RoundLineWords | solver_bt.py:294 | splitting a written round line on whitespace gives its label, then its match strings |
| Notation.RoundLineUnpadded | solver_bt.py:294 | a written round line with at least one match is unchanged by `strip()` |
| Squares.DihedralTablesAgree | solver_fast.py:29-43 | make_d5_ls builds the same table as d5_cayley_table |
| Squares.DihedralIsLatin | solver_bt.py:12-36 | the dihedral-group Cayley table on 2h elements is a Latin square |
| Squares.MixedIsLatin | solver_bt.py:38-47 | the mixed shift/reflection table is a Latin square |
| Squares.AlternatingIsLatin | solver_bt.py:49-58 | custom_latin_square_1 (even rounds shift, odd rounds reflect) is a Latin square for every even n |
| Squares.ShiftSwapIsLatin | solver_fast.py:14-27 | make_shift_swap_ls is a Latin square for every even n |
| Squares.ShiftSwapTenIsShiftSwap | solver_bt.py:70-90 | the written-out custom_latin_square_3 is make_shift_swap_ls for n = 10, hence Latin |
| Squares.ColumnPermsNoRepeatedPair | solver_bt.py:102-109 | once the columns are permutations, the pair check of verify_latin_square cannot fail |
| Squares.RepeatReportMeansNoRepeat | solver_bt.py:103-109 | the row-major pair walk finds nothing exactly when no column repeats a value |
| Squares.LatinIssuesEmpty | solver_bt.py:93-110 | verify_latin_square has nothing to report exactly when rows and columns are permutations and no pair repeats |
| Squares.VerifyLatinSquare | solver_bt.py:93-110 | returns the first failure in the source's order, and `(True, OK)` exactly when every row and column is a permutation |
| Squares.FirstRepeat | solver_bt.py:103-109 | the pair-set walk stops at the first repeated (column, value) pair of the whole walk |
| Squares.VerifyLs | solver_fast.py:90-97 | verify_ls is True exactly when L is a Latin square |
| Inverse.InverseRow | solver_bt.py:117-119 | each slot of `L_inv[r]` ends with the last column that named it, and a slot nobody named keeps 0 |
| Inverse.InverseTable | solver_bt.py:116-119 | the whole `L_inv` table, slot by slot as for one row |
| Inverse.ComputeBTransversals | solver_fast.py:99-110 | `trans[j][r] == L_inv[r][j]`, and for permutation rows `L[r][trans[j][r]] == j` |
| Inverse.ComputeBTransCells | solver_bt.py:123-126 | `b_trans[j][r] == (r, L_inv[r][j])`, so the cell lies in round r (the assert at line 161) |
| Selection.FilterLength | solver_bt.py:176 | the free-column list has one entry per member of the free set |
| Selection.CombinationsShape | solver_bt.py:182 | every element of `combinations(xs, k)` has k members, taken from xs in xs's order |
| Selection.CombinationsCount | solver_bt.py:182 | `combinations(xs, k)` has C(len(xs), k) elements |
| Backtrack.ChosenShape | solver_bt.py:176-183 | forced plus `need` free columns gives exactly m columns, with every forced column and no forbidden one |
| Backtrack.Backtracker.Apply | solver_bt.py:186-191 | the counters become exact for the solution extended by the chosen row |
| Backtrack.Backtracker.Undo | solver_bt.py:211-217 | the counters return to exact for the solution without the row, i.e. their values before the apply |
| Backtrack.Backtracker.CountersWithin | solver_bt.py:194-203 | ok exactly when every counter c has c <= m and c + remain >= m |
| Backtrack.Backtracker.Classify | solver_bt.py:147-166 | prunes exactly when some A-player cannot reach m even with this round; otherwise returns the exact forced and forbidden sets |
| Backtrack.Backtracker.Backtrack | solver_bt.py:135-219 | on failure the counters and the solution are as before (every push is popped); on success every round is chosen and every counter is m |
| Backtrack.Backtracker.TryCompletions | solver_bt.py:168-219 | tries the completions in order, recursing only from a state the feasibility check accepted, and undoes each failed one |
| Backtrack.ColouringColSum | solver_bt.py:228-233 | A_i's first count in the built F is the number of rounds that chose A_i |
| Backtrack.ColouringTransversal | solver_bt.py:228-233 | B_j's count along its transversal in F is the number of rounds that chose the transversal's cell |
| Backtrack.BuildColouring | solver_bt.py:228-233 | F is the indicator table of the solution |
| Backtrack.SolveBacktrack | solver_bt.py:113-234 | a returned F is a 0/1 table with m ones in every round, every A-column and every B-transversal; on a Latin L it is balanced |
| Checks.FirstMatchOnPerm | solver_bt.py:264-268 | in a permutation row the `break` search finds the only column meeting B_j |
| Checks.ReportEmpty | solver_n34.py:115-117 | an `if bad: errors.append` loop collects nothing exactly when no index is bad |
| Checks.ConcatResultsErr | solver_bt.py:261-272 | a loop whose parts may raise raises exactly when some part raises |
| Checks.ReportPrefix | solver_bt.py:95-101 | a loop that stops early has seen a prefix of the full report |
| Checks.RowPermIssues | solver_n34.py:115-117 | reports every round whose row of L is not a permutation |
| Checks.ColPermIssues | solver_n34.py:118-121 | reports every A-player whose column of L is not a permutation |
| Checks.RowSumIssues | solver_n34.py:122-124 | reports every round whose row sum is not m |
| Checks.ColSumIssues | solver_n34.py:125-128 | reports every A-player whose first count is not m |
| Checks.BSecondIssues | solver_n34.py:129-132 | reports every B-player whose count of cells with `L[r][i]==j and F[r][i]==1` is not m |
| Checks.RoundBFirstIssues | solver_n34.py:133-136 | reports every round whose count of zeros is not m |
| Checks.RoundBFirstIsRowComplement | solver_cpsat.py:149-152 | for a 0/1 colouring the per-round B-first count is n minus the row sum |
| Checks.RoundsBalancedFromRowSums | solver_n34.py:122-136 | with row sums m and n == 2m, every round is B-balanced too |
| Checks.BalanceReportEmpty | solver_n34.py:113-137 | the six checks collect nothing exactly when L is Latin and F balances every round, A-player and B-player |
| Checks.BalanceIssues | solver_n34_plus.py:175-198 | computes the six checks in order, and is empty exactly when L is Latin and F is balanced |
| Checks.VerifyAndPrint | solver_cpsat.py:114-184 | False exactly when an error was collected, i.e. True exactly when L is Latin and F is balanced |
| BtCheck.PairsOnceIffColumnsPerms | solver_bt.py:241-246 | every pair meets exactly once exactly when every column of L is a permutation |
| BtCheck.PairIssues | solver_bt.py:242-246 | reports every pair whose meeting count is not 1 |
| BtCheck.MatchSecondPerm | solver_bt.py:261-270 | for permutation rows, the first-match lookup counts exactly B_j's second moves |
| BtCheck.MatchReportErr | solver_bt.py:264-269 | a round in which B_j meets nobody makes `F[r][None]` raise TypeError |
| BtCheck.FullReportMeaning | solver_bt.py:237-280 | verify_full raises exactly when some round misses a B-player, and returns [] exactly when L is Latin and F is balanced |
| BtCheck.VerifyFull | solver_bt.py:237-280 | computes the report in the source's order, with the meaning above |
| BtCheck.BtMain | solver_bt.py:298-341 | the table returned is one of the four candidates; it is Latin, its colouring is balanced and passes verify_full, and the schedule is the formatted one |
| FastCheck.FastReportEmpty | solver_fast.py:188-226 | nothing is reported exactly when no pair repeats, F is balanced and every round has m B-players first |
| FastCheck.FastReportOnLatin | solver_fast.py:193-199 | on a Latin square the pair walk is silent |
| FastCheck.RepeatIssues | solver_fast.py:193-199 | the pair walk records every repeat and carries on |
| FastCheck.VerifyAndFormat | solver_fast.py:188-240 | returns the errors in order, empty exactly when no pair repeats and F is balanced, and the schedule text |
| Schedule.FormatMatches | solver_bt.py:287-293 | round r's match strings, with A_i first exactly when `F[r][i] == 1` |
| Schedule.FormatSchedule | solver_bt.py:283-295 | the round lines joined by newlines |
| Schedule.ReadRowsAppend | verify_n34.py:22-30 | reading two blocks of lines: an exception in the first ends the reading, otherwise their rows are concatenated |
| Schedule.ReadRowsErrSticks | verify_n34.py:22-30 | once a prefix of the lines raises, reading the whole file raises the same |
| Schedule.ReadLines | verify_n34.py:22-30 | the line loop computes the reader's rows |
| Schedule.ParseRoundMatches | verify_solution.py:52-54 | the match strings of a written round parse back to the round's matches |
| Schedule.RoundLineFilters | verify_n34_plus.py:21 | every line filter keeps a written round line, except the as-written filter of verify_n34_plus |
| Schedule.RoundLineReads | verify_n34.py:26-30 | every reader that keeps a written round line reads it as the round |
| Schedule.SolutionFileRoundTrip | solver_n34.py:140-155 | verify_n34.py (and verify_n34_plus.py with the intended filter) reads a written solution file back as its rounds |
| Schedule.MojibakeReadsNothing | verify_n34_plus.py:21 | the as-written filter finds no round in any written solution file |
| Schedule.ScheduleTextRoundTrip | verify_solution.py:43-55 | reading a schedule text that format_schedule wrote gives back the written rounds |
| Schedule.PermFromRound | solver_n34_plus.py:37-39 | the perm rebuilt from a written round is the round's pairing row, whichever side each match lists first |
| Schedule.ReadExistingLatinSquare | solver_n34_plus.py:15-41 | computes the rows of the kept lines, or the first exception |
| Schedule.ReadExistingWritten | solver_n34_plus.py:235-243 | read_existing_latin_square on a file that write_solution wrote returns the pairing table that was written |
| Streaks.AStreakFlagMeaning | solver_n34_plus.py:201-207 | for a 0/1 colouring a window is flagged exactly when its three moves agree, labelled FIRST exactly when they are all ones |
| Streaks.BSecOnPerm | solver_n34_plus.py:210-216 | for permutation rows b_sec has one entry per round: the colour of B_j's only opponent |
| Streaks.BStreakFlagMeaning | solver_n34_plus.py:217-222 | for B_j the labels are swapped: a sum of 0 is three FIRST rounds |
| Streaks.BStreakReportErr | solver_n34_plus.py:210-218 | with n >= 3, a B-player missing from some round makes `b_sec[r+2]` raise IndexError |
| Streaks.PlusReportEmpty | solver_n34_plus.py:175-224 | verify returns [] exactly when L is Latin, F is balanced and no player has three equal moves in a row |
| Streaks.PlusVerify | solver_n34_plus.py:175-224 | computes the report in order; it raises exactly when n >= 3 and some round misses a B-player; [] exactly for a valid schedule |
| Tally.FirstsComplement | verify_solution.py:194-195 | in every match exactly one side moves first |
| Tally.APlayersOfCount | verify_solution.py:156-161 | A_i's opponent list holds B_j as often as the pair is played |
| Tally.OpponentsArePerms | verify_solution.py:149-182 | once every in-range pair is played exactly once, every player's opponent list is a permutation |
| Tally.PairNeverOut | verify_solution.py:99-101 | a pair with an index outside 0..n-1 is never counted by the in-range pair check |
| Tally.CountRounds | verify_solution.py:224-234 | the counting loops count exactly the matches satisfying the predicate |
| Tally.PairTally | verify_solution.py:88-94 | the pair dictionary maps every played pair to the number of times it is played |
| Tally.CollectOpponents | verify_solution.py:156-161 | collects the player's opponents in reading order |
| RoundChecks.NoMissingNoDuplicate | verify_solution.py:97-120 | neither missing nor duplicated is exactly "every pair played once" |
| RoundChecks.PairLists | verify_solution.py:97-106 | computes the missing and duplicate lists in loop order |
| RoundChecks.EachRound | verify_solution.py:129-139 | the flag stays set exactly when every round passes |
| RoundChecks.OpponentsFollow | verify_solution.py:149-150 | per-round permutations and every pair once make every opponent list a permutation, as the comment claims |
| RoundChecks.OpponentCheck | verify_solution.py:154-182 | the flag stays set exactly when every opponent list of the side is a permutation |
| RoundChecks.RoundBFirstIsASecond | verify_solution.py:191-195 | a round's B-first count is its A-second count |
| RoundChecks.RoundsBothFirstIff | verify_solution.py:189-204 | checking both sides of every round is checking the A side and a round size of 2m |
| RoundChecks.EachCountCheck | verify_solution.py:222-242 | the flag stays set exactly when every player's count is m |
| RoundChecks.ASecondsFollow | verify_solution.py:225-235 | with n opponents each and n == 2m, first counts of m force second counts of m |
| SolutionCheck.AllChecksMeaning | verify_solution.py:64-267 | the eleven checks pass exactly when the schedule has n rounds, every player plays once per round, every pair exactly once, and every round and player is balanced |
| SolutionCheck.VerifySolution | verify_solution.py:61-267 | 11 checks; all_pass only ever goes from True to False, and ends True exactly when the constraints hold |
| SolutionCheck.VerifySolutionText | verify_solution.py:43-55 | a malformed match string ends the script; otherwise the verdict is the constraints on the parsed rounds |
| SolutionCheck.ExampleReportEmpty | verify_solution.py:303-337 | the n = 8 check passes exactly when the pairs occur once and the round, A and B first counts are m |
| SolutionCheck.ExampleIssues | verify_solution.py:303-332 | computes n8_errors in the script's order |
| N34Check.DuplicateKeysMeaning | verify_n34.py:63 | no key of the pair dictionary has a count above 1 exactly when no pair is played twice |
| N34Check.CountDuplicateKeys | verify_n34.py:63 | counts the keys whose count is above 1 |
| N34Check.CountMissing | verify_n34.py:62 | counts the in-range pairs never played |
| N34Check.N34PairCheck | verify_n34.py:55-68 | passes exactly when there are 0 missing and 0 duplicate pairs |
| N34Check.N34ChecksMeaning | verify_n34.py:39-117 | the seven checks pass exactly when there are n rounds, every player once per round, every pair once, and every round and player first m times |
| N34Check.AgreesWithSolutionCheck | verify_n34.py:39-117 | with n == 2m, verify_n34 and verify_solution agree on every schedule |
| N34Check.VerifyN34 | verify_n34.py:36-117 | 7 checks; all_pass exactly when they all hold |
| N34Check.VerifyN34File | verify_n34.py:20-30 | an exception while reading ends the script; otherwise the verdict is the checks on the rounds read |
| PlusCheck.BuildPattern | verify_n34_plus.py:90-94 | `seq[r]` holds the player's last flag in round r, and 0 where the player does not appear |
| PlusCheck.WindowViolationsZero | verify_n34_plus.py:95-106 | no violation is counted exactly when no window sums to 0 or 3 |
| PlusCheck.SideViolationsZero | verify_n34_plus.py:89-106 | a side counts no violation exactly when each of its players keeps the rule |
| PlusCheck.CountWindows | verify_n34_plus.py:95-106 | counts every violation of one pattern, however many are printed |
| PlusCheck.ThreeCheck | verify_n34_plus.py:113-135 | ok exactly when no violation is counted, i.e. every player of the side keeps the rule |
| PlusCheck.PairsOnceCheck | verify_n34_plus.py:39-43 | ok exactly when every in-range pair is played once |
| PlusCheck.VerifyN34Plus | verify_n34_plus.py:29-137 | a wrong round count fails the `assert`; otherwise the verdict of the eight checks |
| PlusCheck.VerifyN34PlusFileAsWritten | verify_n34_plus.py:15-23 | the script as written, on the lines of a file |
| PlusCheck.VerifyN34PlusFile | verify_n34_plus.py:15-23 | the script with the filter it means, on the lines of a file |
| PlusCheck.MojibakeFilterAborts | verify_n34_plus.py:21 | as written, the script stops at its round-count assertion on every solution file the writers produce |
| PlusCheck.IntendedFilterVerifies | verify_n34_plus.py:33-34 | with the intended filter the assertion holds, and the verdict is the checks on the written rounds |
| WikiCheck.PlaceMatch | verify_wiki.py:50-52 | `L[r][a] = b`, and `F[r][a] = 1` exactly when A is listed first |
| WikiCheck.BuildLF | verify_wiki.py:45-52 | computes L and F from the table, or the first exception |
| WikiCheck.BuildTablesRoundTrip | verify_wiki.py:48-52 | writing L and F as match strings and rebuilding gives back L and F |
| WikiCheck.TallyMeaning | verify_wiki.py:67-72 | the dictionary counts every pair exactly, with its keys in order of first occurrence |
| WikiCheck.WikiPairFlagMeaning | verify_wiki.py:73-75 | a key is flagged exactly when its pair met twice or more, with the true count |
| WikiCheck.WikiPairReportEmpty | verify_wiki.py:67-75 | the pair errors are empty exactly when no pair meets twice; a missing pair is never flagged |
| WikiCheck.WikiPairIssues | verify_wiki.py:67-75 | fills the dictionary and walks its items in insertion order |
| WikiCheck.WikiReportEmpty | verify_wiki.py:55-103 | no error is collected exactly when L is Latin and F is balanced |
| WikiCheck.VerifyWiki | verify_wiki.py:44-110 | ALL CHECKS PASSED exactly when building succeeds and L is Latin and F is balanced |
| WikiCheck.WikiJudgesWrittenSchedule | verify_wiki.py:105-110 | a schedule written from L and F is judged as L and F themselves |
| Annealing.SqDevZero | solver_fast.py:131 | the energy is zero exactly when every entry is m |
| Annealing.FlipColouring | solver_fast.py:164-165 | a move keeps F a 0/1 table with m ones per row |
| Annealing.FlipSums | solver_fast.py:166-172 | the col_sum and bt_sum updates give the sums recomputed from the moved F |
| Annealing.ColDelta | solver_fast.py:149-150 | d_col is the exact change of the column part of the energy |
| Annealing.LineDelta | solver_fast.py:154-159 | d_bt is the exact change of the transversal part of the energy |
| Annealing.MoveLines | solver_fast.py:168-172 | the bt_sum update loop of an accepted move |
| Annealing.EnergyZero | solver_fast.py:175-176 | zero energy means every column and every transversal sums to m |
| Annealing.Shuffle | solver_fast.py:124 | a shuffle keeps the row's contents |
| Annealing.RandomColouring | solver_fast.py:121-125 | every first row is a shuffle of m ones and n-m zeros |
| Annealing.AnnealStep | solver_fast.py:140-180 | the tracked sums and energy stay exact; a lowering move is taken; a move not taken changes nothing |
| Annealing.SolveSa | solver_fast.py:113-185 | F is returned only at energy zero: m ones per row, column and transversal, so balanced on a Latin L |
| LocalSearch.OnAntiDiagonal | solver.py:30 | cell (r, i) lies on anti-diagonal (r+i) % n |
| LocalSearch.AntiDiagonalSums | solver.py:26-30 | `ad_sum[k]` is the number of ones on anti-diagonal k |
| LocalSearch.DiagonalMove | solver.py:46-47 | a move touches two different anti-diagonals, and updating just those is the line update |
| LocalSearch.AntiDiagonalDelta | solver.py:53-57 | d_ad is the exact change of the anti-diagonal part of the energy |
| LocalSearch.MoveAntiDiagonals | solver.py:68-69 | the ad_sum update is the recomputation from the moved F |
| LocalSearch.SearchStep | solver.py:39-74 | the tracked sums and energy stay exact; a lowering move is taken; a move not taken changes nothing |
| LocalSearch.Solve | solver.py:11-83 | F is returned only at energy zero: m ones per row, column and anti-diagonal |
| Annealing.UniformColouringEnergy | solver_fast.py:133-134 | with m = 0 or m = n the first colouring drawn already has energy zero, so solve_sa and solve return it before any move needs a one and a zero in the row |
| Shifts.ShiftsDistinctIff | solver_ilp.py:58-69 | no pair repeats exactly when the shifts are distinct mod n, and then the pairing is a Latin square |
| Shifts.ShiftTransversal | solver_ilp.py:88-89 | the lookup `(j - shifts[r]) % n` inverts `i ↦ (i + shifts[r]) % n` |
| Shifts.PairCheckClean | solver_ilp.py:58-69 | no Duplicate and no Missing is reported exactly when the shifts are distinct mod n |
| Shifts.DuplicatesMatchMissing | solver_ilp.py:58-69 | for every A_i, the number of Duplicate reports equals the number of Missing reports |
| Shifts.DuplicateIssues | solver_ilp.py:58-65 | the Duplicate reports in walk order, and the set of pairs played |
| Shifts.MissingIssues | solver_ilp.py:66-69 | the Missing reports over the played set, in loop order |
| Shifts.FirstCountComplement | solver_ilp.py:84-95 | for a 0/1 F, B_j's first count is n minus its second count along the shift pairing |
| Shifts.FirstCountIssues | solver_ilp.py:84-95 | only `first_count != m` is reported |
| Shifts.FullReportEmpty | solver_ilp.py:53-103 | verify_full is silent exactly when the shifts are distinct and the row sums, column sums, B first counts and per-round B-first counts are all m |
| Shifts.FullReportMeansBalanced | solver_ilp.py:53-103 | for a 0/1 F with n == 2m, verify_full is silent exactly when the shift pairing is Latin and F is balanced |
| Shifts.VerifyFull | solver_ilp.py:53-103 | computes the report in order, with the meaning above |
| Shifts.FormatShiftSchedule | solver_ilp.py:106-121 | read back, round r pairs A_i with B_{(i + shifts[r]) % n}, and A_i moves first exactly when `F[r][i] == 1` |
| Shifts.RangeShiftsDistinct | solver.py:87 | the shifts 0..n-1 are distinct mod n |
| Shifts.BFirstIsAntiDiagonalComplement | solver.py:123-131 | b_first of B_j is n minus the sum of F along anti-diagonal j |
| Shifts.CyclicReportEmpty | solver.py:106-133 | with shifts 0..n-1 the pair check never complains; the verdict rests on the B-first counts |
| Shifts.VerifyCyclic | solver.py:106-155 | True exactly when no error was collected, i.e. every B-player is first m times |
| Shifts.SolvedPassesCyclicCheck | solver.py:158-162 | what solve returns with n == 2m passes verify_and_print |
| RandomSquare.ValuesCountDistinct | solver_fast.py:79 | `len(set(perm)) == n` holds exactly when the n entries are distinct |
| RandomSquare.ChooseRow | solver_fast.py:67-80 | a returned row is distinct, and every entry is a candidate for its column |
| RandomSquare.Complete | solver_fast.py:82-88 | after n recorded rows every column holds n distinct values of 0..n-1 |
| RandomSquare.MakeRandomLs | solver_fast.py:56-88 | a returned table is a Latin square, so verify_ls accepts it |

## Left out

- Printing, progress messages, `time.time()` and `flush`. Error messages are `Issue` values that carry the indexes and numbers the message prints; the text itself is not modelled.
- File I/O: reading and writing files is modelled over a given sequence of lines.
- The CP-SAT models (solver_cpsat.py:13-111, solver_n34.py:16-110, solver_n34_plus.py:44-172) and the PuLP models (solver_ilp.py:12-50, 190-277): the solvers' behaviour is not visible. The drivers that call them (solver_n34.py:172-185, solver_n34_plus.py:261-297, solver_cpsat.py:187-192, solver_ilp.py:124-187, solver.py:158-165, solver_fast.py:243-305) are not modelled. Each only runs a solver and hands its result to a modelled check or writer.
- The shift extraction at solver_ilp.py:258-270 reads each round's shift from A_1's partner only. If the general model's round is not a cyclic shift, the `shifts` it returns do not describe the pairing it found. This is part of the PuLP model and is not modelled.
- Notation.ParseInt: `int()` also accepts non-ASCII decimal digits (Arabic-Indic, full-width and the like); the model reads only ASCII digits and refuses the others with ValueError. Because a number never holds '-' after the split on '-', a negative index cannot reach parse_match's callers.
- Floating-point temperatures, `best_energy`/`best_ever` and the acceptance probabilities: accept or reject is an arbitrary boolean, forced only when the move lowers the energy.
- Seeds and random generators: shuffles and choices are arbitrary choices with the source's guarantees. The seed arithmetic (`attempt*137+42`) is not modelled.
- The hard-coded schedules (verify_solution.py:15-27 and 279-288, verify_wiki.py:7-29) are inputs to the generic checkers, not constants evaluated here.
- custom_latin_square_2 (solver_bt.py:60-68) is not modelled: main never uses it.
- Backtrack.SolveBacktrack: only soundness is proved (a returned F is balanced; a failed branch restores the state). It is not proved that the search finds a colouring whenever one exists.
- Backtrack.SolveBacktrack, Inverse.ComputeBTransversals, Annealing.SolveSa: require every entry of L to be in 0..n-1. With an out-of-range entry, `L_inv[r][L[r][i]]` raises or indexes from the end in the source. Every caller first checks the table with verify_latin_square or verify_ls.
- Shifts.FormatShiftSchedule: requires n > 0, as the read-back half of its contract does.
- Shifts.DuplicateIssues: the `played` matrix is modelled as the set of pairs played so far. Only its membership is used.
- Shifts.VerifyCyclic: the row, column and anti-diagonal sums that verify_and_print computes and prints (solver.py:93-103) are not modelled, because they only feed the printout. The schedule it prints is Shifts.FormatShiftSchedule with shifts 0..n-1.
- PlusCheck.ThreeCheck: which violations are printed (at most 3 per side) is not modelled. Every violation is counted.
- verify_n34_plus.py:139-155, the sample patterns it prints, is not modelled.
- BtCheck.BtMain: models main with n = 2h and m = h rather than the constant n = 10. solver_fast's main tries the same kind of candidates with SolveSa and is not modelled separately.

## Findings

| source | as written | input that shows it | evidently intended | confidence | as-written member | corrected member |
|---|---|---|---|---|---|---|
| verify_n34_plus.py:21 | keeps only lines that start with `ç¬¬`, the UTF-8 bytes of `第` read as Latin-1, so no round line of a UTF-8 file is kept and the `assert len(rounds) == n` at line 34 fails | any solution file written by solver_n34_plus.write_solution, e.g. one whose first round line is `第1轮 A1-B1 …` | keep lines that start with `第`, as verify_n34.py:27 and solver_n34_plus.py:23 do | not executed | PlusCheck.MojibakeFilterAborts | PlusCheck.IntendedFilterVerifies |
