/** verify_solution.py: the eleven checks of a parsed schedule against the
    four constraints of the problem, and the shorter issue list of the
    second, n = 8, schedule. */
module SolutionCheck {
  import opened Outcomes
  import opened Tables
  import opened Notation
  import opened Checks
  import opened Tally
  import opened RoundChecks
  import opened Schedule

  /** CHECK 0: n rounds of n matches. */
  predicate StructureOk(rounds: seq<Round>, n: nat)
  {
    |rounds| == n && RoundSizes(rounds, n)
  }

  /** Constraint (1): no pair missing, no pair twice. */
  predicate PairsOk(rounds: seq<Round>, n: nat)
  {
    NoneMissing(Flatten(rounds), n) && NoneDuplicate(Flatten(rounds), n)
  }

  /** Constraints (2a) and (2b): players per round, opponents per player, both sides. */
  predicate PlayersOk(rounds: seq<Round>, n: nat)
  {
    && APlayersPerRound(rounds, n) && BPlayersPerRound(rounds, n)
    && OpponentsArePermsOf(Flatten(rounds), n, true) && OpponentsArePermsOf(Flatten(rounds), n, false)
  }

  /** Constraints (3) and (4): first moves per round and per player. */
  predicate BalanceOk(rounds: seq<Round>, n: nat, m: int)
  {
    var ms := Flatten(rounds);
    && RoundsBothFirst(rounds, m)
    && EachCount(ms, n, AFirstIs, m) && EachCount(ms, n, ASecondIs, m)
    && EachCount(ms, n, BFirstIs, m) && EachCount(ms, n, BSecondIs, m)
  }

  /** The eleven checks, in the script's order. */
  predicate AllChecks(rounds: seq<Round>, n: nat, m: int)
  {
    StructureOk(rounds, n) && PairsOk(rounds, n) && PlayersOk(rounds, n) && BalanceOk(rounds, n, m)
  }

  /** The constraints of the problem, each stated once: n rounds in which
      every player plays once, every pair exactly once, m A-players first in
      every round, every player first m times, and n == 2m. */
  predicate Constraints(rounds: seq<Round>, n: nat, m: int)
  {
    var ms := Flatten(rounds);
    && |rounds| == n
    && APlayersPerRound(rounds, n) && BPlayersPerRound(rounds, n)
    && PairsExactlyOnce(ms, n)
    && RoundsAFirst(rounds, m)
    && EachCount(ms, n, AFirstIs, m) && EachCount(ms, n, BFirstIs, m)
    && (n == 0 || n == 2 * m)
  }

  /** The eleven checks pass exactly when the constraints hold: the other
      checks are implied, as the comment on (2b) says of the opponent lists. */
  lemma AllChecksMeaning(rounds: seq<Round>, n: nat, m: int)
    ensures AllChecks(rounds, n, m) <==> Constraints(rounds, n, m)
  {
    var ms := Flatten(rounds);
    NoMissingNoDuplicate(ms, n);
    if AllChecks(rounds, n, m) && n > 0 {
      RoundBFirstIsASecond(rounds[0]);
    }
    if Constraints(rounds, n, m) {
      RoundsInRange(rounds, n);
      OpponentsFollow(rounds, n);
      if n > 0 {
        RoundsBothFirstIff(rounds, m as nat);
        ASecondsFollow(ms, n, m);
        BSecondsFollow(ms, n, m);
      }
    }
  }

  /** CHECK 0: the round count, then `all(len(r) == n for r in rounds)`. */
  method StructureChecks(rounds: seq<Round>, n: nat) returns (countOk: bool, sizesOk: bool)
    ensures countOk <==> |rounds| == n
    ensures sizesOk <==> RoundSizes(rounds, n)
  {
    countOk := |rounds| == n;
    sizesOk := EachRound(rounds, (rd: Round) => |rd| == n);
  }

  /** Constraint (1): the pair_count dictionary, then the missing and duplicate lists. */
  method PairChecks(rounds: seq<Round>, n: nat) returns (missing: seq<Issue>, duplicate: seq<Issue>)
    ensures missing == MissingReport(Flatten(rounds), n, n)
    ensures duplicate == DuplicateReport(Flatten(rounds), n, n)
    ensures missing == [] <==> NoneMissing(Flatten(rounds), n)
    ensures duplicate == [] <==> NoneDuplicate(Flatten(rounds), n)
  {
    var pc := PairTally(rounds);
    missing, duplicate := PairLists(pc, Flatten(rounds), n);
    MissingReportEmpty(Flatten(rounds), n);
    DuplicateReportEmpty(Flatten(rounds), n);
  }

  /** Constraints (2a) and (2b), each side flagged on its own. */
  method PlayerChecks(rounds: seq<Round>, n: nat)
    returns (aRoundOk: bool, bRoundOk: bool, aOppOk: bool, bOppOk: bool)
    ensures aRoundOk <==> APlayersPerRound(rounds, n)
    ensures bRoundOk <==> BPlayersPerRound(rounds, n)
    ensures aOppOk <==> OpponentsArePermsOf(Flatten(rounds), n, true)
    ensures bOppOk <==> OpponentsArePermsOf(Flatten(rounds), n, false)
  {
    aRoundOk := EachRound(rounds, (rd: Round) => IsPerm(APlayers(rd), n));
    bRoundOk := EachRound(rounds, (rd: Round) => IsPerm(BPlayers(rd), n));
    aOppOk := OpponentCheck(rounds, n, true);
    bOppOk := OpponentCheck(rounds, n, false);
  }

  /** Constraints (3) and (4): a player passes only when both its first and
      its second count are m. */
  method BalanceChecks(rounds: seq<Round>, n: nat, m: int) returns (roundOk: bool, aOk: bool, bOk: bool)
    ensures roundOk <==> RoundsBothFirst(rounds, m)
    ensures aOk <==> EachCount(Flatten(rounds), n, AFirstIs, m) && EachCount(Flatten(rounds), n, ASecondIs, m)
    ensures bOk <==> EachCount(Flatten(rounds), n, BFirstIs, m) && EachCount(Flatten(rounds), n, BSecondIs, m)
  {
    roundOk := EachRound(rounds, (rd: Round) => AFirstCount(rd) == m && BFirstCount(rd) == m);
    var aFirstOk := EachCountCheck(rounds, n, AFirstIs, m);
    var aSecondOk := EachCountCheck(rounds, n, ASecondIs, m);
    aOk := aFirstOk && aSecondOk;
    var bFirstOk := EachCountCheck(rounds, n, BFirstIs, m);
    var bSecondOk := EachCountCheck(rounds, n, BSecondIs, m);
    bOk := bFirstOk && bSecondOk;
  }

  /** The whole script after parsing: all_pass, total_checks and the two
      pair lists it prints. all_pass starts true and is only ever cleared. */
  method VerifySolution(rounds: seq<Round>, n: nat, m: int)
    returns (allPass: bool, totalChecks: nat, missing: seq<Issue>, duplicate: seq<Issue>)
    ensures totalChecks == 11
    ensures missing == MissingReport(Flatten(rounds), n, n)
    ensures duplicate == DuplicateReport(Flatten(rounds), n, n)
    ensures allPass <==> AllChecks(rounds, n, m)
    ensures allPass <==> Constraints(rounds, n, m)
  {
    allPass, totalChecks := true, 0;
    var countOk, sizesOk := StructureChecks(rounds, n);
    totalChecks := totalChecks + 2;
    allPass := allPass && countOk && sizesOk;
    missing, duplicate := PairChecks(rounds, n);
    totalChecks := totalChecks + 2;
    allPass := allPass && missing == [] && duplicate == [];
    var aRoundOk, bRoundOk, aOppOk, bOppOk := PlayerChecks(rounds, n);
    totalChecks := totalChecks + 4;
    allPass := allPass && aRoundOk && bRoundOk && aOppOk && bOppOk;
    var roundOk, aOk, bOk := BalanceChecks(rounds, n, m);
    totalChecks := totalChecks + 3;
    allPass := allPass && roundOk && aOk && bOk;
    AllChecksMeaning(rounds, n, m);
  }

  /** Parse the schedule text line by line, then verify it; a malformed
      match string ends the script with parse_match's exception. */
  method VerifySolutionText(text: string, n: nat, m: int) returns (verdict: Result<bool>)
    ensures verdict.Err? <==> ReadRows(SplitOn(text, '\n'), SolutionStep).Err?
    ensures verdict.Ok? ==> (verdict.value <==> Constraints(ReadRows(SplitOn(text, '\n'), SolutionStep).value, n, m))
  {
    var rounds := ReadLines(SplitOn(text, '\n'), SolutionStep);
    if rounds.Err? {
      return Err(rounds.fault);
    }
    var allPass, _, _, _ := VerifySolution(rounds.value, n, m);
    verdict := Ok(allPass);
  }

  // ----- the n = 8 example -----

  /** `pair8.get((i, j), 0) != 1` */
  function ExamplePairFlag(ms: seq<Match>, i: nat, j: nat): Option<Issue>
  {
    var c := CountWhere(ms, PairIs(i, j));
    if c != 1 then Some(BadPairCount(i, j, c)) else None
  }

  function ExamplePairRow(ms: seq<Match>, i: nat, k: nat): seq<Issue>
  {
    Report(k, (j: nat) => ExamplePairFlag(ms, i, j))
  }

  function ExampleRoundFlag(rounds: seq<Round>, m: int, r: nat): Option<Issue>
  {
    if r < |rounds| && AFirstCount(rounds[r]) != m then Some(BadRowSum(r, AFirstCount(rounds[r]))) else None
  }

  function ExampleAFlag(ms: seq<Match>, m: int, i: nat): Option<Issue>
  {
    var c := CountWhere(ms, AFirstIs(i));
    if c != m then Some(BadColSum(i, c)) else None
  }

  function ExampleBFlag(ms: seq<Match>, m: int, j: nat): Option<Issue>
  {
    var c := CountWhere(ms, BFirstIs(j));
    if c != m then Some(BadBFirst(j, c)) else None
  }

  function ExamplePairs(ms: seq<Match>, n: nat): seq<Issue>
  {
    Concat(n, (i: nat) => ExamplePairRow(ms, i, n))
  }

  function ExampleRounds(rounds: seq<Round>, m: int): seq<Issue>
  {
    Report(|rounds|, (r: nat) => ExampleRoundFlag(rounds, m, r))
  }

  function ExampleAs(ms: seq<Match>, n: nat, m: int): seq<Issue>
  {
    Report(n, (i: nat) => ExampleAFlag(ms, m, i))
  }

  function ExampleBs(ms: seq<Match>, n: nat, m: int): seq<Issue>
  {
    Report(n, (j: nat) => ExampleBFlag(ms, m, j))
  }

  /** n8_errors, in the order the script appends them. */
  function ExampleReport(rounds: seq<Round>, n: nat, m: int): seq<Issue>
  {
    var ms := Flatten(rounds);
    ExamplePairs(ms, n) + ExampleRounds(rounds, m) + ExampleAs(ms, n, m) + ExampleBs(ms, n, m)
  }

  /** A_i meets every B_j, j < n, exactly once. */
  predicate MeetsEachExactlyOnce(ms: seq<Match>, n: nat, i: nat)
  {
    forall j :: 0 <= j < n ==> CountWhere(ms, PairIs(i, j)) == 1
  }

  lemma ExamplePairsEmpty(ms: seq<Match>, n: nat)
    ensures ExamplePairs(ms, n) == [] <==> PairsExactlyOnce(ms, n)
  {
    var g := (i: nat) => ExamplePairRow(ms, i, n);
    ConcatEmpty(n, g);
    forall i | 0 <= i < n ensures g(i) == [] <==> MeetsEachExactlyOnce(ms, n, i) {
      var flag := (j: nat) => ExamplePairFlag(ms, i, j);
      ReportEmpty(n, flag);
      if !MeetsEachExactlyOnce(ms, n, i) {
        var j :| 0 <= j < n && CountWhere(ms, PairIs(i, j)) != 1;
        assert flag(j).Some?;
      }
    }
    if !PairsExactlyOnce(ms, n) {
      var i, j :| 0 <= i < n && 0 <= j < n && CountWhere(ms, PairIs(i, j)) != 1;
      assert !MeetsEachExactlyOnce(ms, n, i);
    }
  }

  lemma ExampleRoundsEmpty(rounds: seq<Round>, m: int)
    ensures ExampleRounds(rounds, m) == [] <==> RoundsAFirst(rounds, m)
  {
    var rf := (r: nat) => ExampleRoundFlag(rounds, m, r);
    ReportEmpty(|rounds|, rf);
    if !RoundsAFirst(rounds, m) {
      var r :| 0 <= r < |rounds| && AFirstCount(rounds[r]) != m;
      assert rf(r).Some?;
    }
  }

  lemma ExampleAsEmpty(ms: seq<Match>, n: nat, m: int)
    ensures ExampleAs(ms, n, m) == [] <==> EachCount(ms, n, AFirstIs, m)
  {
    var af := (i: nat) => ExampleAFlag(ms, m, i);
    ReportEmpty(n, af);
    if !EachCount(ms, n, AFirstIs, m) {
      var i :| 0 <= i < n && CountWhere(ms, AFirstIs(i)) != m;
      assert af(i).Some?;
    }
  }

  lemma ExampleBsEmpty(ms: seq<Match>, n: nat, m: int)
    ensures ExampleBs(ms, n, m) == [] <==> EachCount(ms, n, BFirstIs, m)
  {
    var bf := (j: nat) => ExampleBFlag(ms, m, j);
    ReportEmpty(n, bf);
    if !EachCount(ms, n, BFirstIs, m) {
      var j :| 0 <= j < n && CountWhere(ms, BFirstIs(j)) != m;
      assert bf(j).Some?;
    }
  }

  /** The n = 8 example passes exactly when every pair is played once and
      every round, A-player and B-player has m first moves. */
  lemma ExampleReportEmpty(rounds: seq<Round>, n: nat, m: int)
    ensures ExampleReport(rounds, n, m) == [] <==>
              && PairsExactlyOnce(Flatten(rounds), n)
              && RoundsAFirst(rounds, m)
              && EachCount(Flatten(rounds), n, AFirstIs, m)
              && EachCount(Flatten(rounds), n, BFirstIs, m)
  {
    var ms := Flatten(rounds);
    ExamplePairsEmpty(ms, n);
    ExampleRoundsEmpty(rounds, m);
    ExampleAsEmpty(ms, n, m);
    ExampleBsEmpty(ms, n, m);
  }

  /** The pair part of the n = 8 loops. */
  method ExamplePairIssues(rounds: seq<Round>, n: nat) returns (errs: seq<Issue>)
    ensures errs == ExamplePairs(Flatten(rounds), n)
  {
    var ms := Flatten(rounds);
    var pc := PairTally(rounds);
    errs := [];
    var i := 0;
    while i < n
      invariant i <= n && errs == Concat(i, (x: nat) => ExamplePairRow(ms, x, n))
    {
      var row := ExamplePairRowIssues(rounds, pc, i, n);
      assert Concat(i + 1, (x: nat) => ExamplePairRow(ms, x, n)) == Concat(i, (x: nat) => ExamplePairRow(ms, x, n)) + row;
      errs := errs + row;
      i := i + 1;
    }
  }

  /** The `for j` loop of A_i over the tallied pairs. */
  method ExamplePairRowIssues(ghost rounds: seq<Round>, pc: map<(int, int), nat>, i: nat, n: nat)
    returns (row: seq<Issue>)
    requires TalliesPairs(pc, Flatten(rounds))
    ensures row == ExamplePairRow(Flatten(rounds), i, n)
  {
    ghost var ms := Flatten(rounds);
    row := [];
    var j := 0;
    while j < n
      invariant j <= n && row == ExamplePairRow(ms, i, j)
    {
      var c := Get(pc, (i, j));
      assert c == CountWhere(ms, PairIs(i, j));
      ExamplePairRowNext(ms, i, j);
      if c != 1 {
        row := row + [BadPairCount(i, j, c)];
      }
      j := j + 1;
    }
  }

  lemma ExamplePairRowNext(ms: seq<Match>, i: nat, j: nat)
    ensures ExamplePairRow(ms, i, j + 1) == ExamplePairRow(ms, i, j) + Present(ExamplePairFlag(ms, i, j))
  {
  }

  method ExampleRoundIssues(rounds: seq<Round>, m: int) returns (errs: seq<Issue>)
    ensures errs == ExampleRounds(rounds, m)
  {
    errs := [];
    var r := 0;
    while r < |rounds|
      invariant r <= |rounds| && errs == Report(r, (x: nat) => ExampleRoundFlag(rounds, m, x))
    {
      var af := CountRound(rounds[r], AFirstMatch());
      if af != m {
        errs := errs + [BadRowSum(r, af)];
      }
      r := r + 1;
    }
  }

  /** The first counts of one side: A-players (byA) or B-players. */
  method ExamplePlayerIssues(rounds: seq<Round>, n: nat, m: int, byA: bool) returns (errs: seq<Issue>)
    ensures errs == if byA then ExampleAs(Flatten(rounds), n, m) else ExampleBs(Flatten(rounds), n, m)
  {
    var ms := Flatten(rounds);
    errs := [];
    var i := 0;
    while i < n
      invariant i <= n
      invariant errs == if byA then Report(i, (x: nat) => ExampleAFlag(ms, m, x))
                        else Report(i, (x: nat) => ExampleBFlag(ms, m, x))
    {
      var fc := CountRounds(rounds, if byA then AFirstIs(i) else BFirstIs(i));
      if fc != m {
        errs := errs + [if byA then BadColSum(i, fc) else BadBFirst(i, fc)];
      }
      i := i + 1;
    }
  }

  /** The n = 8 loops: count pairs, then flag pairs, rounds, A and B players. */
  method ExampleIssues(rounds: seq<Round>, n: nat, m: int) returns (errs: seq<Issue>)
    ensures errs == ExampleReport(rounds, n, m)
    ensures errs == [] <==>
              && PairsExactlyOnce(Flatten(rounds), n)
              && RoundsAFirst(rounds, m)
              && EachCount(Flatten(rounds), n, AFirstIs, m)
              && EachCount(Flatten(rounds), n, BFirstIs, m)
  {
    var pairs := ExamplePairIssues(rounds, n);
    var perRound := ExampleRoundIssues(rounds, m);
    var aIssues := ExamplePlayerIssues(rounds, n, m, true);
    var bIssues := ExamplePlayerIssues(rounds, n, m, false);
    errs := pairs + perRound + aIssues + bIssues;
    ExampleReportEmpty(rounds, n, m);
  }
}
