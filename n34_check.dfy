/** verify_n34.py: seven checks of a solution file's rounds. Unlike
    verify_solution.py it counts duplicates over every key of its pair
    dictionary, and checks only A-first counts per round. */
module N34Check {
  import opened Outcomes
  import opened Tables
  import opened Notation
  import opened Checks
  import opened Tally
  import opened RoundChecks
  import opened Schedule
  import SolutionCheck

  /** The keys of the pair dictionary seen more than once. */
  function DuplicateKeys(pc: map<(int, int), nat>): set<(int, int)>
  {
    set key | key in pc && pc[key] > 1
  }

  /** No pair, in range or not, is played twice. */
  ghost predicate NoPairTwice(ms: seq<Match>)
  {
    forall a, b :: CountWhere(ms, PairIs(a, b)) <= 1
  }

  /** `sum(1 for p, c in pair_count.items() if c > 1)` */
  method CountDuplicateKeys(pc: map<(int, int), nat>) returns (dups: nat)
    ensures dups == |DuplicateKeys(pc)|
  {
    dups := 0;
    var todo := pc.Keys;
    while todo != {}
      invariant todo <= pc.Keys
      invariant dups == |set key | key in pc && key !in todo && pc[key] > 1|
      decreases |todo|
    {
      var key :| key in todo;
      var before := set x | x in pc && x !in todo && pc[x] > 1;
      var after := set x | x in pc && x !in todo - {key} && pc[x] > 1;
      if pc[key] > 1 {
        assert after == before + {key};
        dups := dups + 1;
      } else {
        assert after == before;
      }
      todo := todo - {key};
    }
    assert DuplicateKeys(pc) == set key | key in pc && key !in todo && pc[key] > 1;
  }

  /** No key of a true tally has a count above one exactly when no pair is played twice. */
  lemma DuplicateKeysMeaning(pc: map<(int, int), nat>, ms: seq<Match>)
    requires TalliesPairs(pc, ms)
    ensures |DuplicateKeys(pc)| == 0 <==> NoPairTwice(ms)
  {
    if |DuplicateKeys(pc)| != 0 {
      var key :| key in DuplicateKeys(pc);
      var (a, b) := key;
      assert Get(pc, (a, b)) > 1;
      assert CountWhere(ms, PairIs(a, b)) > 1;
    }
    if !NoPairTwice(ms) {
      var a, b :| CountWhere(ms, PairIs(a, b)) > 1;
      assert Get(pc, (a, b)) > 1;
      assert (a, b) in DuplicateKeys(pc);
      assert |DuplicateKeys(pc)| >= |{(a, b)}| by {
        assert {(a, b)} <= DuplicateKeys(pc);
      }
    }
  }

  /** With every index in range, "no key twice" is "no in-range pair twice". */
  lemma NoPairTwiceInRange(ms: seq<Match>, n: nat)
    requires MatchesInRange(ms, n)
    ensures NoPairTwice(ms) <==> NoneDuplicate(ms, n)
  {
    if NoneDuplicate(ms, n) {
      forall a, b ensures CountWhere(ms, PairIs(a, b)) <= 1 {
        if 0 <= a < n && 0 <= b < n {
          assert MeetsNoneTwice(ms, n, a);
        } else {
          PairNeverOut(ms, n, a, b);
        }
      }
    }
  }

  /** `sum(1 for i in range(n) for j in range(n) if pair_count.get((i,j),0) == 0)` */
  method CountMissing(pc: map<(int, int), nat>, ms: seq<Match>, n: nat) returns (missing: nat)
    requires TalliesPairs(pc, ms)
    ensures missing == |MissingReport(ms, n, n)|
  {
    missing := 0;
    var i := 0;
    while i < n
      invariant i <= n && missing == |MissingReport(ms, n, i)|
    {
      var j := 0;
      while j < n
        invariant j <= n && missing == |MissingReport(ms, n, i) + MissingRow(ms, i, j)|
      {
        if Get(pc, (i, j)) == 0 {
          missing := missing + 1;
        }
        j := j + 1;
      }
      i := i + 1;
    }
  }

  /** The seven checks, in the script's order. */
  ghost predicate N34Checks(rounds: seq<Round>, n: nat, m: int)
  {
    var ms := Flatten(rounds);
    && |rounds| == n
    && RoundSizes(rounds, n)
    && NoneMissing(ms, n) && NoPairTwice(ms)
    && APlayersPerRound(rounds, n) && BPlayersPerRound(rounds, n)
    && RoundsAFirst(rounds, m)
    && EachCount(ms, n, AFirstIs, m)
    && EachCount(ms, n, BFirstIs, m)
  }

  /** The seven checks pass exactly when: n rounds, every player once per
      round, every pair exactly once, m A-players first in every round, and
      every player first m times. */
  lemma N34ChecksMeaning(rounds: seq<Round>, n: nat, m: int)
    ensures N34Checks(rounds, n, m) <==>
              && |rounds| == n
              && APlayersPerRound(rounds, n) && BPlayersPerRound(rounds, n)
              && PairsExactlyOnce(Flatten(rounds), n)
              && RoundsAFirst(rounds, m)
              && EachCount(Flatten(rounds), n, AFirstIs, m)
              && EachCount(Flatten(rounds), n, BFirstIs, m)
  {
    var ms := Flatten(rounds);
    NoMissingNoDuplicate(ms, n);
    if APlayersPerRound(rounds, n) && BPlayersPerRound(rounds, n) {
      RoundsInRange(rounds, n);
      NoPairTwiceInRange(ms, n);
    }
  }

  /** With n == 2m the two independent verifiers agree on every schedule. */
  lemma AgreesWithSolutionCheck(rounds: seq<Round>, n: nat, m: int)
    requires n == 2 * m
    ensures N34Checks(rounds, n, m) <==> SolutionCheck.AllChecks(rounds, n, m)
  {
    N34ChecksMeaning(rounds, n, m);
    SolutionCheck.AllChecksMeaning(rounds, n, m);
  }

  /** Constraint 1: the dictionary, the missing count and the duplicate count. */
  method N34PairCheck(rounds: seq<Round>, n: nat) returns (missing: nat, dups: nat)
    ensures missing == |MissingReport(Flatten(rounds), n, n)|
    ensures missing == 0 <==> NoneMissing(Flatten(rounds), n)
    ensures dups == 0 <==> NoPairTwice(Flatten(rounds))
  {
    var ms := Flatten(rounds);
    var pc := PairTally(rounds);
    missing := CountMissing(pc, ms, n);
    dups := CountDuplicateKeys(pc);
    MissingReportEmpty(ms, n);
    DuplicateKeysMeaning(pc, ms);
  }

  /** The script after reading: all_pass and checks. */
  method VerifyN34(rounds: seq<Round>, n: nat, m: int) returns (allPass: bool, checks: nat)
    ensures checks == 7
    ensures allPass <==> N34Checks(rounds, n, m)
  {
    allPass, checks := true, 0;
    checks := checks + 1;
    if |rounds| != n {
      allPass := false;
    }
    checks := checks + 1;
    var sizesOk := RoundSizesCheck(rounds, n);
    allPass := allPass && sizesOk;
    checks := checks + 1;
    var missing, dups := N34PairCheck(rounds, n);
    allPass := allPass && missing == 0 && dups == 0;
    checks := checks + 1;
    var playersOk := PlayersPerRoundCheck(rounds, n);
    allPass := allPass && playersOk;
    checks := checks + 1;
    var roundOk := RoundsAFirstCheck(rounds, m);
    allPass := allPass && roundOk;
    checks := checks + 1;
    var aOk := EachCountCheck(rounds, n, AFirstIs, m);
    allPass := allPass && aOk;
    checks := checks + 1;
    var bOk := EachCountCheck(rounds, n, BFirstIs, m);
    allPass := allPass && bOk;
  }

  /** Read the file's lines (skipping blank, '#' and unlabelled lines), then verify. */
  method VerifyN34File(lines: seq<string>, n: nat, m: int) returns (verdict: Result<bool>)
    ensures verdict.Err? <==> ReadRows(lines, N34Step).Err?
    ensures verdict.Ok? ==> (verdict.value <==> N34Checks(ReadRows(lines, N34Step).value, n, m))
  {
    var rounds := ReadLines(lines, N34Step);
    if rounds.Err? {
      return Err(rounds.fault);
    }
    var allPass, _ := VerifyN34(rounds.value, n, m);
    verdict := Ok(allPass);
  }
}
