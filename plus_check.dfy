/** verify_n34_plus.py: the balance checks of verify_n34.py in shorter
    form, and the extra rule that no player moves first, or second, in three
    consecutive rounds, counted as violations. */
module PlusCheck {
  import opened Outcomes
  import opened Tables
  import opened Notation
  import opened Tally
  import opened RoundChecks
  import opened Schedule
  import opened Streaks

  // ----- the move patterns -----

  /** seq[r_idx] after round rd: set by every match of the player, so the
      last one wins; 0 when the player does not appear. A_i's entry is 1
      when A_i moves first (byA); B_j's when B_j moves first. */
  function LastFlag(rd: Round, player: int, byA: bool): (v: int)
    ensures v == 0 || v == 1
  {
    if rd == [] then 0
    else
      var x := rd[|rd| - 1];
      if byA && x.a == player then (if x.aFirst then 1 else 0)
      else if !byA && x.b == player then (if !x.aFirst then 1 else 0)
      else LastFlag(rd[..|rd| - 1], player, byA)
  }

  /** The player's sequence: one entry per round. */
  function Pattern(rounds: seq<Round>, player: int, byA: bool): (p: seq<int>)
    ensures |p| == |rounds|
  {
    seq(|rounds|, r requires 0 <= r < |rounds| => LastFlag(rounds[r], player, byA))
  }

  /** `seq = [0]*n`, then `seq[r_idx] = ...` for every match of the player. */
  method BuildPattern(rounds: seq<Round>, player: int, byA: bool) returns (p: seq<int>)
    ensures p == Pattern(rounds, player, byA)
  {
    p := Zeros(|rounds|);
    var r := 0;
    while r < |rounds|
      invariant r <= |rounds| && |p| == |rounds|
      invariant p[..r] == Pattern(rounds, player, byA)[..r]
      invariant forall x :: r <= x < |rounds| ==> p[x] == 0
    {
      var rd := rounds[r];
      var k := 0;
      while k < |rd|
        invariant k <= |rd| && |p| == |rounds|
        invariant p[..r] == Pattern(rounds, player, byA)[..r]
        invariant p[r] == LastFlag(rd[..k], player, byA)
        invariant forall x :: r < x < |rounds| ==> p[x] == 0
      {
        assert rd[..k + 1][..k] == rd[..k];
        var x := rd[k];
        if byA && x.a == player {
          p := p[r := if x.aFirst then 1 else 0];
        } else if !byA && x.b == player {
          p := p[r := if !x.aFirst then 1 else 0];
        }
        k := k + 1;
      }
      assert rd[..|rd|] == rd;
      r := r + 1;
    }
    assert p[..|rounds|] == p;
  }

  /** `seq[r] + seq[r+1] + seq[r+2]` */
  function PatternWindow(p: seq<int>, r: nat): int
    requires r + 2 < |p|
  {
    p[r] + p[r + 1] + p[r + 2]
  }

  /** Violations among the windows starting before k: a sum of 3 counts once,
      a sum of 0 counts once. */
  function WindowViolations(p: seq<int>, k: nat): nat
    requires k <= Windows(|p|)
  {
    if k == 0 then 0
    else
      var s := PatternWindow(p, k - 1);
      WindowViolations(p, k - 1) + (if s == 3 then 1 else 0) + (if s == 0 then 1 else 0)
  }

  /** No three-round window of the pattern has a constant sum of 0 or 3. */
  predicate NoThreeIn(p: seq<int>)
  {
    forall r :: 0 <= r && r + 2 < |p| ==> PatternWindow(p, r) != 0 && PatternWindow(p, r) != 3
  }

  lemma {:induction false} WindowViolationsZero(p: seq<int>, k: nat)
    requires k <= Windows(|p|)
    ensures WindowViolations(p, k) == 0 <==>
              forall r :: 0 <= r < k ==> PatternWindow(p, r) != 0 && PatternWindow(p, r) != 3
  {
    if k > 0 {
      WindowViolationsZero(p, k - 1);
    }
  }

  /** Violations of players 0..k-1 of one side. */
  function SideViolations(rounds: seq<Round>, k: nat, byA: bool): nat
  {
    if k == 0 then 0
    else
      var p := Pattern(rounds, k - 1, byA);
      SideViolations(rounds, k - 1, byA) + WindowViolations(p, Windows(|p|))
  }

  /** Every player 0..k-1 of the side keeps the rule. */
  predicate NoThreeFor(rounds: seq<Round>, k: nat, byA: bool)
  {
    forall i :: 0 <= i < k ==> NoThreeIn(Pattern(rounds, i, byA))
  }

  lemma {:induction false} SideViolationsZero(rounds: seq<Round>, k: nat, byA: bool)
    ensures SideViolations(rounds, k, byA) == 0 <==> NoThreeFor(rounds, k, byA)
  {
    if k > 0 {
      SideViolationsZero(rounds, k - 1, byA);
      var p := Pattern(rounds, k - 1, byA);
      WindowViolationsZero(p, Windows(|p|));
    }
  }

  lemma SideViolationsStep(rounds: seq<Round>, i: nat, byA: bool, v: nat)
    requires v == WindowViolations(Pattern(rounds, i, byA), Windows(|rounds|))
    ensures SideViolations(rounds, i + 1, byA) == SideViolations(rounds, i, byA) + v
  {
  }

  /** The pattern of player i, then its windows. */
  method PlayerViolations(rounds: seq<Round>, i: nat, byA: bool) returns (v: nat)
    ensures v == WindowViolations(Pattern(rounds, i, byA), Windows(|rounds|))
  {
    var p := BuildPattern(rounds, i, byA);
    v := CountWindows(p);
  }

  /** `for r in range(n - 2)`: the violations of one pattern. */
  method CountWindows(p: seq<int>) returns (v: nat)
    ensures v == WindowViolations(p, Windows(|p|))
  {
    v := 0;
    var r := 0;
    while r < Windows(|p|)
      invariant r <= Windows(|p|) && v == WindowViolations(p, r)
    {
      var s := p[r] + p[r + 1] + p[r + 2];
      if s == 3 {
        v := v + 1;
      }
      if s == 0 {
        v := v + 1;
      }
      r := r + 1;
    }
  }

  /** The no-3-consecutive loop of one side: ok stays true exactly when no
      violation is counted. */
  method ThreeCheck(rounds: seq<Round>, n: nat, byA: bool) returns (ok: bool, violations: nat)
    requires |rounds| == n
    ensures violations == SideViolations(rounds, n, byA)
    ensures ok <==> violations == 0
    ensures ok <==> NoThreeFor(rounds, n, byA)
  {
    ok, violations := true, 0;
    var i := 0;
    while i < n
      invariant i <= n && violations == SideViolations(rounds, i, byA)
      invariant ok <==> violations == 0
    {
      var v := PlayerViolations(rounds, i, byA);
      SideViolationsStep(rounds, i, byA, v);
      violations := violations + v;
      ok := ok && v == 0;
      i := i + 1;
    }
    NoViolationsVerdict(rounds, n, byA, violations, ok);
  }

  lemma NoViolationsVerdict(rounds: seq<Round>, n: nat, byA: bool, violations: nat, ok: bool)
    requires violations == SideViolations(rounds, n, byA) && (ok <==> violations == 0)
    ensures ok <==> NoThreeFor(rounds, n, byA)
  {
    SideViolationsZero(rounds, n, byA);
  }

  // ----- the script -----

  /** all_pass, checks, and the violation counts of the two sides. */
  datatype PlusVerdict = PlusVerdict(allPass: bool, checks: nat, aViolations: nat, bViolations: nat)

  /** The pair, player and balance checks: every pair once, both sides
      permutations in every round, m A-players first per round, and every
      player first m times. */
  predicate PlusBalanced(rounds: seq<Round>, n: nat, m: int)
  {
    var ms := Flatten(rounds);
    && PairsExactlyOnce(ms, n)
    && APlayersPerRound(rounds, n) && BPlayersPerRound(rounds, n)
    && RoundsAFirst(rounds, m)
    && EachCount(ms, n, AFirstIs, m)
    && EachCount(ms, n, BFirstIs, m)
  }

  /** The eight checks once the round count is right. */
  predicate PlusChecks(rounds: seq<Round>, n: nat, m: int)
  {
    PlusBalanced(rounds, n, m) && NoThreeFor(rounds, n, true) && NoThreeFor(rounds, n, false)
  }

  /** What the script ends with: the failed `assert` on the round count, or
      its verdict. */
  function PlusOutcome(rounds: seq<Round>, n: nat, m: int): Result<PlusVerdict>
  {
    if |rounds| != n then Err(AssertionError)
    else Ok(PlusVerdict(PlusChecks(rounds, n, m), 8,
                        SideViolations(rounds, n, true), SideViolations(rounds, n, false)))
  }

  /** `ok = all(pc.get((i, j), 0) == 1 for i ... for j ...)` */
  method PairsOnceCheck(rounds: seq<Round>, n: nat) returns (ok: bool)
    ensures ok <==> PairsExactlyOnce(Flatten(rounds), n)
  {
    var ms := Flatten(rounds);
    var pc := PairTally(rounds);
    ok := true;
    var i := 0;
    while i < n
      invariant i <= n
      invariant ok <==> forall x, y :: 0 <= x < i && 0 <= y < n ==> CountWhere(ms, PairIs(x, y)) == 1
    {
      var j := 0;
      while j < n
        invariant j <= n
        invariant ok <==> (forall x, y :: 0 <= x < i && 0 <= y < n ==> CountWhere(ms, PairIs(x, y)) == 1)
                          && (forall y :: 0 <= y < j ==> CountWhere(ms, PairIs(i, y)) == 1)
      {
        if Get(pc, (i, j)) != 1 {
          ok := false;
        }
        j := j + 1;
      }
      i := i + 1;
    }
  }

  /** The script after reading the file. */
  method VerifyN34Plus(rounds: seq<Round>, n: nat, m: int) returns (outcome: Result<PlusVerdict>)
    ensures outcome == PlusOutcome(rounds, n, m)
  {
    var checks := 1;
    if |rounds| != n {
      return Err(AssertionError);
    }
    var allPass := BalanceChecks(rounds, n, m);
    checks := checks + 5;
    checks := checks + 1;
    var aThreeOk, aViolations := ThreeCheck(rounds, n, true);
    allPass := allPass && aThreeOk;
    checks := checks + 1;
    var bThreeOk, bViolations := ThreeCheck(rounds, n, false);
    allPass := allPass && bThreeOk;
    outcome := Ok(PlusVerdict(allPass, checks, aViolations, bViolations));
  }

  /** Checks 2 to 6 of the script, each and-ed into all_pass. */
  method BalanceChecks(rounds: seq<Round>, n: nat, m: int) returns (allPass: bool)
    ensures allPass <==> PlusBalanced(rounds, n, m)
  {
    allPass := true;
    var pairsOk := PairsOnceCheck(rounds, n);
    allPass := allPass && pairsOk;
    var playersOk := PlayersPerRoundCheck(rounds, n);
    allPass := allPass && playersOk;
    var roundOk := RoundsAFirstCheck(rounds, m);
    allPass := allPass && roundOk;
    var aOk := EachCountCheck(rounds, n, AFirstIs, m);
    allPass := allPass && aOk;
    var bOk := EachCountCheck(rounds, n, BFirstIs, m);
    allPass := allPass && bOk;
  }

  // ----- reading the solution file -----

  /** The script on a file: an exception while reading ends it, otherwise
      the rounds read are verified. */
  function PlusFileOutcome(lines: seq<string>, n: nat, m: int, step: string -> Option<Result<Round>>)
    : Result<PlusVerdict>
  {
    var rounds := ReadRows(lines, step);
    if rounds.Err? then Err(rounds.fault) else PlusOutcome(rounds.value, n, m)
  }

  /** The script as written, keeping only lines that start with "ç¬¬". */
  method VerifyN34PlusFileAsWritten(lines: seq<string>, n: nat, m: int) returns (outcome: Result<PlusVerdict>)
    ensures outcome == PlusFileOutcome(lines, n, m, N34PlusStepAsWritten)
  {
    var rounds := ReadLines(lines, N34PlusStepAsWritten);
    if rounds.Err? {
      return Err(rounds.fault);
    }
    outcome := VerifyN34Plus(rounds.value, n, m);
  }

  /** The script with the filter it means, keeping lines that start with 第. */
  method VerifyN34PlusFile(lines: seq<string>, n: nat, m: int) returns (outcome: Result<PlusVerdict>)
    ensures outcome == PlusFileOutcome(lines, n, m, N34PlusStep)
  {
    var rounds := ReadLines(lines, N34PlusStep);
    if rounds.Err? {
      return Err(rounds.fault);
    }
    outcome := VerifyN34Plus(rounds.value, n, m);
  }

  /** As written, the script stops at its round-count assertion on every
      solution file the n = 34 writers produce, whatever the colouring. */
  lemma MojibakeFilterAborts(head: seq<string>, L: Table, F: Table, n: nat, tail: seq<string>, m: int)
    requires IsSquare(L, n) && IsSquare(F, n) && n > 0
    requires forall k :: 0 <= k < |head| ==> CommentLine(head[k])
    requires forall k :: 0 <= k < |tail| ==> CommentLine(tail[k])
    ensures PlusFileOutcome(SolutionFile(head, L, F, n, tail), n, m, N34PlusStepAsWritten) == Err(AssertionError)
  {
    MojibakeReadsNothing(head, L, F, n, tail);
  }

  /** With the intended filter the script reads the written rounds back and
      judges them: the assertion holds and the verdict is that of the rounds. */
  lemma IntendedFilterVerifies(head: seq<string>, L: Table, F: Table, n: nat, tail: seq<string>, m: int)
    requires IsSquare(L, n) && IsSquare(F, n) && n > 0
    requires forall r, i :: 0 <= r < n && 0 <= i < n ==> L[r][i] >= 0
    requires forall k :: 0 <= k < |head| ==> CommentLine(head[k])
    requires forall k :: 0 <= k < |tail| ==> CommentLine(tail[k])
    ensures PlusFileOutcome(SolutionFile(head, L, F, n, tail), n, m, N34PlusStep).Ok?
    ensures PlusFileOutcome(SolutionFile(head, L, F, n, tail), n, m, N34PlusStep).value.allPass <==>
              PlusChecks(RoundsOf(L, F, n), n, m)
  {
    SolutionFileRoundTrip(head, L, F, n, tail);
  }
}
