/** solver_fast.verify_and_format: every issue the simulated-annealing
    colouring can have, and the schedule text beside them. */
module FastCheck {
  import opened Tables
  import opened Checks
  import opened Squares
  import opened Schedule

  /** The issues verify_and_format reports, in its order: repeated pairs of
      the row-major walk, row sums, A-first counts, B-second counts, and
      rounds whose B-first count is off. */
  function FastReport(L: Table, F: Table, n: nat, m: int): seq<Issue>
    requires IsSquare(L, n) && IsSquare(F, n)
  {
    RepeatReport(L, n, n) + RowSumReport(F, m, n) + ColSumReport(F, n, m, n)
    + BSecondReport(L, F, n, m, n) + RoundBFirstReport(F, m, n)
  }

  /** Nothing is reported exactly when no pair repeats, F is balanced and
      every round has m B-players first. */
  lemma FastReportEmpty(L: Table, F: Table, n: nat, m: int)
    requires IsSquare(L, n) && IsSquare(F, n)
    ensures FastReport(L, F, n, m) == [] <==>
              NoRepeatedPair(L, n) && Balanced(L, F, n, m) && RoundsBalanced(F, n, m)
  {
    RepeatReportMeansNoRepeat(L, n);
    RowSumReportEmpty(F, n, m);
    ColSumReportEmpty(F, n, m);
    BSecondReportEmpty(L, F, n, m);
    RoundBFirstReportEmpty(F, n, m);
  }

  /** On a Latin square the pair part is silent, so only the colouring is judged. */
  lemma FastReportOnLatin(L: Table, F: Table, n: nat, m: int)
    requires IsSquare(L, n) && IsSquare(F, n) && IsLatin(L, n)
    ensures FastReport(L, F, n, m) == [] <==> Balanced(L, F, n, m) && RoundsBalanced(F, n, m)
  {
    FastReportEmpty(L, F, n, m);
    ColumnPermsNoRepeatedPair(L, n);
  }

  /** One round of the pair walk: the repeats in round r, and the pairs
      seen once the round is done. */
  method RowRepeatIssues(L: Table, n: nat, r: nat, pairs: set<(int, int)>)
    returns (row: seq<Issue>, after: set<(int, int)>)
    requires IsSquare(L, n) && r < n && pairs == Seen(L, n, r, 0)
    ensures row == RowRepeatReport(L, n, r, n)
    ensures after == Seen(L, n, r + 1, 0)
  {
    row, after := [], pairs;
    var i := 0;
    while i < n
      invariant i <= n
      invariant after == Seen(L, n, r, i)
      invariant row == RowRepeatReport(L, n, r, i)
    {
      var pair := (i, L[r][i]);
      SeenHas(L, n, r, i);
      RowRepeatNext(L, n, r, i);
      if pair in after {
        row := row + [RepeatedPair(i, L[r][i])];
      } else {
        assert row + [] == row;
      }
      SeenStep(L, n, r, i);
      after := after + {pair};
      i := i + 1;
    }
    SeenNextRow(L, n, r);
  }

  /** The whole pair walk: every repeat is recorded and the walk goes on. */
  method RepeatIssues(L: Table, n: nat) returns (errs: seq<Issue>)
    requires IsSquare(L, n)
    ensures errs == RepeatReport(L, n, n)
  {
    errs := [];
    var pairs: set<(int, int)> := {};
    var r := 0;
    while r < n
      invariant r <= n
      invariant pairs == Seen(L, n, r, 0)
      invariant errs == RepeatReport(L, n, r)
    {
      var row;
      row, pairs := RowRepeatIssues(L, n, r, pairs);
      errs := errs + row;
      r := r + 1;
    }
  }

  /** solver_fast.verify_and_format(F, L). */
  method VerifyAndFormat(F: Table, L: Table, n: nat, m: int) returns (errs: seq<Issue>, text: string)
    requires IsSquare(L, n) && IsSquare(F, n)
    ensures errs == FastReport(L, F, n, m)
    ensures errs == [] <==> NoRepeatedPair(L, n) && Balanced(L, F, n, m) && RoundsBalanced(F, n, m)
    ensures text == JoinLines(RoundLines(L, F, n))
  {
    FastReportEmpty(L, F, n, m);
    var e1 := RepeatIssues(L, n);
    var e2 := RowSumIssues(F, n, m);
    var e3 := ColSumIssues(F, n, m);
    var e4 := BSecondIssues(L, F, n, m);
    var e5 := RoundBFirstIssues(F, n, m);
    errs := e1 + e2 + e3 + e4 + e5;
    text := FormatSchedule(L, F, n);
  }
}
