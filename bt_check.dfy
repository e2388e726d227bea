/** solver_bt's own checker `verify_full`, and the try-each-square loop of
    its `main`: build a pairing table, check it, search for a colouring,
    check the colouring, write the schedule. */
module BtCheck {
  import opened Outcomes
  import opened Tables
  import opened Checks
  import opened Squares
  import opened Inverse
  import opened Backtrack
  import opened Schedule

  // ----- pair counts -----

  /** `count = sum(1 for r in range(n) if L[r][i] == j)`; flagged unless 1. */
  function PairFlag(L: Table, n: nat, i: nat, j: nat): Option<Issue>
    requires IsSquare(L, n)
  {
    if i < n && PairCount(L, n, i, j) != 1 then Some(BadPairCount(i, j, PairCount(L, n, i, j))) else None
  }

  function PairRowReport(L: Table, n: nat, i: nat, k: nat): seq<Issue>
    requires IsSquare(L, n)
  {
    Report(k, (j: nat) => PairFlag(L, n, i, j))
  }

  /** The pair-count issues of players A_0..A_{k-1}, in loop order. */
  function PairPrefix(L: Table, n: nat, k: nat): seq<Issue>
    requires IsSquare(L, n)
  {
    Concat(k, (i: nat) => PairRowReport(L, n, i, n))
  }

  /** A_i meets every B-player exactly once. */
  predicate MeetsEachOnce(L: Table, n: nat, i: nat)
    requires IsSquare(L, n) && i < n
  {
    forall j :: 0 <= j < n ==> PairCount(L, n, i, j) == 1
  }

  predicate PairsOnce(L: Table, n: nat)
    requires IsSquare(L, n)
  {
    forall i :: 0 <= i < n ==> MeetsEachOnce(L, n, i)
  }

  lemma PairRowReportEmpty(L: Table, n: nat, i: nat)
    requires IsSquare(L, n) && i < n
    ensures PairRowReport(L, n, i, n) == [] <==> MeetsEachOnce(L, n, i)
  {
    var flag := (j: nat) => PairFlag(L, n, i, j);
    ReportEmpty(n, flag);
    if !(forall j :: 0 <= j < n ==> PairCount(L, n, i, j) == 1) {
      var j :| 0 <= j < n && PairCount(L, n, i, j) != 1;
      assert flag(j).Some?;
    }
  }

  lemma PairReportEmpty(L: Table, n: nat)
    requires IsSquare(L, n)
    ensures PairPrefix(L, n, n) == [] <==> PairsOnce(L, n)
  {
    var g := (i: nat) => PairRowReport(L, n, i, n);
    ConcatEmpty(n, g);
    forall i | 0 <= i < n
      ensures g(i) == [] <==> MeetsEachOnce(L, n, i)
    {
      PairRowReportEmpty(L, n, i);
    }
  }

  /** Every pair meets exactly once exactly when every column of L is a
      permutation of 0..n-1. */
  lemma PairsOnceIffColumnsPerms(L: Table, n: nat)
    requires IsSquare(L, n)
    ensures PairsOnce(L, n) <==> ColumnsArePerms(L, n)
  {
    if PairsOnce(L, n) {
      forall i | 0 <= i < n ensures IsPerm(Column(L, i), n) {
        var c := Column(L, i);
        forall v | 0 <= v < n ensures v in c {
          assert MeetsEachOnce(L, n, i);
          assert PairCount(L, n, i, v) == 1;
          assert v in multiset(c);
        }
        CoversIsPerm(c, n);
      }
    }
    if ColumnsArePerms(L, n) {
      forall i, j | 0 <= i < n && 0 <= j < n ensures PairCount(L, n, i, j) == 1 {
        assert IsPerm(Column(L, i), n);
        RangeCount(n, j);
      }
    }
  }

  method CountPair(L: Table, n: nat, i: nat, j: int) returns (count: nat)
    requires IsSquare(L, n) && i < n
    ensures count == PairCount(L, n, i, j)
  {
    var c := Column(L, i);
    count := 0;
    var r := 0;
    while r < n
      invariant r <= n && count == multiset(c[..r])[j]
    {
      assert c[..r + 1] == c[..r] + [L[r][i]];
      if L[r][i] == j {
        count := count + 1;
      }
      r := r + 1;
    }
    assert c[..n] == c;
  }

  method PairIssues(L: Table, n: nat) returns (errs: seq<Issue>)
    requires IsSquare(L, n)
    ensures errs == PairPrefix(L, n, n)
  {
    errs := [];
    var i := 0;
    while i < n
      invariant i <= n && errs == PairPrefix(L, n, i)
    {
      var row := RowPairIssues(L, n, i);
      PairPrefixNext(L, n, i);
      errs := errs + row;
      i := i + 1;
    }
  }

  /** The `for j` loop of A_i. */
  method RowPairIssues(L: Table, n: nat, i: nat) returns (row: seq<Issue>)
    requires IsSquare(L, n) && i < n
    ensures row == PairRowReport(L, n, i, n)
  {
    row := [];
    var j := 0;
    while j < n
      invariant j <= n && row == PairRowReport(L, n, i, j)
    {
      var count := CountPair(L, n, i, j);
      PairRowNext(L, n, i, j);
      if count != 1 {
        row := row + [BadPairCount(i, j, count)];
      }
      j := j + 1;
    }
  }

  lemma PairRowNext(L: Table, n: nat, i: nat, j: nat)
    requires IsSquare(L, n)
    ensures PairRowReport(L, n, i, j + 1) == PairRowReport(L, n, i, j) + Present(PairFlag(L, n, i, j))
  {
  }

  lemma PairPrefixNext(L: Table, n: nat, i: nat)
    requires IsSquare(L, n)
    ensures PairPrefix(L, n, i + 1) == PairPrefix(L, n, i) + PairRowReport(L, n, i, n)
  {
  }

  // ----- B balance through the first matching column -----

  /** B_j's second count over rounds 0..k-1 as verify_full computes it: the
      colour of the first column meeting B_j. A round where B_j meets nobody
      makes `F[r][None]` raise TypeError. */
  function MatchSecondUpTo(L: Table, F: Table, n: nat, j: int, k: nat): Result<nat>
    requires IsSquare(L, n) && IsSquare(F, n) && k <= n
  {
    if k == 0 then Ok(0)
    else
      var prev := MatchSecondUpTo(L, F, n, j, k - 1);
      var p := FirstMatch(L[k - 1], j, 0);
      if prev.Err? then prev
      else if p.None? then Err(TypeError)
      else Ok(prev.value + if F[k - 1][p.value] == 1 then 1 else 0)
  }

  lemma {:induction false} MatchSecondErr(L: Table, F: Table, n: nat, j: int, k: nat)
    requires IsSquare(L, n) && IsSquare(F, n) && k <= n
    ensures MatchSecondUpTo(L, F, n, j, k).Err? <==> exists r :: 0 <= r < k && j !in L[r]
    ensures MatchSecondUpTo(L, F, n, j, k).Err? ==> MatchSecondUpTo(L, F, n, j, k).fault == TypeError
  {
    if k > 0 {
      MatchSecondErr(L, F, n, j, k - 1);
      var p := FirstMatch(L[k - 1], j, 0);
      if p.None? {
        assert j !in L[k - 1];
      } else {
        assert j in L[k - 1];
      }
    }
  }

  /** For permutation rows the first match is the only match, so verify_full
      counts exactly B_j's seconds. */
  lemma {:induction false} MatchSecondPerm(L: Table, F: Table, n: nat, j: int, k: nat)
    requires IsSquare(L, n) && IsSquare(F, n) && RowsArePerms(L, n) && 0 <= j < n && k <= n
    ensures MatchSecondUpTo(L, F, n, j, k) == Ok(BSecondUpTo(L, F, n, j, k))
  {
    if k > 0 {
      MatchSecondPerm(L, F, n, j, k - 1);
      var row := L[k - 1];
      InverseInverts(row, n, j);
      RoundHitsAtInverse(row, F[k - 1], n, j, n);
      assert FirstMatch(row, j, 0) == Some(LastIndex(row, j, n));
    }
  }

  function MatchFlag(L: Table, F: Table, n: nat, m: int, j: nat): Result<Option<Issue>>
    requires IsSquare(L, n) && IsSquare(F, n)
  {
    var second := MatchSecondUpTo(L, F, n, j, n);
    if second.Err? then Err(second.fault)
    else if second.value != m then Ok(Some(BadBSecond(j, second.value)))
    else Ok(None)
  }

  /** The B-balance issues of B_0..B_{k-1}, or the exception that ends the check. */
  function MatchReport(L: Table, F: Table, n: nat, m: int, k: nat): Result<seq<Issue>>
    requires IsSquare(L, n) && IsSquare(F, n)
  {
    if k == 0 then Ok([])
    else
      var prev := MatchReport(L, F, n, m, k - 1);
      var flag := MatchFlag(L, F, n, m, k - 1);
      if prev.Err? then prev
      else if flag.Err? then Err(flag.fault)
      else Ok(prev.value + Present(flag.value))
  }

  lemma MatchReportStep(L: Table, F: Table, n: nat, m: int, j: nat, acc: seq<Issue>, second: nat)
    requires IsSquare(L, n) && IsSquare(F, n)
    requires MatchReport(L, F, n, m, j) == Ok(acc) && MatchSecondUpTo(L, F, n, j, n) == Ok(second)
    ensures second != m ==> MatchReport(L, F, n, m, j + 1) == Ok(acc + [BadBSecond(j, second)])
    ensures second == m ==> MatchReport(L, F, n, m, j + 1) == Ok(acc)
  {
    assert acc + [] == acc;
    assert MatchFlag(L, F, n, m, j) == Ok(if second != m then Some(BadBSecond(j, second)) else None);
  }

  lemma {:induction false} MatchReportErr(L: Table, F: Table, n: nat, m: int, k: nat)
    requires IsSquare(L, n) && IsSquare(F, n) && k <= n
    ensures MatchReport(L, F, n, m, k).Err? <==> exists j :: 0 <= j < k && Absent(L, n, j)
  {
    if k > 0 {
      MatchReportErr(L, F, n, m, k - 1);
      MatchSecondErr(L, F, n, k - 1, n);
      MatchReportErrStep(L, F, n, m, k);
    }
  }

  lemma MatchReportErrStep(L: Table, F: Table, n: nat, m: int, k: nat)
    requires IsSquare(L, n) && IsSquare(F, n) && 0 < k <= n
    requires MatchReport(L, F, n, m, k - 1).Err? <==> exists j :: 0 <= j < k - 1 && Absent(L, n, j)
    requires MatchSecondUpTo(L, F, n, k - 1, n).Err? <==> exists r :: 0 <= r < n && k - 1 !in L[r]
    ensures MatchReport(L, F, n, m, k).Err? <==> exists j :: 0 <= j < k && Absent(L, n, j)
  {
    assert MatchSecondUpTo(L, F, n, k - 1, n).Err? <==> Absent(L, n, k - 1);
  }

  lemma {:induction false} MatchReportPerm(L: Table, F: Table, n: nat, m: int, k: nat)
    requires IsSquare(L, n) && IsSquare(F, n) && RowsArePerms(L, n) && k <= n
    ensures MatchReport(L, F, n, m, k) == Ok(BSecondReport(L, F, n, m, k))
  {
    if k > 0 {
      MatchReportPerm(L, F, n, m, k - 1);
      MatchReportPermStep(L, F, n, m, k);
    }
  }

  lemma MatchReportPermStep(L: Table, F: Table, n: nat, m: int, k: nat)
    requires IsSquare(L, n) && IsSquare(F, n) && RowsArePerms(L, n) && 0 < k <= n
    requires MatchReport(L, F, n, m, k - 1) == Ok(BSecondReport(L, F, n, m, k - 1))
    ensures MatchReport(L, F, n, m, k) == Ok(BSecondReport(L, F, n, m, k))
  {
    MatchSecondPerm(L, F, n, k - 1, n);
  }

  // ----- verify_full -----

  /** What verify_full returns: the pair, row, column, B and round issues in
      that order, or the TypeError of a round that misses some B-player. */
  function FullReport(L: Table, F: Table, n: nat, m: int): Result<seq<Issue>>
    requires IsSquare(L, n) && IsSquare(F, n)
  {
    var b := MatchReport(L, F, n, m, n);
    if b.Err? then Err(b.fault)
    else Ok(PairPrefix(L, n, n) + RowSumReport(F, m, n) + ColSumReport(F, n, m, n)
            + b.value + RoundBFirstReport(F, m, n))
  }

  /** verify_full raises exactly when some round misses a B-player, and
      finds nothing exactly when L is Latin and F is balanced. */
  lemma FullReportClean(L: Table, F: Table, n: nat, m: int)
    requires IsSquare(L, n) && IsSquare(F, n) && RowsArePerms(L, n)
    ensures FullReport(L, F, n, m) == Ok(PairPrefix(L, n, n) + RowSumReport(F, m, n) + ColSumReport(F, n, m, n)
              + BSecondReport(L, F, n, m, n) + RoundBFirstReport(F, m, n))
  {
    MatchReportPerm(L, F, n, m, n);
  }

  lemma FullReportCleanEmpty(L: Table, F: Table, n: nat, m: int)
    requires IsSquare(L, n) && IsSquare(F, n) && RowsArePerms(L, n)
    ensures FullReport(L, F, n, m) == Ok([]) <==>
              IsLatin(L, n) && Balanced(L, F, n, m) && RoundsBalanced(F, n, m)
  {
    FullReportClean(L, F, n, m);
    var p, rs, cs, bs, rb := PairPrefix(L, n, n), RowSumReport(F, m, n), ColSumReport(F, n, m, n),
                             BSecondReport(L, F, n, m, n), RoundBFirstReport(F, m, n);
    ConcatNil(p + rs + cs + bs, rb);
    ConcatNil(p + rs + cs, bs);
    ConcatNil(p + rs, cs);
    ConcatNil(p, rs);
    PairReportEmpty(L, n);
    PairsOnceIffColumnsPerms(L, n);
    RowSumReportEmpty(F, n, m);
    ColSumReportEmpty(F, n, m);
    BSecondReportEmpty(L, F, n, m);
    RoundBFirstReportEmpty(F, n, m);
  }

  /** verify_full raises exactly when some round misses a B-player, and
      finds nothing exactly when L is Latin and F is balanced. */
  lemma FullReportMeaning(L: Table, F: Table, n: nat, m: int)
    requires IsSquare(L, n) && IsSquare(F, n)
    ensures FullReport(L, F, n, m).Err? <==> MissesSomeone(L, n)
    ensures FullReport(L, F, n, m) == Ok([]) <==>
              IsLatin(L, n) && Balanced(L, F, n, m) && RoundsBalanced(F, n, m)
  {
    MatchReportErr(L, F, n, m, n);
    if MissesSomeone(L, n) {
      var j :| 0 <= j < n && Absent(L, n, j);
      var r :| 0 <= r < n && j !in L[r];
      if IsPerm(L[r], n) {
        PermHasEach(L[r], n, j);
      }
    } else {
      forall r | 0 <= r < n ensures IsPerm(L[r], n) {
        forall v | 0 <= v < n ensures v in L[r] {
          assert !Absent(L, n, v);
        }
        CoversIsPerm(L[r], n);
      }
      FullReportCleanEmpty(L, F, n, m);
    }
  }

  /** The inner loop of the B-balance check, for one B-player. */
  method CountSecond(L: Table, F: Table, n: nat, j: int) returns (second: Result<nat>)
    requires IsSquare(L, n) && IsSquare(F, n)
    ensures second == MatchSecondUpTo(L, F, n, j, n)
  {
    var count := 0;
    var r := 0;
    while r < n
      invariant r <= n && MatchSecondUpTo(L, F, n, j, r) == Ok(count)
    {
      var p := FindMatch(L[r], j);
      if p.None? {
        MatchSecondStuck(L, F, n, j, r + 1);
        return Err(TypeError);
      }
      if F[r][p.value] == 1 {
        count := count + 1;
      }
      r := r + 1;
    }
    second := Ok(count);
  }

  method MatchIssues(L: Table, F: Table, n: nat, m: int) returns (errs: Result<seq<Issue>>)
    requires IsSquare(L, n) && IsSquare(F, n)
    ensures errs == MatchReport(L, F, n, m, n)
  {
    var acc: seq<Issue> := [];
    var j := 0;
    while j < n
      invariant j <= n && MatchReport(L, F, n, m, j) == Ok(acc)
    {
      var second := CountSecond(L, F, n, j);
      if second.Err? {
        MatchSecondErr(L, F, n, j, n);
        MatchReportStuck(L, F, n, m, j + 1);
        return Err(TypeError);
      }
      MatchReportStep(L, F, n, m, j, acc, second.value);
      if second.value != m {
        acc := acc + [BadBSecond(j, second.value)];
      }
      j := j + 1;
    }
    errs := Ok(acc);
  }

  /** Once a round raises, B_j's count raises. */
  lemma {:induction false} MatchSecondStuck(L: Table, F: Table, n: nat, j: int, k: nat)
    requires IsSquare(L, n) && IsSquare(F, n) && k <= n && MatchSecondUpTo(L, F, n, j, k).Err?
    ensures MatchSecondUpTo(L, F, n, j, n) == Err(TypeError)
    decreases n - k
  {
    MatchSecondErr(L, F, n, j, k);
    if k < n {
      MatchSecondStuck(L, F, n, j, k + 1);
    }
  }

  lemma {:induction false} MatchReportStuck(L: Table, F: Table, n: nat, m: int, k: nat)
    requires IsSquare(L, n) && IsSquare(F, n) && 0 < k <= n
    requires MatchSecondUpTo(L, F, n, k - 1, n) == Err(TypeError)
    ensures MatchReport(L, F, n, m, n) == Err(TypeError)
  {
    MatchReportErr(L, F, n, m, n);
    MatchSecondErr(L, F, n, k - 1, n);
    assert Absent(L, n, k - 1);
    MatchReportTypeError(L, F, n, m, n);
  }

  lemma {:induction false} MatchReportTypeError(L: Table, F: Table, n: nat, m: int, k: nat)
    requires IsSquare(L, n) && IsSquare(F, n) && k <= n
    ensures MatchReport(L, F, n, m, k).Err? ==> MatchReport(L, F, n, m, k).fault == TypeError
  {
    if k > 0 {
      MatchReportTypeError(L, F, n, m, k - 1);
      MatchSecondErr(L, F, n, k - 1, n);
    }
  }

  /** solver_bt.verify_full(F, L). */
  method VerifyFull(F: Table, L: Table, n: nat, m: int) returns (errs: Result<seq<Issue>>)
    requires IsSquare(L, n) && IsSquare(F, n)
    ensures errs == FullReport(L, F, n, m)
    ensures errs.Err? <==> MissesSomeone(L, n)
    ensures errs == Ok([]) <==> IsLatin(L, n) && Balanced(L, F, n, m) && RoundsBalanced(F, n, m)
  {
    FullReportMeaning(L, F, n, m);
    var e1 := PairIssues(L, n);
    var e2 := RowSumIssues(F, n, m);
    var e3 := ColSumIssues(F, n, m);
    var e4 := MatchIssues(L, F, n, m);
    if e4.Err? {
      return Err(e4.fault);
    }
    var e5 := RoundBFirstIssues(F, n, m);
    errs := Ok(e1 + e2 + e3 + e4.value + e5);
  }

  // ----- main -----

  /** The four pairing tables main tries, in order, for n = 2h players a side. */
  function Candidates(h: nat): (cs: seq<Table>)
    requires h > 0
    ensures |cs| == 4 && forall c :: 0 <= c < 4 ==> IsLatin(cs[c], 2 * h)
  {
    DihedralIsLatin(h);
    MixedIsLatin(h);
    AlternatingIsLatin(2 * h);
    ShiftSwapIsLatin(2 * h);
    [DihedralTable(h), MixedSquare(h), AlternatingSquare(2 * h), ShiftSwapSquare(2 * h)]
  }

  lemma LatinEntriesInRange(L: Table, n: nat)
    requires IsSquare(L, n) && RowsArePerms(L, n)
    ensures EntriesInRange(L, n)
  {
    forall r | 0 <= r < n ensures InRange(L[r], n) {
      PermIff(L[r], n);
    }
  }

  /** solver_bt.main with n = 2h and m = h: the candidate tables are tried in
      turn, and a table returned is one of the candidates, with a colouring
      that passes verify_full and whose schedule is written. */
  method BtMain(h: nat) returns (found: Option<(Table, Table)>, schedule: Option<string>)
    requires h > 0
    ensures found.Some? ==> found.value.1 in Candidates(h)
    ensures found.Some? ==> var (F, L) := found.value;
              && IsSquare(F, 2 * h) && IsBinary(F) && IsLatin(L, 2 * h)
              && Balanced(L, F, 2 * h, h) && RoundsBalanced(F, 2 * h, h)
              && FullReport(L, F, 2 * h, h) == Ok([])
              && schedule == Some(JoinLines(RoundLines(L, F, 2 * h)))
    ensures found.None? ==> schedule.None?
  {
    var n, m := 2 * h, h;
    var cs := Candidates(h);
    var c := 0;
    while c < |cs|
      invariant c <= |cs|
    {
      var L := cs[c];
      var ok, _ := VerifyLatinSquare(L, n);
      if ok {
        LatinEntriesInRange(L, n);
        var F, _ := SolveBacktrack(L, n, m);
        if F.Some? {
          RoundsBalancedFromRowSums(F.value, n, m);
          var errs := VerifyFull(F.value, L, n, m);
          schedule := None;
          if errs == Ok([]) {
            var text := FormatSchedule(L, F.value, n);
            schedule := Some(text);
          }
          return Some((F.value, L)), schedule;
        }
      }
      c := c + 1;
    }
    return None, None;
  }
}
