/** solver_n34_plus.verify: the balance checks plus the extra rule that no
    player moves first, or second, in three consecutive rounds. */
module Streaks {
  import opened Outcomes
  import opened Tables
  import opened Checks

  /** `range(n - 2)`: the start rounds of the three-round windows. */
  function Windows(n: nat): nat
  {
    if n >= 2 then n - 2 else 0
  }

  // ----- A-players -----

  /** `F[r][i] + F[r+1][i] + F[r+2][i]`: A_i's first moves in rounds r..r+2. */
  function AWindow(F: Table, n: nat, i: nat, r: nat): int
    requires IsSquare(F, n) && i < n && r + 2 < n
  {
    F[r][i] + F[r + 1][i] + F[r + 2][i]
  }

  /** A sum of 0 is reported as three SECOND rounds, a sum of 3 as three FIRST. */
  function AStreakFlag(F: Table, n: nat, i: nat, r: nat): (f: Option<Issue>)
    requires IsSquare(F, n)
    ensures f.Some? ==> i < n && r + 2 < n && f.value.Streak? && f.value.side == ASide
                        && f.value.player == i && f.value.start == r
  {
    if i < n && r + 2 < n then
      if AWindow(F, n, i, r) == 0 then Some(Streak(ASide, i, r, false))
      else if AWindow(F, n, i, r) == 3 then Some(Streak(ASide, i, r, true))
      else None
    else None
  }

  function AStreakRow(F: Table, n: nat, i: nat): seq<Issue>
    requires IsSquare(F, n)
  {
    Report(Windows(n), (r: nat) => AStreakFlag(F, n, i, r))
  }

  /** The A-streak issues of A_0..A_{k-1}, in loop order. */
  function AStreakReport(F: Table, n: nat, k: nat): seq<Issue>
    requires IsSquare(F, n)
  {
    Concat(k, (i: nat) => AStreakRow(F, n, i))
  }

  /** A_i never has three first or three second moves in a row. */
  predicate NoAStreakFor(F: Table, n: nat, i: nat)
    requires IsSquare(F, n) && i < n
  {
    forall r :: 0 <= r && r + 2 < n ==> AWindow(F, n, i, r) != 0 && AWindow(F, n, i, r) != 3
  }

  predicate NoAStreak(F: Table, n: nat)
    requires IsSquare(F, n)
  {
    forall i :: 0 <= i < n ==> NoAStreakFor(F, n, i)
  }

  /** For a 0/1 colouring a window is flagged exactly when its three moves
      agree, and it is labelled FIRST exactly when they are first moves. */
  lemma AStreakFlagMeaning(F: Table, n: nat, i: nat, r: nat)
    requires IsSquare(F, n) && IsBinary(F) && i < n && r + 2 < n
    ensures AStreakFlag(F, n, i, r).Some? <==> F[r][i] == F[r + 1][i] == F[r + 2][i]
    ensures AStreakFlag(F, n, i, r).Some? ==> (AStreakFlag(F, n, i, r).value.saysFirst <==> F[r][i] == 1)
  {
    assert IsBinaryRow(F[r]) && IsBinaryRow(F[r + 1]) && IsBinaryRow(F[r + 2]);
  }

  lemma AStreakRowEmpty(F: Table, n: nat, i: nat)
    requires IsSquare(F, n) && i < n
    ensures AStreakRow(F, n, i) == [] <==> NoAStreakFor(F, n, i)
  {
    var flag := (r: nat) => AStreakFlag(F, n, i, r);
    ReportEmpty(Windows(n), flag);
    if !(forall r :: 0 <= r && r + 2 < n ==> AWindow(F, n, i, r) != 0 && AWindow(F, n, i, r) != 3) {
      var r :| 0 <= r && r + 2 < n && !(AWindow(F, n, i, r) != 0 && AWindow(F, n, i, r) != 3);
      assert flag(r).Some?;
    }
  }

  lemma AStreakReportEmpty(F: Table, n: nat)
    requires IsSquare(F, n)
    ensures AStreakReport(F, n, n) == [] <==> NoAStreak(F, n)
  {
    var g := (i: nat) => AStreakRow(F, n, i);
    ConcatEmpty(n, g);
    forall i | 0 <= i < n
      ensures g(i) == [] <==> NoAStreakFor(F, n, i)
    {
      AStreakRowEmpty(F, n, i);
    }
  }

  method AStreakIssues(F: Table, n: nat) returns (errs: seq<Issue>)
    requires IsSquare(F, n)
    ensures errs == AStreakReport(F, n, n)
  {
    errs := [];
    var i := 0;
    while i < n
      invariant i <= n && errs == AStreakReport(F, n, i)
    {
      var row := AStreakRowIssues(F, n, i);
      errs := errs + row;
      i := i + 1;
    }
  }

  /** The windows of A_i, in round order. */
  method AStreakRowIssues(F: Table, n: nat, i: nat) returns (row: seq<Issue>)
    requires IsSquare(F, n) && i < n
    ensures row == AStreakRow(F, n, i)
  {
    row := [];
    var r := 0;
    while r < Windows(n)
      invariant r <= Windows(n) && row == Report(r, (r: nat) => AStreakFlag(F, n, i, r))
    {
      AStreakNext(F, n, i, r);
      var s := F[r][i] + F[r + 1][i] + F[r + 2][i];
      if s == 0 {
        row := row + [Streak(ASide, i, r, false)];
      }
      if s == 3 {
        row := row + [Streak(ASide, i, r, true)];
      }
      r := r + 1;
    }
  }

  lemma AStreakNext(F: Table, n: nat, i: nat, r: nat)
    requires IsSquare(F, n) && i < n && r + 2 < n
    ensures Report(r + 1, (r: nat) => AStreakFlag(F, n, i, r))
         == Report(r, (r: nat) => AStreakFlag(F, n, i, r))
            + (if AWindow(F, n, i, r) == 0 then [Streak(ASide, i, r, false)]
               else if AWindow(F, n, i, r) == 3 then [Streak(ASide, i, r, true)] else [])
  {
  }

  // ----- B-players -----

  /** `b_sec` for B_j over rounds 0..k-1: the colour of the first column
      that meets B_j, one entry per round where B_j plays. */
  function BSecUpTo(L: Table, F: Table, n: nat, j: int, k: nat): (b: seq<int>)
    requires IsSquare(L, n) && IsSquare(F, n) && k <= n
    ensures |b| <= k
    ensures |b| == k <==> forall r :: 0 <= r < k ==> j in L[r]
  {
    if k == 0 then []
    else
      var p := FirstMatch(L[k - 1], j, 0);
      BSecUpTo(L, F, n, j, k - 1) + if p.Some? then [F[k - 1][p.value]] else []
  }

  function BSec(L: Table, F: Table, n: nat, j: int): seq<int>
    requires IsSquare(L, n) && IsSquare(F, n)
  {
    BSecUpTo(L, F, n, j, n)
  }

  /** 1 when B_j's opponent in round r moves first, i.e. B_j moves second. */
  function OpponentFirst(L: Table, F: Table, n: nat, j: int, r: nat): int
    requires IsSquare(L, n) && IsSquare(F, n) && r < n
  {
    F[r][LastIndex(L[r], j, n)]
  }

  /** For permutation rows b_sec has one entry per round, the flag of B_j's
      only opponent in that round. */
  lemma {:induction false} BSecOnPerm(L: Table, F: Table, n: nat, j: int, k: nat)
    requires IsSquare(L, n) && IsSquare(F, n) && RowsArePerms(L, n) && 0 <= j < n && k <= n
    ensures |BSecUpTo(L, F, n, j, k)| == k
    ensures forall r :: 0 <= r < k ==> BSecUpTo(L, F, n, j, k)[r] == OpponentFirst(L, F, n, j, r)
  {
    if k > 0 {
      BSecOnPerm(L, F, n, j, k - 1);
      FirstMatchOnPerm(L[k - 1], n, j);
    }
  }

  function BWindow(L: Table, F: Table, n: nat, j: int, r: nat): int
    requires IsSquare(L, n) && IsSquare(F, n) && r + 2 < n
  {
    OpponentFirst(L, F, n, j, r) + OpponentFirst(L, F, n, j, r + 1) + OpponentFirst(L, F, n, j, r + 2)
  }

  /** B_j never has three first or three second moves in a row. */
  predicate NoBStreakFor(L: Table, F: Table, n: nat, j: int)
    requires IsSquare(L, n) && IsSquare(F, n)
  {
    forall r :: 0 <= r && r + 2 < n ==> BWindow(L, F, n, j, r) != 0 && BWindow(L, F, n, j, r) != 3
  }

  predicate NoBStreak(L: Table, F: Table, n: nat)
    requires IsSquare(L, n) && IsSquare(F, n)
  {
    forall j :: 0 <= j < n ==> NoBStreakFor(L, F, n, j)
  }

  /** The labels are the A-side's swapped: b_sec counts B_j's SECOND moves,
      so a sum of 0 is three FIRST rounds. */
  function BStreakFlag(b: seq<int>, j: int, r: nat): (f: Option<Issue>)
    ensures f.Some? ==> r + 2 < |b| && f.value.Streak? && f.value.side == BSide
                        && f.value.player == j && f.value.start == r
  {
    if r + 2 < |b| then
      if SecWindow(b, r) == 0 then Some(Streak(BSide, j, r, true))
      else if SecWindow(b, r) == 3 then Some(Streak(BSide, j, r, false))
      else None
    else None
  }

  /** `b_sec[r] + b_sec[r+1] + b_sec[r+2]` */
  function SecWindow(b: seq<int>, r: nat): int
    requires r + 2 < |b|
  {
    b[r] + b[r + 1] + b[r + 2]
  }

  /** No window of b_sec sums to 0 or 3. */
  predicate QuietWindows(b: seq<int>)
  {
    forall r :: 0 <= r && r + 2 < |b| ==> SecWindow(b, r) != 0 && SecWindow(b, r) != 3
  }

  /** For 0/1 entries a window is flagged exactly when B_j's three moves
      agree, and it is labelled FIRST exactly when b_sec says "not second". */
  lemma BStreakFlagMeaning(b: seq<int>, j: int, r: nat)
    requires r + 2 < |b| && forall q :: 0 <= q < |b| ==> b[q] == 0 || b[q] == 1
    ensures BStreakFlag(b, j, r).Some? <==> b[r] == b[r + 1] == b[r + 2]
    ensures BStreakFlag(b, j, r).Some? ==> (BStreakFlag(b, j, r).value.saysFirst <==> b[r] == 0)
  {
    assert b[r] == 0 || b[r] == 1;
    assert b[r + 1] == 0 || b[r + 1] == 1;
    assert b[r + 2] == 0 || b[r + 2] == 1;
  }

  /** B_j's windows over its b_sec; a b_sec shorter than n makes
      `b_sec[r+2]` raise IndexError once there is a window at all. */
  function BStreakRow(b: seq<int>, j: int, n: nat): Result<seq<Issue>>
  {
    if n >= 3 && |b| < n then Err(IndexError)
    else Ok(Report(Windows(n), (r: nat) => BStreakFlag(b, j, r)))
  }

  /** A full-length b_sec raises nothing and is silent exactly when no
      window sums to 0 or 3. */
  lemma BStreakRowEmptyOf(b: seq<int>, j: int, n: nat)
    requires |b| == n
    ensures BStreakRow(b, j, n) == Ok([]) <==> QuietWindows(b)
  {
    var flag := (r: nat) => BStreakFlag(b, j, r);
    ReportEmpty(Windows(n), flag);
    if QuietWindows(b) {
      forall r: nat | r < Windows(n) ensures flag(r).None? {
      }
    } else {
      var r :| 0 <= r && r + 2 < n && !(SecWindow(b, r) != 0 && SecWindow(b, r) != 3);
      assert flag(r).Some?;
    }
  }

  /** The B-streak issues of B_0..B_{k-1}, or the IndexError that ends verify. */
  function BStreakReport(L: Table, F: Table, n: nat, k: nat): Result<seq<Issue>>
    requires IsSquare(L, n) && IsSquare(F, n)
  {
    ConcatResults(k, (j: nat) => BStreakRow(BSec(L, F, n, j), j, n))
  }

  lemma BStreakReportErr(L: Table, F: Table, n: nat, k: nat)
    requires IsSquare(L, n) && IsSquare(F, n) && k <= n
    ensures BStreakReport(L, F, n, k).Err? <==> n >= 3 && exists j :: 0 <= j < k && Absent(L, n, j)
    ensures BStreakReport(L, F, n, k).Err? ==> BStreakReport(L, F, n, k).fault == IndexError
  {
    var g := (j: nat) => BStreakRow(BSec(L, F, n, j), j, n);
    ConcatResultsErr(k, g, IndexError);
    forall j: nat | j < k ensures g(j).Err? <==> n >= 3 && Absent(L, n, j) {
      assert |BSec(L, F, n, j)| < n <==> Absent(L, n, j);
    }
  }

  lemma BStreakRowEmpty(L: Table, F: Table, n: nat, j: nat)
    requires IsSquare(L, n) && IsSquare(F, n) && RowsArePerms(L, n) && j < n
    ensures BStreakRow(BSec(L, F, n, j), j, n) == Ok([]) <==> NoBStreakFor(L, F, n, j)
  {
    var b := BSec(L, F, n, j);
    BSecOnPerm(L, F, n, j, n);
    BStreakRowEmptyOf(b, j, n);
    forall r | 0 <= r && r + 2 < n ensures SecWindow(b, r) == BWindow(L, F, n, j, r) {
    }
    assert QuietWindows(b) <==> NoBStreakFor(L, F, n, j);
  }

  lemma BStreakReportEmpty(L: Table, F: Table, n: nat)
    requires IsSquare(L, n) && IsSquare(F, n) && RowsArePerms(L, n)
    ensures BStreakReport(L, F, n, n) == Ok([]) <==> NoBStreak(L, F, n)
  {
    var g := (j: nat) => BStreakRow(BSec(L, F, n, j), j, n);
    ConcatResultsEmpty(n, g);
    forall j: nat | j < n ensures g(j) == Ok([]) <==> NoBStreakFor(L, F, n, j) {
      BStreakRowEmpty(L, F, n, j);
    }
  }

  /** The b_sec loop of verify for one B-player. */
  method BSecOf(L: Table, F: Table, n: nat, j: int) returns (b: seq<int>)
    requires IsSquare(L, n) && IsSquare(F, n)
    ensures b == BSec(L, F, n, j)
  {
    b := [];
    var r := 0;
    while r < n
      invariant r <= n && b == BSecUpTo(L, F, n, j, r)
    {
      var p := FindMatch(L[r], j);
      if p.Some? {
        b := b + [F[r][p.value]];
      } else {
        assert b + [] == b;
      }
      r := r + 1;
    }
  }

  /** The window loop over one b_sec. */
  method BStreakRowIssues(b: seq<int>, j: int, n: nat) returns (errs: Result<seq<Issue>>)
    ensures errs == BStreakRow(b, j, n)
  {
    var row: seq<Issue> := [];
    var r := 0;
    while r < Windows(n)
      invariant r <= Windows(n) && row == Report(r, (r: nat) => BStreakFlag(b, j, r))
      invariant r == 0 || r + 1 < |b|
    {
      if r + 2 >= |b| {
        return Err(IndexError);
      }
      var s := SecWindow(b, r);
      if s == 0 {
        row := row + [Streak(BSide, j, r, true)];
      }
      if s == 3 {
        row := row + [Streak(BSide, j, r, false)];
      }
      r := r + 1;
    }
    errs := Ok(row);
  }

  method BStreakIssues(L: Table, F: Table, n: nat) returns (errs: Result<seq<Issue>>)
    requires IsSquare(L, n) && IsSquare(F, n)
    ensures errs == BStreakReport(L, F, n, n)
  {
    var acc: seq<Issue> := [];
    var j := 0;
    while j < n
      invariant j <= n && BStreakReport(L, F, n, j) == Ok(acc)
    {
      var b := BSecOf(L, F, n, j);
      var row := BStreakRowIssues(b, j, n);
      if row.Err? {
        BStreakReportErr(L, F, n, j + 1);
        BStreakReportErr(L, F, n, n);
        return Err(IndexError);
      }
      acc := acc + row.value;
      j := j + 1;
    }
    errs := Ok(acc);
  }

  // ----- verify -----

  /** What verify returns: the balance issues, then the A-streaks, then the
      B-streaks; or the IndexError of a B-player missing from a round. */
  function PlusReport(L: Table, F: Table, n: nat, m: int): Result<seq<Issue>>
    requires IsSquare(L, n) && IsSquare(F, n)
  {
    var b := BStreakReport(L, F, n, n);
    if b.Err? then Err(b.fault)
    else Ok(BalanceReport(L, F, n, m) + AStreakReport(F, n, n) + b.value)
  }

  /** The full schedule condition of the n = 34 variant. */
  predicate PlusValid(L: Table, F: Table, n: nat, m: int)
    requires IsSquare(L, n) && IsSquare(F, n)
  {
    IsLatin(L, n) && Balanced(L, F, n, m) && RoundsBalanced(F, n, m) && NoAStreak(F, n) && NoBStreak(L, F, n)
  }

  lemma PlusReportErr(L: Table, F: Table, n: nat, m: int)
    requires IsSquare(L, n) && IsSquare(F, n)
    ensures PlusReport(L, F, n, m).Err? <==> n >= 3 && MissesSomeone(L, n)
    ensures PlusReport(L, F, n, m).Err? ==> PlusReport(L, F, n, m).fault == IndexError
  {
    BStreakReportErr(L, F, n, n);
  }

  lemma PlusReportEmpty(L: Table, F: Table, n: nat, m: int)
    requires IsSquare(L, n) && IsSquare(F, n)
    ensures PlusReport(L, F, n, m) == Ok([]) <==> PlusValid(L, F, n, m)
  {
    BalanceReportEmpty(L, F, n, m);
    BStreakReportErr(L, F, n, n);
    AStreakReportEmpty(F, n);
    if IsLatin(L, n) {
      BStreakReportEmpty(L, F, n);
    }
  }

  /** solver_n34_plus.verify(L, F). */
  method PlusVerify(L: Table, F: Table, n: nat, m: int) returns (errs: Result<seq<Issue>>)
    requires IsSquare(L, n) && IsSquare(F, n)
    ensures errs == PlusReport(L, F, n, m)
    ensures errs.Err? <==> n >= 3 && MissesSomeone(L, n)
    ensures errs == Ok([]) <==> PlusValid(L, F, n, m)
  {
    PlusReportErr(L, F, n, m);
    PlusReportEmpty(L, F, n, m);
    var e1 := BalanceIssues(L, F, n, m);
    var e2 := AStreakIssues(F, n);
    var e3 := BStreakIssues(L, F, n);
    if e3.Err? {
      return Err(e3.fault);
    }
    errs := Ok(e1 + e2 + e3.value);
  }
}
