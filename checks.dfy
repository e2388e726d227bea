/** The error lists the verifiers build over a pairing table L and a
    colouring F: each check walks rounds or players in order and appends one
    issue per violation. Message texts are not modelled; an issue keeps the
    0-based indexes and the number the message prints. */
module Checks {
  import opened Outcomes
  import opened Tables

  datatype Side = ASide | BSide

  datatype Issue =
    | RowNotPerm(r: int)                      // L[r] is not a permutation of 0..n-1
    | ColNotPerm(i: int)                      // column i of L is not a permutation
    | BadPairCount(i: int, j: int, count: int)  // A_i met B_j count != 1 times
    | RepeatedPair(i: int, j: int)            // the pair (A_i, B_j) was already seen
    | MissingPair(i: int, j: int)             // the pair (A_i, B_j) never met
    | BadRowSum(r: int, sum: int)             // round r: A-first count != m
    | BadColSum(i: int, sum: int)             // A_i: first count != m
    | BadBSecond(j: int, count: int)          // B_j: second count != m
    | BadBFirst(j: int, count: int)           // B_j: first count != m
    | BadRoundBFirst(r: int, count: int)      // round r: B-first count != m
    | Streak(side: Side, player: int, start: int, saysFirst: bool)
      // three rounds start..start+2 with the same side; saysFirst is the message's label

  // ----- searching a round -----

  /** The `for i in range(n): if L[r][i] == j: ...; break` search for B_j in
      one round, from column k. */
  function FirstMatch(row: seq<int>, v: int, k: nat): (p: Option<nat>)
    requires k <= |row|
    ensures p.Some? ==> k <= p.value < |row| && row[p.value] == v
    ensures p.Some? ==> forall q :: k <= q < p.value ==> row[q] != v
    ensures p.None? <==> forall q :: k <= q < |row| ==> row[q] != v
    decreases |row| - k
  {
    if k == |row| then None else if row[k] == v then Some(k) else FirstMatch(row, v, k + 1)
  }

  method FindMatch(row: seq<int>, v: int) returns (p: Option<nat>)
    ensures p == FirstMatch(row, v, 0)
  {
    p := None;
    var i := 0;
    while i < |row|
      invariant i <= |row| && FirstMatch(row, v, 0) == FirstMatch(row, v, i)
    {
      if row[i] == v {
        p := Some(i);
        break;
      }
      i := i + 1;
    }
  }

  /** In a permutation row the first match is the only one. */
  lemma FirstMatchOnPerm(row: seq<int>, n: nat, v: int)
    requires |row| == n && IsPerm(row, n) && 0 <= v < n
    ensures FirstMatch(row, v, 0) == Some(LastIndex(row, v, n))
  {
    InverseInverts(row, n, v);
  }

  /** B_j meets nobody in some round. */
  predicate Absent(L: Table, n: nat, j: int)
    requires IsSquare(L, n)
  {
    exists r :: 0 <= r < n && j !in L[r]
  }

  /** Some B-player sits out some round. */
  predicate MissesSomeone(L: Table, n: nat)
    requires IsSquare(L, n)
  {
    exists j :: 0 <= j < n && Absent(L, n, j)
  }

  // ----- reports -----

  function Present<T>(o: Option<T>): seq<T>
  {
    if o.Some? then [o.value] else []
  }

  /** The issues flag(0), ..., flag(k-1) that are present, in that order: what
      a loop `for x in range(k): if bad(x): errors.append(...)` builds. */
  function Report<T>(k: nat, flag: nat -> Option<T>): (out: seq<T>)
    ensures |out| <= k
  {
    if k == 0 then [] else Report(k - 1, flag) + Present(flag(k - 1))
  }

  lemma {:induction false} ReportEmpty<T>(k: nat, flag: nat -> Option<T>)
    ensures Report(k, flag) == [] <==> forall x: nat :: x < k ==> flag(x).None?
  {
    if k > 0 {
      ReportEmpty(k - 1, flag);
    }
  }

  lemma {:induction false} ReportMember<T>(k: nat, flag: nat -> Option<T>, v: T)
    ensures v in Report(k, flag) <==> exists x: nat :: x < k && flag(x) == Some(v)
  {
    if k > 0 {
      ReportMember(k - 1, flag, v);
      assert Report(k, flag) == Report(k - 1, flag) + Present(flag(k - 1));
    }
  }

  /** g(0) + ... + g(k-1): what nested loops appending to one list build. */
  function Concat<T>(k: nat, g: nat -> seq<T>): seq<T>
  {
    if k == 0 then [] else Concat(k - 1, g) + g(k - 1)
  }

  lemma {:induction false} ConcatEmpty<T>(k: nat, g: nat -> seq<T>)
    ensures Concat(k, g) == [] <==> forall x: nat :: x < k ==> g(x) == []
  {
    if k > 0 {
      ConcatEmpty(k - 1, g);
    }
  }
  /** g(0) + ... + g(k-1) where each part may raise instead: the first
      exception ends the loop and is what the caller sees. */
  lemma {:induction false} ConcatPrefix<T>(k: nat, k': nat, g: nat -> seq<T>)
    requires k <= k'
    ensures Concat(k, g) <= Concat(k', g)
    decreases k' - k
  {
    if k < k' {
      ConcatPrefix(k, k' - 1, g);
    }
  }

  /** The first non-empty part after empty ones gives the first entry. */
  lemma ConcatFirstAt<T>(r: nat, k: nat, g: nat -> seq<T>)
    requires r < k && Concat(r, g) == [] && g(r) != []
    ensures FirstOf(Concat(k, g)) == FirstOf(g(r))
  {
    ConcatPrefix(r + 1, k, g);
    FirstAfterQuiet(Concat(r, g), g(r), Concat(k, g));
  }

  function ConcatResults<T>(k: nat, g: nat -> Result<seq<T>>): Result<seq<T>>
  {
    if k == 0 then Ok([])
    else
      var prev := ConcatResults(k - 1, g);
      if prev.Err? then prev else if g(k - 1).Err? then g(k - 1) else Ok(prev.value + g(k - 1).value)
  }

  lemma {:induction false} ConcatResultsEmpty<T>(k: nat, g: nat -> Result<seq<T>>)
    ensures ConcatResults(k, g) == Ok([]) <==> forall x: nat :: x < k ==> g(x) == Ok([])
  {
    if k > 0 {
      ConcatResultsEmpty(k - 1, g);
      var prev := ConcatResults(k - 1, g);
      if prev.Ok? && g(k - 1).Ok? && prev.value + g(k - 1).value == [] {
        assert prev.value == [] && g(k - 1).value == [];
      }
    }
  }

  /** The whole loop raises exactly when some part raises, and then with
      the fault every raising part has. */
  lemma {:induction false} ConcatResultsErr<T>(k: nat, g: nat -> Result<seq<T>>, e: Fault)
    ensures ConcatResults(k, g).Err? <==> exists x: nat :: x < k && g(x).Err?
    ensures (forall x: nat :: x < k && g(x).Err? ==> g(x).fault == e) && ConcatResults(k, g).Err? ==>
              ConcatResults(k, g).fault == e
  {
    if k > 0 {
      ConcatResultsErr(k - 1, g, e);
    }
  }


  /** The issue a check that returns at its first failure reports. */
  function FirstOf<T>(s: seq<T>): Option<T>
  {
    if s == [] then None else Some(s[0])
  }

  /** Two lists joined are empty exactly when both are. */
  lemma ConcatNil<T>(a: seq<T>, b: seq<T>)
    ensures a + b == [] <==> a == [] && b == []
  {
    assert |a + b| == |a| + |b|;
  }

  lemma FirstOfConcat<T>(a: seq<T>, b: seq<T>)
    ensures FirstOf(a + b) == if a == [] then FirstOf(b) else FirstOf(a)
  {
    if a == [] {
      assert a + b == b;
    }
  }

  lemma FirstOfPrefix<T>(a: seq<T>, b: seq<T>)
    requires a <= b && a != []
    ensures FirstOf(b) == FirstOf(a)
  {
    assert b[0] == b[..|a|][0];
  }

  /** Behind an empty stretch, the first entry comes from what follows it. */
  lemma FirstAfterQuiet<T>(a: seq<T>, b: seq<T>, whole: seq<T>)
    requires a == [] && b != [] && a + b <= whole
    ensures FirstOf(whole) == FirstOf(b)
  {
    assert a + b == b;
    FirstOfPrefix(b, whole);
  }

  /** A loop that stops early has seen a prefix of the full report. */
  lemma {:induction false} ReportPrefix<T>(k: nat, k': nat, flag: nat -> Option<T>)
    requires k <= k'
    ensures Report(k, flag) <= Report(k', flag)
    decreases k' - k
  {
    if k < k' {
      ReportPrefix(k, k' - 1, flag);
    }
  }

  /** The first flag raised after a quiet stretch is the report's first issue. */
  lemma ReportFirstAt<T>(k: nat, k': nat, flag: nat -> Option<T>)
    requires k < k' && Report(k, flag) == [] && flag(k).Some?
    ensures FirstOf(Report(k', flag)) == flag(k)
  {
    ReportPrefix(k + 1, k', flag);
    assert Report(k + 1, flag) == [flag(k).value];
    FirstOfPrefix(Report(k + 1, flag), Report(k', flag));
  }

  // ----- one check per family -----

  function RowPermFlag(L: Table, n: nat, r: nat): Option<Issue>
  {
    if r < |L| && !IsPerm(L[r], n) then Some(RowNotPerm(r)) else None
  }

  function RowPermReport(L: Table, n: nat, k: nat): seq<Issue>
  {
    Report(k, (r: nat) => RowPermFlag(L, n, r))
  }

  function ColPermFlag(L: Table, n: nat, i: nat): Option<Issue>
    requires IsSquare(L, n)
  {
    if i < n && !IsPerm(Column(L, i), n) then Some(ColNotPerm(i)) else None
  }

  function ColPermReport(L: Table, n: nat, k: nat): seq<Issue>
    requires IsSquare(L, n)
  {
    Report(k, (i: nat) => ColPermFlag(L, n, i))
  }

  function RowSumFlag(F: Table, m: int, r: nat): Option<Issue>
  {
    if r < |F| && Sum(F[r]) != m then Some(BadRowSum(r, Sum(F[r]))) else None
  }

  function RowSumReport(F: Table, m: int, k: nat): seq<Issue>
  {
    Report(k, (r: nat) => RowSumFlag(F, m, r))
  }

  function ColSumFlag(F: Table, n: nat, m: int, i: nat): Option<Issue>
    requires IsSquare(F, n)
  {
    if i < n && ColSum(F, i) != m then Some(BadColSum(i, ColSum(F, i))) else None
  }

  function ColSumReport(F: Table, n: nat, m: int, k: nat): seq<Issue>
    requires IsSquare(F, n)
  {
    Report(k, (i: nat) => ColSumFlag(F, n, m, i))
  }

  function BSecondFlag(L: Table, F: Table, n: nat, m: int, j: nat): Option<Issue>
    requires IsSquare(L, n) && IsSquare(F, n)
  {
    if j < n && BSecond(L, F, n, j) != m then Some(BadBSecond(j, BSecond(L, F, n, j))) else None
  }

  function BSecondReport(L: Table, F: Table, n: nat, m: int, k: nat): seq<Issue>
    requires IsSquare(L, n) && IsSquare(F, n)
  {
    Report(k, (j: nat) => BSecondFlag(L, F, n, m, j))
  }

  function RoundBFirstFlag(F: Table, m: int, r: nat): Option<Issue>
  {
    if r < |F| && Occurrences(F[r], 0) != m then Some(BadRoundBFirst(r, Occurrences(F[r], 0))) else None
  }

  function RoundBFirstReport(F: Table, m: int, k: nat): seq<Issue>
  {
    Report(k, (r: nat) => RoundBFirstFlag(F, m, r))
  }

  /** In every round m B-players move first: m zeros in every row of F. */
  predicate RoundsBalanced(F: Table, n: nat, m: int)
    requires IsSquare(F, n)
  {
    forall r :: 0 <= r < n ==> Occurrences(F[r], 0) == m
  }

  lemma RowPermReportEmpty(L: Table, n: nat)
    requires IsSquare(L, n)
    ensures RowPermReport(L, n, n) == [] <==> RowsArePerms(L, n)
  {
    var flag := (r: nat) => RowPermFlag(L, n, r);
    ReportEmpty(n, flag);
    if !RowsArePerms(L, n) {
      var r :| 0 <= r < n && !IsPerm(L[r], n);
      assert flag(r).Some?;
    } else {
      forall r: nat | r < n ensures flag(r).None? {
        assert IsPerm(L[r], n);
      }
    }
  }

  lemma ColPermReportEmpty(L: Table, n: nat)
    requires IsSquare(L, n)
    ensures ColPermReport(L, n, n) == [] <==> ColumnsArePerms(L, n)
  {
    var flag := (i: nat) => ColPermFlag(L, n, i);
    ReportEmpty(n, flag);
    if !(ColumnsArePerms(L, n)) {
      var x :| 0 <= x < n && !(IsPerm(Column(L, x), n));
      assert flag(x).Some?;
    } else {
      forall x: nat | x < n ensures flag(x).None? {
        assert IsPerm(Column(L, x), n);
      }
    }
  }

  lemma RowSumReportEmpty(F: Table, n: nat, m: int)
    requires IsSquare(F, n)
    ensures RowSumReport(F, m, n) == [] <==> forall r :: 0 <= r < n ==> Sum(F[r]) == m
  {
    var flag := (r: nat) => RowSumFlag(F, m, r);
    ReportEmpty(n, flag);
    if !(forall r :: 0 <= r < n ==> Sum(F[r]) == m) {
      var x :| 0 <= x < n && !(Sum(F[x]) == m);
      assert flag(x).Some?;
    } else {
      forall x: nat | x < n ensures flag(x).None? {
        assert Sum(F[x]) == m;
      }
    }
  }

  lemma ColSumReportEmpty(F: Table, n: nat, m: int)
    requires IsSquare(F, n)
    ensures ColSumReport(F, n, m, n) == [] <==> forall i :: 0 <= i < n ==> ColSum(F, i) == m
  {
    var flag := (i: nat) => ColSumFlag(F, n, m, i);
    ReportEmpty(n, flag);
    if !(forall i :: 0 <= i < n ==> ColSum(F, i) == m) {
      var x :| 0 <= x < n && !(ColSum(F, x) == m);
      assert flag(x).Some?;
    } else {
      forall x: nat | x < n ensures flag(x).None? {
        assert ColSum(F, x) == m;
      }
    }
  }

  lemma BSecondReportEmpty(L: Table, F: Table, n: nat, m: int)
    requires IsSquare(L, n) && IsSquare(F, n)
    ensures BSecondReport(L, F, n, m, n) == [] <==> forall j :: 0 <= j < n ==> BSecond(L, F, n, j) == m
  {
    var flag := (j: nat) => BSecondFlag(L, F, n, m, j);
    ReportEmpty(n, flag);
    if !(forall j :: 0 <= j < n ==> BSecond(L, F, n, j) == m) {
      var x :| 0 <= x < n && !(BSecond(L, F, n, x) == m);
      assert flag(x).Some?;
    } else {
      forall x: nat | x < n ensures flag(x).None? {
        assert BSecond(L, F, n, x) == m;
      }
    }
  }

  lemma RoundBFirstReportEmpty(F: Table, n: nat, m: int)
    requires IsSquare(F, n)
    ensures RoundBFirstReport(F, m, n) == [] <==> RoundsBalanced(F, n, m)
  {
    var flag := (r: nat) => RoundBFirstFlag(F, m, r);
    ReportEmpty(n, flag);
    if !(RoundsBalanced(F, n, m)) {
      var x :| 0 <= x < n && !(Occurrences(F[x], 0) == m);
      assert flag(x).Some?;
    } else {
      forall x: nat | x < n ensures flag(x).None? {
        assert Occurrences(F[x], 0) == m;
      }
    }
  }

  // ----- the checking loops -----

  /** `for r in range(n): if sorted(L[r]) != list(range(n)): errors.append(...)` */
  method RowPermIssues(L: Table, n: nat) returns (errs: seq<Issue>)
    requires IsSquare(L, n)
    ensures errs == RowPermReport(L, n, n)
    ensures errs == [] <==> RowsArePerms(L, n)
  {
    errs := [];
    var r := 0;
    while r < n
      invariant r <= n
      invariant errs == RowPermReport(L, n, r)
    {
      if !IsPerm(L[r], n) {
        errs := errs + [RowNotPerm(r)];
      }
      r := r + 1;
    }
    RowPermReportEmpty(L, n);
  }

  /** `for i in range(n): col = [L[r][i] for r in range(n)]; if sorted(col) != ...` */
  method ColPermIssues(L: Table, n: nat) returns (errs: seq<Issue>)
    requires IsSquare(L, n)
    ensures errs == ColPermReport(L, n, n)
    ensures errs == [] <==> ColumnsArePerms(L, n)
  {
    errs := [];
    var i := 0;
    while i < n
      invariant i <= n
      invariant errs == ColPermReport(L, n, i)
    {
      var col := Column(L, i);
      if !IsPerm(col, n) {
        errs := errs + [ColNotPerm(i)];
      }
      i := i + 1;
    }
    ColPermReportEmpty(L, n);
  }

  /** `for r in range(n): if sum(F[r]) != m: errors.append(...)` */
  method RowSumIssues(F: Table, n: nat, m: int) returns (errs: seq<Issue>)
    requires IsSquare(F, n)
    ensures errs == RowSumReport(F, m, n)
    ensures errs == [] <==> forall r :: 0 <= r < n ==> Sum(F[r]) == m
  {
    errs := [];
    var r := 0;
    while r < n
      invariant r <= n
      invariant errs == RowSumReport(F, m, r)
    {
      var s := Sum(F[r]);
      if s != m {
        errs := errs + [BadRowSum(r, s)];
      }
      r := r + 1;
    }
    RowSumReportEmpty(F, n, m);
  }

  /** `for i in range(n): s = sum(F[r][i] for r in range(n)); if s != m: ...` */
  method ColSumIssues(F: Table, n: nat, m: int) returns (errs: seq<Issue>)
    requires IsSquare(F, n)
    ensures errs == ColSumReport(F, n, m, n)
    ensures errs == [] <==> forall i :: 0 <= i < n ==> ColSum(F, i) == m
  {
    errs := [];
    var i := 0;
    while i < n
      invariant i <= n
      invariant errs == ColSumReport(F, n, m, i)
    {
      var s := ColSum(F, i);
      if s != m {
        errs := errs + [BadColSum(i, s)];
      }
      i := i + 1;
    }
    ColSumReportEmpty(F, n, m);
  }

  /** B_j's second count, counted cell by cell:
      `for r: for i: if L[r][i] == j and F[r][i] == 1: second += 1`. */
  method CountBSecond(L: Table, F: Table, n: nat, j: int) returns (second: nat)
    requires IsSquare(L, n) && IsSquare(F, n)
    ensures second == BSecond(L, F, n, j)
  {
    second := 0;
    var r := 0;
    while r < n
      invariant r <= n
      invariant second == BSecondUpTo(L, F, n, j, r)
    {
      var i := 0;
      while i < n
        invariant i <= n
        invariant second == BSecondUpTo(L, F, n, j, r) + RoundHits(L[r], F[r], j, i)
      {
        if L[r][i] == j && F[r][i] == 1 {
          second := second + 1;
        }
        i := i + 1;
      }
      r := r + 1;
    }
  }

  method BSecondIssues(L: Table, F: Table, n: nat, m: int) returns (errs: seq<Issue>)
    requires IsSquare(L, n) && IsSquare(F, n)
    ensures errs == BSecondReport(L, F, n, m, n)
    ensures errs == [] <==> forall j :: 0 <= j < n ==> BSecond(L, F, n, j) == m
  {
    errs := [];
    var j := 0;
    while j < n
      invariant j <= n
      invariant errs == BSecondReport(L, F, n, m, j)
    {
      var second := CountBSecond(L, F, n, j);
      if second != m {
        errs := errs + [BadBSecond(j, second)];
      }
      j := j + 1;
    }
    BSecondReportEmpty(L, F, n, m);
  }

  /** `for r in range(n): b_first = sum(1 for i in range(n) if F[r][i] == 0); ...` */
  method RoundBFirstIssues(F: Table, n: nat, m: int) returns (errs: seq<Issue>)
    requires IsSquare(F, n)
    ensures errs == RoundBFirstReport(F, m, n)
    ensures errs == [] <==> RoundsBalanced(F, n, m)
  {
    errs := [];
    var r := 0;
    while r < n
      invariant r <= n
      invariant errs == RoundBFirstReport(F, m, r)
    {
      var bFirst := Occurrences(F[r], 0);
      if bFirst != m {
        errs := errs + [BadRoundBFirst(r, bFirst)];
      }
      r := r + 1;
    }
    RoundBFirstReportEmpty(F, n, m);
  }

  /** The per-round B-first count is n minus the row sum, for a 0/1 colouring. */
  lemma RoundBFirstIsRowComplement(F: Table, n: nat, r: nat)
    requires IsSquare(F, n) && IsBinary(F) && r < n
    ensures Occurrences(F[r], 0) == n - Sum(F[r])
  {
    BinaryRowZeros(F[r]);
  }

  /** With row sums m and n == 2m, every round is B-balanced too. */
  lemma RoundsBalancedFromRowSums(F: Table, n: nat, m: int)
    requires IsSquare(F, n) && IsBinary(F) && n == 2 * m
    requires forall r :: 0 <= r < n ==> Sum(F[r]) == m
    ensures RoundsBalanced(F, n, m)
  {
    forall r | 0 <= r < n ensures Occurrences(F[r], 0) == m {
      RoundBFirstIsRowComplement(F, n, r);
    }
  }

  // ----- the full balance check -----

  function BalanceReport(L: Table, F: Table, n: nat, m: int): seq<Issue>
    requires IsSquare(L, n) && IsSquare(F, n)
  {
    RowPermReport(L, n, n) + ColPermReport(L, n, n) + RowSumReport(F, m, n)
    + ColSumReport(F, n, m, n) + BSecondReport(L, F, n, m, n) + RoundBFirstReport(F, m, n)
  }

  /** The balance issues vanish exactly when L is a Latin square and F
      balances every round, every A-player and every B-player. */
  lemma BalanceReportEmpty(L: Table, F: Table, n: nat, m: int)
    requires IsSquare(L, n) && IsSquare(F, n)
    ensures BalanceReport(L, F, n, m) == [] <==> IsLatin(L, n) && Balanced(L, F, n, m) && RoundsBalanced(F, n, m)
  {
    var latin := RowPermReport(L, n, n) + ColPermReport(L, n, n);
    var sums := RowSumReport(F, m, n) + ColSumReport(F, n, m, n) + BSecondReport(L, F, n, m, n);
    assert BalanceReport(L, F, n, m) == latin + sums + RoundBFirstReport(F, m, n);
    RowPermReportEmpty(L, n);
    ColPermReportEmpty(L, n);
    assert latin == [] <==> IsLatin(L, n);
    SumReportsEmpty(L, F, n, m);
    RoundBFirstReportEmpty(F, n, m);
  }

  lemma SumReportsEmpty(L: Table, F: Table, n: nat, m: int)
    requires IsSquare(L, n) && IsSquare(F, n)
    ensures RowSumReport(F, m, n) + ColSumReport(F, n, m, n) + BSecondReport(L, F, n, m, n) == []
            <==> Balanced(L, F, n, m)
  {
    RowSumReportEmpty(F, n, m);
    ColSumReportEmpty(F, n, m);
    BSecondReportEmpty(L, F, n, m);
  }

  /** The six checks of solver_n34.verify, solver_cpsat.verify_and_print and
      the first half of solver_n34_plus.verify, in their order. The list is
      empty exactly when L is a Latin square and F balances every round,
      every A-player and every B-player. */
  method BalanceIssues(L: Table, F: Table, n: nat, m: int) returns (errs: seq<Issue>)
    requires IsSquare(L, n) && IsSquare(F, n)
    ensures errs == BalanceReport(L, F, n, m)
    ensures errs == [] <==> IsLatin(L, n) && Balanced(L, F, n, m) && RoundsBalanced(F, n, m)
  {
    var e1 := RowPermIssues(L, n);
    var e2 := ColPermIssues(L, n);
    var e3 := RowSumIssues(F, n, m);
    var e4 := ColSumIssues(F, n, m);
    var e5 := BSecondIssues(L, F, n, m);
    var e6 := RoundBFirstIssues(F, n, m);
    errs := e1 + e2 + e3 + e4 + e5 + e6;
    BalanceReportEmpty(L, F, n, m);
  }

  /** solver_cpsat.verify_and_print: False when any error was collected. */
  method VerifyAndPrint(L: Table, F: Table, n: nat, m: int) returns (ok: bool)
    requires IsSquare(L, n) && IsSquare(F, n)
    ensures ok <==> IsLatin(L, n) && Balanced(L, F, n, m) && RoundsBalanced(F, n, m)
  {
    var errs := BalanceIssues(L, F, n, m);
    ok := errs == [];
  }
}
