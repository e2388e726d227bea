/** Checkers for a cyclic pairing given by one shift per round (round r
    pairs A_i with B_{(i + shifts[r]) % n}): solver_ilp's `verify_full` and
    `format_schedule`, and the checking part of solver's `verify_and_print`,
    which uses the shifts 0, 1, ..., n-1. */
module Shifts {
  import opened Outcomes
  import opened Tables
  import opened Checks
  import opened Squares
  import opened Notation
  import opened Schedule
  import opened FastCheck
  import opened Annealing
  import opened LocalSearch

  // ----- residues -----

  /** Two numbers leave the same remainder exactly when their difference
      is a multiple of n. */
  lemma ModDiff(x: int, y: int, n: int)
    requires n > 0
    ensures x % n == y % n <==> (x - y) % n == 0
  {
    var qx, rx, qy, ry := x / n, x % n, y / n, y % n;
    assert x == qx * n + rx && y == qy * n + ry;
    assert x - y == (qx - qy) * n + (rx - ry);
    if rx == ry {
      ModUnique(x - y, n, qx - qy, 0);
    } else if rx > ry {
      ModUnique(x - y, n, qx - qy, rx - ry);
    } else {
      assert x - y == (qx - qy - 1) * n + (rx - ry + n);
      ModUnique(x - y, n, qx - qy - 1, rx - ry + n);
    }
  }

  // ----- the cyclic pairing -----

  /** The pairing the shifts describe: round r pairs A_i with B_{(i + shifts[r]) % n}. */
  function ShiftTable(shifts: seq<int>, n: nat): (L: Table)
    requires |shifts| == n
    ensures IsSquare(L, n)
    ensures forall r, i :: 0 <= r < n && 0 <= i < n ==> 0 <= L[r][i] < n
  {
    seq(n, r requires 0 <= r < n => seq(n, i => (i + shifts[r]) % n))
  }

  /** No two rounds use the same shift modulo n. */
  predicate ShiftsDistinct(shifts: seq<int>, n: nat)
    requires |shifts| == n
  {
    forall a, b :: 0 <= a < b < n ==> shifts[a] % n != shifts[b] % n
  }

  /** Whatever the shifts, each round pairs every A-player with a different
      B-player: every row of the table is a permutation of 0..n-1. */
  lemma ShiftRowsArePerms(shifts: seq<int>, n: nat)
    requires |shifts| == n
    ensures RowsArePerms(ShiftTable(shifts, n), n)
  {
    var L := ShiftTable(shifts, n);
    forall r | 0 <= r < n ensures IsPerm(L[r], n) {
      forall a, b | 0 <= a < b < n ensures L[r][a] != L[r][b] {
        ModDiff(a + shifts[r], b + shifts[r], n);
        Wrap(a - b, n);
      }
      InjectiveRowIsPerm(L[r], n);
    }
  }

  /** A_i meets the same B-player in rounds a and b exactly when the two
      rounds have the same shift modulo n. */
  lemma ShiftColumnEntries(shifts: seq<int>, n: nat, i: nat, a: nat, b: nat)
    requires |shifts| == n && i < n && a < n && b < n
    ensures Column(ShiftTable(shifts, n), i)[a] == Column(ShiftTable(shifts, n), i)[b]
            <==> shifts[a] % n == shifts[b] % n
  {
    ModDiff(i + shifts[a], i + shifts[b], n);
    ModDiff(shifts[a], shifts[b], n);
    assert (i + shifts[a]) - (i + shifts[b]) == shifts[a] - shifts[b];
  }

  /** No pair repeats exactly when the shifts are distinct modulo n, and
      then the cyclic pairing is a Latin square. */
  lemma ShiftsDistinctIff(shifts: seq<int>, n: nat)
    requires |shifts| == n
    ensures NoRepeatedPair(ShiftTable(shifts, n), n) <==> ShiftsDistinct(shifts, n)
    ensures IsLatin(ShiftTable(shifts, n), n) <==> ShiftsDistinct(shifts, n)
  {
    var L := ShiftTable(shifts, n);
    ShiftRowsArePerms(shifts, n);
    if ShiftsDistinct(shifts, n) {
      forall i | 0 <= i < n ensures Distinct(Column(L, i)) && IsPerm(Column(L, i), n) {
        forall a, b | 0 <= a < b < n ensures Column(L, i)[a] != Column(L, i)[b] {
          ShiftColumnEntries(shifts, n, i, a, b);
        }
        PermIff(Column(L, i), n);
      }
    } else {
      var a, b :| 0 <= a < b < n && shifts[a] % n == shifts[b] % n;
      ShiftColumnEntries(shifts, n, 0, a, b);
      assert !Distinct(Column(L, 0));
      PermIff(Column(L, 0), n);
    }
  }

  /** The shifts 0..n-1 of solver.verify_and_print are distinct modulo n. */
  lemma RangeShiftsDistinct(n: nat)
    ensures ShiftsDistinct(Range(n), n)
  {
    forall a, b | 0 <= a < b < n ensures a % n != b % n {
      Wrap(a, n);
      Wrap(b, n);
    }
  }

  /** In round r, B_j meets A_{(j - shifts[r]) % n}: the lookup of the
      B-balance check inverts the pairing, so it is B_j's transversal. */
  lemma ShiftTransversal(shifts: seq<int>, n: nat, j: nat, r: nat)
    requires |shifts| == n && j < n && r < n
    ensures 0 <= (j - shifts[r]) % n < n
    ensures ShiftTable(shifts, n)[r][(j - shifts[r]) % n] == j
    ensures Transversals(ShiftTable(shifts, n), n)[j][r] == (j - shifts[r]) % n
  {
    var L := ShiftTable(shifts, n);
    var s := shifts[r];
    var i, q := (j - s) % n, (j - s) / n;
    assert j - s == q * n + i;
    ModUnique(i + s, n, -q, j);
    assert L[r][i] == j;
    ShiftRowsArePerms(shifts, n);
    assert IsPerm(L[r], n);
    InverseInverts(L[r], n, j);
    assert Transversals(L, n)[j][r] == LastIndex(L[r], j, n);
  }

  // ----- the pair walk: Duplicate and Missing -----

  /** `if not played[i][j]`: A_i never met B_j. */
  function MissingFlag(L: Table, n: nat, i: nat, j: nat): Option<Issue>
    requires IsSquare(L, n)
  {
    if i < n && j !in Column(L, i) then Some(MissingPair(i, j)) else None
  }

  function MissingRowReport(L: Table, n: nat, i: nat, k: nat): seq<Issue>
    requires IsSquare(L, n)
  {
    Report(k, (j: nat) => MissingFlag(L, n, i, j))
  }

  /** The Missing reports for A_0..A_{k-1}, in loop order. */
  function MissingReport(L: Table, n: nat, k: nat): seq<Issue>
    requires IsSquare(L, n)
  {
    Concat(k, (i: nat) => MissingRowReport(L, n, i, n))
  }

  /** Every A-player meets every B-player. */
  predicate MeetsEveryone(L: Table, n: nat)
    requires IsSquare(L, n)
  {
    forall i, j :: 0 <= i < n && 0 <= j < n ==> j in Column(L, i)
  }

  /** Nothing is missing exactly when every A-player meets every B-player. */
  lemma MissingReportEmpty(L: Table, n: nat)
    requires IsSquare(L, n)
    ensures MissingReport(L, n, n) == [] <==> MeetsEveryone(L, n)
  {
    var g := (i: nat) => MissingRowReport(L, n, i, n);
    ConcatEmpty(n, g);
    forall i | 0 <= i < n
      ensures g(i) == [] <==> forall j :: 0 <= j < n ==> j in Column(L, i)
    {
      MissingRowReportEmpty(L, n, i);
    }
  }

  /** A_i's Missing loop is silent exactly when A_i meets everyone. */
  lemma MissingRowReportEmpty(L: Table, n: nat, i: nat)
    requires IsSquare(L, n) && i < n
    ensures MissingRowReport(L, n, i, n) == [] <==> forall j :: 0 <= j < n ==> j in Column(L, i)
  {
    var flag := (j: nat) => MissingFlag(L, n, i, j);
    ReportEmpty(n, flag);
    if !(forall j :: 0 <= j < n ==> j in Column(L, i)) {
      var j :| 0 <= j < n && j !in Column(L, i);
      assert flag(j).Some?;
    }
  }

  /** Both halves of the pair check are silent exactly when the shifts are
      distinct modulo n. */
  lemma PairCheckClean(shifts: seq<int>, n: nat)
    requires |shifts| == n
    ensures RepeatReport(ShiftTable(shifts, n), n, n) == [] <==> ShiftsDistinct(shifts, n)
    ensures MissingReport(ShiftTable(shifts, n), n, n) == [] <==> ShiftsDistinct(shifts, n)
  {
    var L := ShiftTable(shifts, n);
    RepeatReportMeansNoRepeat(L, n);
    ShiftsDistinctIff(shifts, n);
    MissingReportEmpty(L, n);
    ShiftColumnsCover(shifts, n);
  }

  /** Every A-player meets every B-player exactly when the shifts are
      distinct modulo n. */
  lemma ShiftColumnsCover(shifts: seq<int>, n: nat)
    requires |shifts| == n
    ensures MeetsEveryone(ShiftTable(shifts, n), n)
            <==> ShiftsDistinct(shifts, n)
  {
    ShiftRowsArePerms(shifts, n);
    ShiftsDistinctIff(shifts, n);
    LatinMeetsEveryone(ShiftTable(shifts, n), n);
  }

  /** For a table whose rows are permutations, every pair meets exactly
      when it is a Latin square. */
  lemma LatinMeetsEveryone(L: Table, n: nat)
    requires IsSquare(L, n) && RowsArePerms(L, n)
    ensures MeetsEveryone(L, n) <==> IsLatin(L, n)
  {
    if IsLatin(L, n) {
      forall i, j | 0 <= i < n && 0 <= j < n ensures j in Column(L, i) {
        assert IsPerm(Column(L, i), n);
        PermHasEach(Column(L, i), n, j);
      }
    }
    if MeetsEveryone(L, n) {
      forall i | 0 <= i < n ensures IsPerm(Column(L, i), n) {
        CoversIsPerm(Column(L, i), n);
      }
    }
  }

  /** The set `played` once the walk is over: the pairs of every column. */
  lemma SeenAll(L: Table, n: nat, i: int, j: int)
    requires IsSquare(L, n)
    ensures (i, j) in Seen(L, n, n, 0) <==> 0 <= i < n && j in Column(L, i)
  {
    if 0 <= i < n && j in Column(L, i) {
      var r :| 0 <= r < n && Column(L, i)[r] == j;
      assert (i, L[r][i]) in Seen(L, n, n, 0);
    }
  }

  /** The pair walk over the rounds: the Duplicate reports, and the pairs played. */
  method DuplicateIssues(L: Table, n: nat) returns (errs: seq<Issue>, played: set<(int, int)>)
    requires IsSquare(L, n)
    ensures errs == RepeatReport(L, n, n)
    ensures played == Seen(L, n, n, 0)
  {
    errs, played := [], {};
    var r := 0;
    while r < n
      invariant r <= n
      invariant played == Seen(L, n, r, 0)
      invariant errs == RepeatReport(L, n, r)
    {
      var row;
      row, played := RowRepeatIssues(L, n, r, played);
      errs := errs + row;
      r := r + 1;
    }
  }

  /** The Missing loop over `played`. */
  method MissingIssues(L: Table, n: nat, played: set<(int, int)>) returns (errs: seq<Issue>)
    requires IsSquare(L, n) && played == Seen(L, n, n, 0)
    ensures errs == MissingReport(L, n, n)
  {
    errs := [];
    var i := 0;
    while i < n
      invariant i <= n && errs == MissingReport(L, n, i)
    {
      var j := 0;
      while j < n
        invariant j <= n && errs == MissingReport(L, n, i) + MissingRowReport(L, n, i, j)
      {
        SeenAll(L, n, i, j);
        if (i, j) !in played {
          errs := errs + [MissingPair(i, j)];
        }
        j := j + 1;
      }
      i := i + 1;
    }
  }

  // ----- counting the reports about one A-player -----

  /** Among over a sequence known to be a concatenation. */
  lemma AmongSplit(whole: seq<Issue>, a: seq<Issue>, b: seq<Issue>, p: Issue -> bool)
    requires whole == a + b
    ensures Among(whole, p) == Among(a, p) + Among(b, p)
  {
    AmongAppend(a, b, p);
  }

  /** The number of issues satisfying p. */
  function Among(errs: seq<Issue>, p: Issue -> bool): nat
  {
    if errs == [] then 0 else Among(errs[..|errs| - 1], p) + if p(errs[|errs| - 1]) then 1 else 0
  }

  lemma {:induction false} AmongAppend(a: seq<Issue>, b: seq<Issue>, p: Issue -> bool)
    ensures Among(a + b, p) == Among(a, p) + Among(b, p)
  {
    if b != [] {
      var b' := b[..|b| - 1];
      assert (a + b)[..|a + b| - 1] == a + b';
      assert (a + b)[|a + b| - 1] == b[|b| - 1];
      AmongAppend(a, b', p);
      assert Among(b, p) == Among(b', p) + if p(b[|b| - 1]) then 1 else 0;
      assert Among(a + b, p) == Among(a + b', p) + if p(b[|b| - 1]) then 1 else 0;
    } else {
      assert a + b == a;
    }
  }

  /** A Duplicate report about A_i. */
  function DuplicateOf(i: int): Issue -> bool
  {
    (e: Issue) => e.RepeatedPair? && e.i == i
  }

  /** A Missing report about A_i. */
  function MissingOf(i: int): Issue -> bool
  {
    (e: Issue) => e.MissingPair? && e.i == i
  }

  /** Rounds 0..k-1 in which a column repeats a value of an earlier round. */
  function Repeats(c: seq<int>, k: nat): nat
    requires k <= |c|
  {
    if k == 0 then 0 else Repeats(c, k - 1) + if c[k - 1] in c[..k - 1] then 1 else 0
  }

  /** Values among 0..k-1 that a column never takes. */
  function Absentees(c: seq<int>, k: nat): nat
  {
    if k == 0 then 0 else Absentees(c, k - 1) + if k - 1 in c then 0 else 1
  }

  /** Round r of the walk reports at most one Duplicate about A_i: the one
      for cell (r, i) when its pair was already played. */
  lemma {:induction false} RowDuplicates(L: Table, n: nat, r: nat, i: nat, k: nat)
    requires IsSquare(L, n) && r < n && i < n && k <= n
    ensures Among(RowRepeatReport(L, n, r, k), DuplicateOf(i))
            == if i < k && L[r][i] in Column(L, i)[..r] then 1 else 0
  {
    if k > 0 {
      var flag := (x: nat) => RepeatFlag(L, n, r, x);
      RowDuplicates(L, n, r, i, k - 1);
      AmongAppend(Report(k - 1, flag), Present(flag(k - 1)), DuplicateOf(i));
      assert Among(Present(flag(k - 1)), DuplicateOf(i)) ==
             if k - 1 == i && L[r][i] in Column(L, i)[..r] then 1 else 0 by {
        if flag(k - 1).Some? {
          assert Present(flag(k - 1))[..0] == [];
        }
      }
    }
  }

  /** The Duplicate reports about A_i over rounds 0..k-1 are its column's repeats. */
  lemma {:induction false} WalkDuplicates(L: Table, n: nat, i: nat, k: nat)
    requires IsSquare(L, n) && i < n && k <= n
    ensures Among(RepeatReport(L, n, k), DuplicateOf(i)) == Repeats(Column(L, i), k)
  {
    if k > 0 {
      WalkDuplicates(L, n, i, k - 1);
      WalkDuplicatesStep(L, n, i, k);
    }
  }

  lemma WalkDuplicatesStep(L: Table, n: nat, i: nat, k: nat)
    requires IsSquare(L, n) && i < n && 0 < k <= n
    requires Among(RepeatReport(L, n, k - 1), DuplicateOf(i)) == Repeats(Column(L, i), k - 1)
    ensures Among(RepeatReport(L, n, k), DuplicateOf(i)) == Repeats(Column(L, i), k)
  {
    AmongAppend(RepeatReport(L, n, k - 1), RowRepeatReport(L, n, k - 1, n), DuplicateOf(i));
    RowDuplicates(L, n, k - 1, i, n);
  }

  /** A'_x's Missing loop reports only about A'_x: the absentees of its column. */
  lemma {:induction false} RowMissing(L: Table, n: nat, x: nat, i: nat, k: nat)
    requires IsSquare(L, n) && x < n && i < n
    ensures Among(MissingRowReport(L, n, x, k), MissingOf(i))
            == if x == i then Absentees(Column(L, i), k) else 0
  {
    if k > 0 {
      RowMissing(L, n, x, i, k - 1);
      MissingCellCount(L, n, x, i, k - 1);
      MissingRowStep(L, n, x, k);
      AmongSplit(MissingRowReport(L, n, x, k), MissingRowReport(L, n, x, k - 1),
                 Present(MissingFlag(L, n, x, k - 1)), MissingOf(i));
    }
  }

  lemma MissingRowStep(L: Table, n: nat, x: nat, k: nat)
    requires IsSquare(L, n) && k > 0
    ensures MissingRowReport(L, n, x, k) == MissingRowReport(L, n, x, k - 1) + Present(MissingFlag(L, n, x, k - 1))
  {
  }

  /** Cell (x, j) of the Missing loop reports about A_i once, when x is i and B_j is absent. */
  lemma MissingCellCount(L: Table, n: nat, x: nat, i: nat, j: nat)
    requires IsSquare(L, n) && x < n && i < n
    ensures Among(Present(MissingFlag(L, n, x, j)), MissingOf(i)) == if x == i && j !in Column(L, i) then 1 else 0
  {
    var e := Present(MissingFlag(L, n, x, j));
    if e != [] {
      assert e[..0] == [];
    }
  }

  lemma {:induction false} ReportMissing(L: Table, n: nat, i: nat, k: nat)
    requires IsSquare(L, n) && i < n && k <= n
    ensures Among(MissingReport(L, n, k), MissingOf(i)) == if i < k then Absentees(Column(L, i), n) else 0
  {
    if k > 0 {
      ReportMissing(L, n, i, k - 1);
      ReportMissingStep(L, n, i, k);
    }
  }

  lemma ReportMissingStep(L: Table, n: nat, i: nat, k: nat)
    requires IsSquare(L, n) && i < n && 0 < k <= n
    requires Among(MissingReport(L, n, k - 1), MissingOf(i)) == if i < k - 1 then Absentees(Column(L, i), n) else 0
    ensures Among(MissingReport(L, n, k), MissingOf(i)) == if i < k then Absentees(Column(L, i), n) else 0
  {
    RowMissing(L, n, k - 1, i, n);
    AmongConcatStep((x: nat) => MissingRowReport(L, n, x, n), k, MissingOf(i));
  }

  /** Counting over k parts: the first k - 1 parts, then part k - 1. */
  lemma AmongConcatStep(g: nat -> seq<Issue>, k: nat, p: Issue -> bool)
    requires k > 0
    ensures Among(Concat(k, g), p) == Among(Concat(k - 1, g), p) + Among(g(k - 1), p)
  {
    AmongAppend(Concat(k - 1, g), g(k - 1), p);
  }

  /** Each repeat leaves the set of values seen unchanged; each new value grows it. */
  lemma {:induction false} RepeatsCount(c: seq<int>, k: nat)
    requires k <= |c|
    ensures Repeats(c, k) + |Values(c[..k])| == k
  {
    if k > 0 {
      RepeatsCount(c, k - 1);
      var before, x := c[..k - 1], c[k - 1];
      assert c[..k] == before + [x];
      assert Values(c[..k]) == Values(before) + {x};
      if x in before {
        assert x in Values(before);
        assert Values(c[..k]) == Values(before);
        assert Repeats(c, k) == Repeats(c, k - 1) + 1;
      } else {
        assert x !in Values(before);
      }
    } else {
      assert Values(c[..0]) == {};
    }
  }

  /** The values a list takes. */
  function Values(s: seq<int>): set<int>
  {
    set v | v in s
  }

  lemma {:induction false} AbsenteesCount(c: seq<int>, k: nat)
    ensures Absentees(c, k) + |set v | 0 <= v < k && v in c| == k
  {
    if k > 0 {
      AbsenteesCount(c, k - 1);
      var before, after := set v | 0 <= v < k - 1 && v in c, set v | 0 <= v < k && v in c;
      if k - 1 in c {
        assert after == before + {k - 1};
      } else {
        assert after == before;
      }
    }
  }

  /** n entries in 0..n-1: every repeated entry leaves one value out, so a
      column repeats exactly as often as it misses. */
  lemma RepeatsAreAbsentees(c: seq<int>, n: nat)
    requires |c| == n && InRange(c, n)
    ensures Repeats(c, n) == Absentees(c, n)
  {
    RepeatsCount(c, n);
    AbsenteesCount(c, n);
    assert c[..n] == c;
    assert Values(c[..n]) == (set v | 0 <= v < n && v in c);
  }

  /** verify_full reports as many Duplicate pairs as Missing pairs for every
      A-player, for any pairing whose entries lie in 0..n-1. */
  lemma DuplicatesMatchMissing(L: Table, n: nat, i: nat)
    requires IsSquare(L, n) && i < n
    requires forall r, x :: 0 <= r < n && 0 <= x < n ==> 0 <= L[r][x] < n
    ensures Among(RepeatReport(L, n, n), DuplicateOf(i)) == Among(MissingReport(L, n, n), MissingOf(i))
  {
    WalkDuplicates(L, n, i, n);
    ReportMissing(L, n, i, n);
    RepeatsAreAbsentees(Column(L, i), n);
  }

  // ----- B balance through the shift -----

  /** first_count of B_j over rounds 0..k-1: in round r B_j meets
      A_{(j - shifts[r]) % n} and counts as first unless that colour is 1. */
  function FirstCountUpTo(F: Table, shifts: seq<int>, n: nat, j: int, k: nat): nat
    requires IsSquare(F, n) && |shifts| == n && k <= n
  {
    if k == 0 then 0
    else FirstCountUpTo(F, shifts, n, j, k - 1) + if F[k - 1][(j - shifts[k - 1]) % n] == 1 then 0 else 1
  }

  /** Every B-player is first m times by verify_full's count. */
  predicate FirstCountsAre(F: Table, shifts: seq<int>, n: nat, m: int)
    requires IsSquare(F, n) && |shifts| == n
  {
    forall j :: 0 <= j < n ==> FirstCountUpTo(F, shifts, n, j, n) == m
  }

  /** For a 0/1 colouring, B_j's first count is the complement of its second
      count along the pairing the shifts describe. */
  lemma {:induction false} FirstCountComplement(F: Table, shifts: seq<int>, n: nat, j: nat, k: nat)
    requires IsSquare(F, n) && IsBinary(F) && |shifts| == n && j < n && k <= n
    ensures FirstCountUpTo(F, shifts, n, j, k) + BSecondUpTo(ShiftTable(shifts, n), F, n, j, k) == k
  {
    if k > 0 {
      FirstCountComplement(F, shifts, n, j, k - 1);
      FirstCountComplementStep(F, shifts, n, j, k);
    }
  }

  lemma FirstCountComplementStep(F: Table, shifts: seq<int>, n: nat, j: nat, k: nat)
    requires IsSquare(F, n) && IsBinary(F) && |shifts| == n && j < n && 0 < k <= n
    requires FirstCountUpTo(F, shifts, n, j, k - 1) + BSecondUpTo(ShiftTable(shifts, n), F, n, j, k - 1) == k - 1
    ensures FirstCountUpTo(F, shifts, n, j, k) + BSecondUpTo(ShiftTable(shifts, n), F, n, j, k) == k
  {
    ShiftRoundHit(F, shifts, n, j, k - 1);
  }

  /** In round r, B_j is either second (one hit) or first (one first move). */
  lemma ShiftRoundHit(F: Table, shifts: seq<int>, n: nat, j: nat, r: nat)
    requires IsSquare(F, n) && IsBinary(F) && |shifts| == n && j < n && r < n
    ensures 0 <= (j - shifts[r]) % n < n
    ensures RoundHits(ShiftTable(shifts, n)[r], F[r], j, n)
            + (if F[r][(j - shifts[r]) % n] == 1 then 0 else 1) == 1
  {
    var L := ShiftTable(shifts, n);
    ShiftRowsArePerms(shifts, n);
    ShiftTransversal(shifts, n, j, r);
    RoundHitsAtInverse(L[r], F[r], n, j, n);
    assert F[r][(j - shifts[r]) % n] in {0, 1};
  }

  function FirstCountFlag(F: Table, shifts: seq<int>, n: nat, m: int, j: nat): Option<Issue>
    requires IsSquare(F, n) && |shifts| == n
  {
    if j < n && FirstCountUpTo(F, shifts, n, j, n) != m then Some(BadBFirst(j, FirstCountUpTo(F, shifts, n, j, n)))
    else None
  }

  function FirstCountReport(F: Table, shifts: seq<int>, n: nat, m: int, k: nat): seq<Issue>
    requires IsSquare(F, n) && |shifts| == n
  {
    Report(k, (j: nat) => FirstCountFlag(F, shifts, n, m, j))
  }

  lemma FirstCountReportEmpty(F: Table, shifts: seq<int>, n: nat, m: int)
    requires IsSquare(F, n) && |shifts| == n
    ensures FirstCountReport(F, shifts, n, m, n) == [] <==>
              FirstCountsAre(F, shifts, n, m)
  {
    var flag := (j: nat) => FirstCountFlag(F, shifts, n, m, j);
    ReportEmpty(n, flag);
    if !FirstCountsAre(F, shifts, n, m) {
      var x :| 0 <= x < n && FirstCountUpTo(F, shifts, n, x, n) != m;
      assert flag(x).Some?;
    } else {
      forall x: nat | x < n ensures flag(x).None? {
        assert FirstCountUpTo(F, shifts, n, x, n) == m;
      }
    }
  }

  method CountFirst(F: Table, shifts: seq<int>, n: nat, j: nat) returns (first: nat)
    requires IsSquare(F, n) && |shifts| == n
    ensures first == FirstCountUpTo(F, shifts, n, j, n)
  {
    first := 0;
    var second := 0;
    var r := 0;
    while r < n
      invariant r <= n && first == FirstCountUpTo(F, shifts, n, j, r)
    {
      var i := (j - shifts[r]) % n;
      if F[r][i] == 1 {
        second := second + 1;
      } else {
        first := first + 1;
      }
      r := r + 1;
    }
  }

  method FirstCountIssues(F: Table, shifts: seq<int>, n: nat, m: int) returns (errs: seq<Issue>)
    requires IsSquare(F, n) && |shifts| == n
    ensures errs == FirstCountReport(F, shifts, n, m, n)
  {
    errs := [];
    var j := 0;
    while j < n
      invariant j <= n && errs == FirstCountReport(F, shifts, n, m, j)
    {
      var first := CountFirst(F, shifts, n, j);
      if first != m {
        errs := errs + [BadBFirst(j, first)];
      }
      j := j + 1;
    }
  }

  // ----- solver_ilp.verify_full -----

  /** Everything verify_full reports, in its order: Duplicate and Missing
      pairs, row sums, column sums, B first counts, per-round B-first counts. */
  function FullReport(F: Table, shifts: seq<int>, n: nat, m: int): seq<Issue>
    requires IsSquare(F, n) && |shifts| == n
  {
    var L := ShiftTable(shifts, n);
    RepeatReport(L, n, n) + MissingReport(L, n, n) + RowSumReport(F, m, n) + ColSumReport(F, n, m, n)
    + FirstCountReport(F, shifts, n, m, n) + RoundBFirstReport(F, m, n)
  }

  /** verify_full is silent exactly when the shifts are distinct modulo n,
      every row and column of F sums to m, every B-player is first m times
      and every round has m B-players first. */
  lemma FullReportEmpty(F: Table, shifts: seq<int>, n: nat, m: int)
    requires IsSquare(F, n) && |shifts| == n
    ensures FullReport(F, shifts, n, m) == [] <==>
              && ShiftsDistinct(shifts, n)
              && (forall r :: 0 <= r < n ==> Sum(F[r]) == m)
              && (forall i :: 0 <= i < n ==> ColSum(F, i) == m)
              && FirstCountsAre(F, shifts, n, m)
              && RoundsBalanced(F, n, m)
  {
    PairCheckClean(shifts, n);
    RowSumReportEmpty(F, n, m);
    ColSumReportEmpty(F, n, m);
    FirstCountReportEmpty(F, shifts, n, m);
    RoundBFirstReportEmpty(F, n, m);
  }

  /** For a 0/1 colouring with n = 2m, verify_full agrees with the general
      checkers on the pairing the shifts describe: it is silent exactly when
      that pairing is a Latin square, F is balanced on it and every round
      has m B-players first. */
  lemma FullReportMeansBalanced(F: Table, shifts: seq<int>, n: nat, m: int)
    requires IsSquare(F, n) && IsBinary(F) && |shifts| == n && n == 2 * m
    ensures FullReport(F, shifts, n, m) == [] <==>
              IsLatin(ShiftTable(shifts, n), n) && Balanced(ShiftTable(shifts, n), F, n, m)
              && RoundsBalanced(F, n, m)
  {
    FullReportEmpty(F, shifts, n, m);
    ShiftsDistinctIff(shifts, n);
    FirstCountsMeanBSecond(F, shifts, n, m);
  }

  /** With n = 2m, B_j is first m times exactly when it is second m times. */
  lemma FirstCountsMeanBSecond(F: Table, shifts: seq<int>, n: nat, m: int)
    requires IsSquare(F, n) && IsBinary(F) && |shifts| == n && n == 2 * m
    ensures FirstCountsAre(F, shifts, n, m)
            <==> (forall j :: 0 <= j < n ==> BSecond(ShiftTable(shifts, n), F, n, j) == m)
  {
    var L := ShiftTable(shifts, n);
    forall j | 0 <= j < n ensures FirstCountUpTo(F, shifts, n, j, n) == m <==> BSecond(L, F, n, j) == m {
      FirstCountComplement(F, shifts, n, j, n);
    }
  }

  /** solver_ilp.verify_full(F, shifts). */
  method VerifyFull(F: Table, shifts: seq<int>, n: nat, m: int) returns (errs: seq<Issue>)
    requires IsSquare(F, n) && |shifts| == n
    ensures errs == FullReport(F, shifts, n, m)
    ensures errs == [] <==>
              && ShiftsDistinct(shifts, n)
              && (forall r :: 0 <= r < n ==> Sum(F[r]) == m)
              && (forall i :: 0 <= i < n ==> ColSum(F, i) == m)
              && FirstCountsAre(F, shifts, n, m)
              && RoundsBalanced(F, n, m)
  {
    FullReportEmpty(F, shifts, n, m);
    var L := ShiftTable(shifts, n);
    var e1, played := DuplicateIssues(L, n);
    var e2 := MissingIssues(L, n, played);
    var e3 := RowSumIssues(F, n, m);
    var e4 := ColSumIssues(F, n, m);
    var e5 := FirstCountIssues(F, shifts, n, m);
    var e6 := RoundBFirstIssues(F, n, m);
    errs := e1 + e2 + e3 + e4 + e5 + e6;
  }

  // ----- solver_ilp.format_schedule -----

  /** solver_ilp.format_schedule(F, shifts): read back line by line, round r
      pairs A_i with B_{(i + shifts[r]) % n}, A_i first exactly when F[r][i] == 1. */
  method FormatShiftSchedule(F: Table, shifts: seq<int>, n: nat) returns (text: string)
    requires IsSquare(F, n) && |shifts| == n && n > 0
    ensures text == JoinLines(RoundLines(ShiftTable(shifts, n), F, n))
    ensures ReadRows(SplitOn(text, '\n'), SolutionStep) == Ok(RoundsOf(ShiftTable(shifts, n), F, n))
    ensures forall r, i :: 0 <= r < n && 0 <= i < n ==>
              RoundsOf(ShiftTable(shifts, n), F, n)[r][i] == Match(i, (i + shifts[r]) % n, F[r][i] == 1)
  {
    var L := ShiftTable(shifts, n);
    text := FormatSchedule(L, F, n);
    ShiftTableNonNegative(shifts, n);
    ScheduleTextRoundTrip(L, F, n);
    ShiftRounds(F, shifts, n);
  }

  lemma ShiftTableNonNegative(shifts: seq<int>, n: nat)
    requires |shifts| == n
    ensures forall r, i :: 0 <= r < n && 0 <= i < n ==> ShiftTable(shifts, n)[r][i] >= 0
  {
  }

  /** The matches of round r: A_i against B_{(i + shifts[r]) % n}, A_i first
      exactly when F[r][i] == 1. */
  lemma ShiftRounds(F: Table, shifts: seq<int>, n: nat)
    requires IsSquare(F, n) && |shifts| == n
    ensures forall r, i :: 0 <= r < n && 0 <= i < n ==>
              RoundsOf(ShiftTable(shifts, n), F, n)[r][i] == Match(i, (i + shifts[r]) % n, F[r][i] == 1)
  {
    var L := ShiftTable(shifts, n);
    forall r, i | 0 <= r < n && 0 <= i < n
      ensures RoundsOf(L, F, n)[r][i] == Match(i, (i + shifts[r]) % n, F[r][i] == 1)
    {
      assert RoundsOf(L, F, n)[r] == RoundOf(L[r], F[r]);
      assert L[r][i] == (i + shifts[r]) % n;
    }
  }

  // ----- solver.verify_and_print -----

  /** b_first of B_j over rounds 0..k-1 with the shifts 0..n-1: B_j meets
      A_{(j - r) % n} in round r and is first when that colour is 0. */
  function BFirstUpTo(F: Table, n: nat, j: int, k: nat): nat
    requires IsSquare(F, n) && k <= n
  {
    if k == 0 then 0 else BFirstUpTo(F, n, j, k - 1) + if F[k - 1][(j - (k - 1)) % n] == 0 then 1 else 0
  }

  /** Every B-player is first m times by verify_and_print's count. */
  predicate BFirstsAre(F: Table, n: nat, m: int)
    requires IsSquare(F, n)
  {
    forall j :: 0 <= j < n ==> BFirstUpTo(F, n, j, n) == m
  }

  /** B_j meets A_{(j - r) % n}, the cell of round r on anti-diagonal j, so
      for a 0/1 colouring b_first is the anti-diagonal's count of zeros. */
  lemma {:induction false} BFirstIsAntiDiagonalComplement(F: Table, n: nat, j: nat, k: nat)
    requires IsSquare(F, n) && IsBinary(F) && j < n && k <= n
    ensures BFirstUpTo(F, n, j, k) + TransversalSumUpTo(F, AntiDiagonals(n)[j], k) == k
  {
    if k > 0 {
      BFirstIsAntiDiagonalComplement(F, n, j, k - 1);
      assert AntiDiagonals(n)[j][k - 1] == (j - (k - 1)) % n;
      assert F[k - 1][(j - (k - 1)) % n] in {0, 1};
    }
  }

  function BFirstFlag(F: Table, n: nat, m: int, j: nat): Option<Issue>
    requires IsSquare(F, n)
  {
    if j < n && BFirstUpTo(F, n, j, n) != m then Some(BadBFirst(j, BFirstUpTo(F, n, j, n))) else None
  }

  function BFirstReport(F: Table, n: nat, m: int, k: nat): seq<Issue>
    requires IsSquare(F, n)
  {
    Report(k, (j: nat) => BFirstFlag(F, n, m, j))
  }

  /** The errors verify_and_print collects: the pair walk over the shifts
      0..n-1, then the B-first counts. */
  function CyclicReport(F: Table, n: nat, m: int): seq<Issue>
    requires IsSquare(F, n)
  {
    var L := ShiftTable(Range(n), n);
    RepeatReport(L, n, n) + MissingReport(L, n, n) + BFirstReport(F, n, m, n)
  }

  /** The pair walk never complains, so the verdict rests on the B-first
      counts alone; for a 0/1 colouring each is n minus an anti-diagonal sum. */
  lemma CyclicReportEmpty(F: Table, n: nat, m: int)
    requires IsSquare(F, n)
    ensures RepeatReport(ShiftTable(Range(n), n), n, n) == []
    ensures MissingReport(ShiftTable(Range(n), n), n, n) == []
    ensures CyclicReport(F, n, m) == [] <==> BFirstsAre(F, n, m)
    ensures IsBinary(F) ==>
              (CyclicReport(F, n, m) == [] <==>
               forall j :: 0 <= j < n ==> TransversalSumUpTo(F, AntiDiagonals(n)[j], n) == n - m)
  {
    RangeShiftsDistinct(n);
    PairCheckClean(Range(n), n);
    BFirstReportEmpty(F, n, m);
    if IsBinary(F) {
      BFirstsAreAntiDiagonalZeros(F, n, m);
    }
  }

  lemma BFirstReportEmpty(F: Table, n: nat, m: int)
    requires IsSquare(F, n)
    ensures BFirstReport(F, n, m, n) == [] <==> BFirstsAre(F, n, m)
  {
    var flag := (j: nat) => BFirstFlag(F, n, m, j);
    ReportEmpty(n, flag);
    if !BFirstsAre(F, n, m) {
      var x :| 0 <= x < n && BFirstUpTo(F, n, x, n) != m;
      assert flag(x).Some?;
    } else {
      forall x: nat | x < n ensures flag(x).None? {
        assert BFirstUpTo(F, n, x, n) == m;
      }
    }
  }

  lemma BFirstsAreAntiDiagonalZeros(F: Table, n: nat, m: int)
    requires IsSquare(F, n) && IsBinary(F)
    ensures BFirstsAre(F, n, m) <==>
            (forall j :: 0 <= j < n ==> TransversalSumUpTo(F, AntiDiagonals(n)[j], n) == n - m)
  {
    forall j | 0 <= j < n ensures BFirstUpTo(F, n, j, n) + TransversalSumUpTo(F, AntiDiagonals(n)[j], n) == n {
      BFirstIsAntiDiagonalComplement(F, n, j, n);
    }
  }

  method CountBFirst(F: Table, n: nat, j: nat) returns (bFirst: nat)
    requires IsSquare(F, n)
    ensures bFirst == BFirstUpTo(F, n, j, n)
  {
    var shifts := Range(n);
    bFirst := 0;
    var r := 0;
    while r < n
      invariant r <= n && bFirst == BFirstUpTo(F, n, j, r)
    {
      var s := shifts[r];
      var i := (j - s) % n;
      if F[r][i] == 0 {
        bFirst := bFirst + 1;
      }
      r := r + 1;
    }
  }

  /** The checking part of solver.verify_and_print(F): True exactly when
      no error was collected. */
  method VerifyCyclic(F: Table, n: nat, m: int) returns (ok: bool)
    requires IsSquare(F, n)
    ensures ok <==> CyclicReport(F, n, m) == []
    ensures ok <==> BFirstsAre(F, n, m)
  {
    CyclicReportEmpty(F, n, m);
    var L := ShiftTable(Range(n), n);
    var e1, played := DuplicateIssues(L, n);
    var e2 := MissingIssues(L, n, played);
    var e3 := BFirstIssues(F, n, m);
    var errs := e1 + e2 + e3;
    ok := |errs| == 0;
  }

  /** The B player balance loop of verify_and_print. */
  method BFirstIssues(F: Table, n: nat, m: int) returns (errs: seq<Issue>)
    requires IsSquare(F, n)
    ensures errs == BFirstReport(F, n, m, n)
  {
    errs := [];
    var j := 0;
    while j < n
      invariant j <= n && errs == BFirstReport(F, n, m, j)
    {
      var bFirst := CountBFirst(F, n, j);
      if bFirst != m {
        errs := errs + [BadBFirst(j, bFirst)];
      }
      j := j + 1;
    }
  }

  /** What solve returns with n = 2m passes verify_and_print. */
  lemma SolvedPassesCyclicCheck(F: Table, n: nat, m: nat)
    requires Colouring(F, n, m) && n == 2 * m
    requires forall k :: 0 <= k < n ==> TransversalSumUpTo(F, AntiDiagonals(n)[k], n) == m
    ensures CyclicReport(F, n, m) == []
  {
    CyclicReportEmpty(F, n, m);
  }
}
