/** solver_fast.solve_sa: simulated annealing over 0/1 colourings F whose
    rows hold m ones, driving every column sum and every B-transversal sum
    to m. The random numbers and the floating-point acceptance test are
    nondeterministic choices here; what is kept exactly is the bookkeeping
    the search relies on. */
module Annealing {
  import opened Outcomes
  import opened Tables
  import opened Inverse
  import opened Checks

  // ----- energy -----

  /** Python's x**2. */
  function Sq(x: int): (y: int)
    ensures y >= 0 && (y == 0 <==> x == 0)
  {
    if x < 0 then (-x) * (-x) else x * x
  }

  /** sum((c - m)**2 for c in s) */
  function SqDev(s: seq<int>, m: int): (e: int)
    ensures e >= 0
  {
    if s == [] then 0 else SqDev(s[..|s| - 1], m) + Sq(s[|s| - 1] - m)
  }

  /** The energy is zero exactly when every entry is m. */
  lemma {:induction false} SqDevZero(s: seq<int>, m: int)
    ensures SqDev(s, m) == 0 <==> forall k :: 0 <= k < |s| ==> s[k] == m
  {
    if s != [] {
      var t := s[..|s| - 1];
      SqDevZero(t, m);
      assert forall k :: 0 <= k < |t| ==> t[k] == s[k];
    }
  }

  /** Changing one entry changes the energy by that entry's term alone. */
  lemma {:induction false} SqDevUpdate(s: seq<int>, m: int, k: nat, v: int)
    requires k < |s|
    ensures SqDev(s[k := v], m) == SqDev(s, m) - Sq(s[k] - m) + Sq(v - m)
  {
    var t := s[k := v];
    if k == |s| - 1 {
      assert t[..|t| - 1] == s[..|s| - 1];
    } else {
      SqDevUpdate(s[..|s| - 1], m, k, v);
      assert t[..|t| - 1] == s[..|s| - 1][k := v];
    }
  }

  /** Changing one entry of a row changes its sum by the difference. */
  lemma {:induction false} SumUpdate(s: seq<int>, k: nat, v: int)
    requires k < |s|
    ensures Sum(s[k := v]) == Sum(s) - s[k] + v
  {
    var t := s[k := v];
    if k == |s| - 1 {
      assert t[..|t| - 1] == s[..|s| - 1];
    } else {
      SumUpdate(s[..|s| - 1], k, v);
      assert t[..|t| - 1] == s[..|s| - 1][k := v];
    }
  }

  // ----- colourings and the move -----

  /** What solve_sa keeps at every step: a 0/1 square with m ones per row. */
  predicate Colouring(F: Table, n: nat, m: int)
  {
    IsSquare(F, n) && IsBinary(F) && forall r :: 0 <= r < n ==> Sum(F[r]) == m
  }

  /** trans names one cell in every round for each of the n lines it tracks. */
  predicate LinesOk(trans: Table, n: nat)
  {
    IsSquare(trans, n) && forall j :: 0 <= j < n ==> InRange(trans[j], n)
  }

  /** col_sum as computed from F. */
  function ColSums(F: Table, n: nat): (c: seq<int>)
    requires IsSquare(F, n)
    ensures |c| == n
  {
    seq(n, i requires 0 <= i < n => ColSum(F, i))
  }

  /** bt_sum as computed from F: sum(F[r][trans[j][r]] for r in range(n)). */
  function LineSums(F: Table, trans: Table, n: nat): (b: seq<int>)
    requires IsSquare(F, n) && LinesOk(trans, n)
    ensures |b| == n
  {
    seq(n, j requires 0 <= j < n => TransversalSumUpTo(F, trans[j], n))
  }

  /** The energy of F computed from scratch. */
  function Energy(F: Table, trans: Table, n: nat, m: int): int
    requires IsSquare(F, n) && LinesOk(trans, n)
  {
    SqDev(ColSums(F, n), m) + SqDev(LineSums(F, trans, n), m)
  }

  /** `F[r][i1] = 0; F[r][i0] = 1` */
  function Flip(F: Table, r: nat, i1: nat, i0: nat): Table
    requires r < |F| && i1 < |F[r]| && i0 < |F[r]|
  {
    F[r := F[r][i1 := 0][i0 := 1]]
  }

  /** A legal move: in round r, cell i1 holds a one and cell i0 a zero. */
  predicate Move(F: Table, n: nat, r: nat, i1: nat, i0: nat)
    requires IsSquare(F, n)
  {
    r < n && i1 < n && i0 < n && F[r][i1] == 1 && F[r][i0] == 0
  }

  /** A move keeps F a colouring with m ones per row. */
  lemma FlipColouring(F: Table, n: nat, m: int, r: nat, i1: nat, i0: nat)
    requires Colouring(F, n, m) && Move(F, n, r, i1, i0)
    ensures Colouring(Flip(F, r, i1, i0), n, m)
  {
    SumUpdate(F[r], i1, 0);
    SumUpdate(F[r][i1 := 0], i0, 1);
  }

  /** A move takes one from column i1 and gives one to column i0. */
  lemma FlipColSum(F: Table, n: nat, r: nat, i1: nat, i0: nat, i: nat)
    requires IsSquare(F, n) && Move(F, n, r, i1, i0) && i < n
    ensures ColSum(Flip(F, r, i1, i0), i) == ColSum(F, i) + (if i == i1 then -1 else if i == i0 then 1 else 0)
  {
    var G := Flip(F, r, i1, i0);
    assert Column(G, i) == Column(F, i)[r := G[r][i]];
    SumUpdate(Column(F, i), r, G[r][i]);
  }

  /** How a move changes a line that passes through cell t[r] of round r. */
  function Shift(t: seq<int>, r: nat, i1: int, i0: int): int
    requires r < |t|
  {
    if t[r] == i1 then -1 else if t[r] == i0 then 1 else 0
  }

  /** A move changes the sum along a line only where the line crosses round r. */
  lemma {:induction false} FlipLineSum(F: Table, n: nat, t: seq<int>, r: nat, i1: nat, i0: nat, k: nat)
    requires IsSquare(F, n) && Move(F, n, r, i1, i0) && |t| == n && InRange(t, n) && k <= n
    ensures TransversalSumUpTo(Flip(F, r, i1, i0), t, k)
            == TransversalSumUpTo(F, t, k) + if r < k then Shift(t, r, i1, i0) else 0
  {
    if k > 0 {
      FlipLineSum(F, n, t, r, i1, i0, k - 1);
    }
  }

  // ----- the tracked sums after a move -----

  /** `col_sum[i1] -= 1; col_sum[i0] += 1` */
  function ColMoved(c: seq<int>, i1: nat, i0: nat): seq<int>
    requires i1 < |c| && i0 < |c|
  {
    c[i1 := c[i1] - 1][i0 := c[i0] + 1]
  }

  /** bt_sum once the update loop has passed lines 0..k-1. */
  function LinesMovedUpTo(b: seq<int>, trans: Table, n: nat, r: nat, i1: nat, i0: nat, k: nat): (b': seq<int>)
    requires |b| == n && LinesOk(trans, n) && r < n
    ensures |b'| == n
  {
    seq(n, j requires 0 <= j < n => if j < k then b[j] + Shift(trans[j], r, i1, i0) else b[j])
  }

  /** `for j in range(n): if trans[j][r] == i1: bt_sum[j] -= 1 elif trans[j][r] == i0: bt_sum[j] += 1` */
  function LinesMoved(b: seq<int>, trans: Table, n: nat, r: nat, i1: nat, i0: nat): seq<int>
    requires |b| == n && LinesOk(trans, n) && r < n
  {
    LinesMovedUpTo(b, trans, n, r, i1, i0, n)
  }

  /** Applying the two update rules to sums computed from F gives the sums
      computed from the moved F. */
  lemma FlipSums(F: Table, trans: Table, n: nat, r: nat, i1: nat, i0: nat)
    requires IsSquare(F, n) && LinesOk(trans, n) && Move(F, n, r, i1, i0)
    ensures ColSums(Flip(F, r, i1, i0), n) == ColMoved(ColSums(F, n), i1, i0)
    ensures LineSums(Flip(F, r, i1, i0), trans, n) == LinesMoved(LineSums(F, trans, n), trans, n, r, i1, i0)
  {
    var G := Flip(F, r, i1, i0);
    forall i | 0 <= i < n ensures ColSums(G, n)[i] == ColMoved(ColSums(F, n), i1, i0)[i] {
      FlipColSum(F, n, r, i1, i0, i);
    }
    forall j | 0 <= j < n
      ensures LineSums(G, trans, n)[j] == LinesMoved(LineSums(F, trans, n), trans, n, r, i1, i0)[j]
    {
      FlipLineSum(F, n, trans[j], r, i1, i0, n);
    }
  }

  /** The d_col formula is the exact change of the column part of the energy. */
  lemma ColDelta(c: seq<int>, m: int, i1: nat, i0: nat)
    requires i1 < |c| && i0 < |c| && i1 != i0
    ensures SqDev(ColMoved(c, i1, i0), m) - SqDev(c, m)
            == Sq(c[i1] - 1 - m) - Sq(c[i1] - m) + Sq(c[i0] + 1 - m) - Sq(c[i0] - m)
  {
    SqDevUpdate(c, m, i1, c[i1] - 1);
    SqDevUpdate(c[i1 := c[i1] - 1], m, i0, c[i0] + 1);
  }

  /** One more line of the d_bt loop: its term is that line's change of energy. */
  lemma LineDeltaStep(b: seq<int>, trans: Table, n: nat, m: int, r: nat, i1: nat, i0: nat, j: nat)
    requires |b| == n && LinesOk(trans, n) && r < n && j < n
    ensures SqDev(LinesMovedUpTo(b, trans, n, r, i1, i0, j + 1), m)
            == SqDev(LinesMovedUpTo(b, trans, n, r, i1, i0, j), m)
               + (if trans[j][r] == i1 then Sq(b[j] - 1 - m) - Sq(b[j] - m)
                  else if trans[j][r] == i0 then Sq(b[j] + 1 - m) - Sq(b[j] - m)
                  else 0)
  {
    var moved := LinesMovedUpTo(b, trans, n, r, i1, i0, j);
    SqDevUpdate(moved, m, j, b[j] + Shift(trans[j], r, i1, i0));
    assert moved[j := b[j] + Shift(trans[j], r, i1, i0)] == LinesMovedUpTo(b, trans, n, r, i1, i0, j + 1);
  }

  /** The d_bt loop: the exact change of the transversal part of the energy. */
  method LineDelta(b: seq<int>, trans: Table, n: nat, m: int, r: nat, i1: nat, i0: nat) returns (d: int)
    requires |b| == n && LinesOk(trans, n) && r < n
    ensures d == SqDev(LinesMoved(b, trans, n, r, i1, i0), m) - SqDev(b, m)
  {
    d := 0;
    var j := 0;
    assert LinesMovedUpTo(b, trans, n, r, i1, i0, 0) == b;
    while j < n
      invariant j <= n
      invariant d == SqDev(LinesMovedUpTo(b, trans, n, r, i1, i0, j), m) - SqDev(b, m)
    {
      LineDeltaStep(b, trans, n, m, r, i1, i0, j);
      if trans[j][r] == i1 {
        d := d + Sq(b[j] - 1 - m) - Sq(b[j] - m);
      } else if trans[j][r] == i0 {
        d := d + Sq(b[j] + 1 - m) - Sq(b[j] - m);
      }
      j := j + 1;
    }
  }

  /** The bt_sum update loop of an accepted move. */
  method MoveLines(b: seq<int>, trans: Table, n: nat, r: nat, i1: nat, i0: nat) returns (b': seq<int>)
    requires |b| == n && LinesOk(trans, n) && r < n
    ensures b' == LinesMoved(b, trans, n, r, i1, i0)
  {
    b' := b;
    var j := 0;
    assert LinesMovedUpTo(b, trans, n, r, i1, i0, 0) == b;
    while j < n
      invariant j <= n && b' == LinesMovedUpTo(b, trans, n, r, i1, i0, j)
    {
      if trans[j][r] == i1 {
        b' := b'[j := b'[j] - 1];
      } else if trans[j][r] == i0 {
        b' := b'[j := b'[j] + 1];
      }
      assert b' == LinesMovedUpTo(b, trans, n, r, i1, i0, j + 1);
      j := j + 1;
    }
  }

  /** Zero energy means every column and every tracked line sums to m. */
  lemma EnergyZero(F: Table, trans: Table, n: nat, m: int)
    requires IsSquare(F, n) && LinesOk(trans, n)
    ensures Energy(F, trans, n, m) == 0 <==>
              (forall i :: 0 <= i < n ==> ColSum(F, i) == m) &&
              (forall j :: 0 <= j < n ==> TransversalSumUpTo(F, trans[j], n) == m)
  {
    var c, b := ColSums(F, n), LineSums(F, trans, n);
    SqDevZero(c, m);
    SqDevZero(b, m);
    assert forall i :: 0 <= i < n ==> c[i] == ColSum(F, i);
    assert forall j :: 0 <= j < n ==> b[j] == TransversalSumUpTo(F, trans[j], n);
  }

  // ----- the starting colouring -----

  /** `[1]*m + [0]*(n-m)` */
  function StartRow(n: nat, m: nat): (row: seq<int>)
    requires m <= n
    ensures |row| == n
  {
    seq(n, i => if i < m then 1 else 0)
  }

  lemma {:induction false} StartRowSum(n: nat, m: nat, k: nat)
    requires m <= n && k <= n
    ensures Sum(StartRow(n, m)[..k]) == if k < m then k else m
  {
    if k > 0 {
      StartRowSum(n, m, k - 1);
      assert StartRow(n, m)[..k][..k - 1] == StartRow(n, m)[..k - 1];
    }
  }

  /** `x[i], x[j] = x[j], x[i]` keeps the contents. */
  lemma SwapKeepsContents(t: seq<int>, i: nat, j: nat)
    requires i < |t| && j < |t|
    ensures multiset(t[i := t[j]][j := t[i]]) == multiset(t)
  {
    if i != j {
      var u := t[i := t[j]];
      assert multiset(u) == multiset(t) - multiset{t[i]} + multiset{t[j]};
      assert multiset(u[j := t[i]]) == multiset(u) - multiset{u[j]} + multiset{t[i]};
    }
  }

  /** random.shuffle: from the back, swap x[i] with x[j] for some j in 0..i. */
  method Shuffle(s: seq<int>) returns (t: seq<int>)
    ensures |t| == |s| && multiset(t) == multiset(s)
  {
    t := s;
    var i := |t| - 1;
    while i > 0
      invariant |t| == |s| && multiset(t) == multiset(s) && i < |t|
    {
      var j :| 0 <= j <= i;
      SwapKeepsContents(t, i, j);
      t := t[i := t[j]][j := t[i]];
      i := i - 1;
    }
  }

  /** A shuffle of `[1]*m + [0]*(n-m)` is a 0/1 row with m ones. */
  lemma ShuffledRow(t: seq<int>, n: nat, m: nat)
    requires m <= n && multiset(t) == multiset(StartRow(n, m))
    ensures |t| == n && IsBinaryRow(t) && Sum(t) == m
  {
    var s := StartRow(n, m);
    assert |t| == |multiset(t)| == |multiset(s)| == n;
    forall i | 0 <= i < |t| ensures t[i] == 0 || t[i] == 1 {
      assert t[i] in multiset(s);
    }
    BinaryRowZeros(t);
    BinaryRowZeros(s);
    StartRowSum(n, m, n);
    assert s[..n] == s;
  }

  /** The first colouring of an attempt: every row a shuffled `[1]*m + [0]*(n-m)`. */
  method RandomColouring(n: nat, m: nat) returns (F: Table)
    requires m <= n
    ensures Colouring(F, n, m)
  {
    F := [];
    var r := 0;
    while r < n
      invariant r <= n && |F| == r
      invariant forall r' :: 0 <= r' < r ==> |F[r']| == n && IsBinaryRow(F[r']) && Sum(F[r']) == m
    {
      var row := Shuffle(StartRow(n, m));
      ShuffledRow(row, n, m);
      F := F + [row];
      r := r + 1;
    }
  }

  // ----- the search -----

  /** The bookkeeping of solve_sa: col_sum, bt_sum and energy always agree
      with a fresh computation from F. */
  predicate Tracked(F: Table, colSum: seq<int>, lineSum: seq<int>, energy: int, trans: Table, n: nat, m: int)
    requires LinesOk(trans, n)
  {
    && Colouring(F, n, m)
    && colSum == ColSums(F, n)
    && lineSum == LineSums(F, trans, n)
    && energy == Energy(F, trans, n, m)
  }

  /** A 0/1 row sums to between 0 and its length; at 0 it is all zeros and
      at its length all ones. */
  lemma {:induction false} UniformRow(s: seq<int>)
    requires IsBinaryRow(s)
    ensures 0 <= Sum(s) <= |s|
    ensures Sum(s) == 0 ==> forall k :: 0 <= k < |s| ==> s[k] == 0
    ensures Sum(s) == |s| ==> forall k :: 0 <= k < |s| ==> s[k] == 1
  {
    if s != [] {
      var t := s[..|s| - 1];
      UniformRow(t);
      assert forall k :: 0 <= k < |t| ==> t[k] == s[k];
    }
  }

  lemma {:induction false} ConstantSum(s: seq<int>, c: int)
    requires forall k :: 0 <= k < |s| ==> s[k] == c
    ensures Sum(s) == |s| * c
  {
    if s != [] {
      ConstantSum(s[..|s| - 1], c);
    }
  }

  lemma {:induction false} ConstantLineSum(F: Table, t: seq<int>, k: nat, c: int)
    requires k <= |F| && k <= |t| && forall r :: 0 <= r < k ==> 0 <= t[r] < |F[r]|
    requires forall r :: 0 <= r < k ==> F[r][t[r]] == c
    ensures TransversalSumUpTo(F, t, k) == k * c
  {
    if k > 0 {
      ConstantLineSum(F, t, k - 1, c);
    }
  }

  /** With m = 0 or m = n every row is all zeros or all ones, so every column
      and every tracked line already sums to m: the first colouring drawn
      has energy zero and is returned before any move is tried. */
  lemma UniformColouringEnergy(F: Table, trans: Table, n: nat, m: int)
    requires Colouring(F, n, m) && LinesOk(trans, n)
    ensures (m == 0 || m == n) ==> Energy(F, trans, n, m) == 0
  {
    if m == 0 || m == n {
      var c := if m == 0 then 0 else 1;
      forall r | 0 <= r < n ensures forall i :: 0 <= i < n ==> F[r][i] == c {
        UniformRow(F[r]);
      }
      forall i | 0 <= i < n ensures ColSum(F, i) == m {
        ConstantSum(Column(F, i), c);
      }
      forall j | 0 <= j < n ensures TransversalSumUpTo(F, trans[j], n) == m {
        ConstantLineSum(F, trans[j], n, c);
      }
      EnergyZero(F, trans, n, m);
    }
  }

  /** A 0/1 row with m ones, 0 < m < n, has a one and a zero to swap. */
  lemma RowHasOneAndZero(row: seq<int>, n: nat, m: int)
    requires |row| == n && IsBinaryRow(row) && Sum(row) == m && 0 < m < n
    ensures 1 in row && 0 in row
  {
    BinaryRowZeros(row);
  }

  /** One step of the annealing loop, for the move (r, i1, i0) the random
      generator picked. delta is the exact energy change; a move that lowers
      the energy is always taken, any other may or may not be; a move not
      taken changes nothing. */
  method AnnealStep(F: Table, colSum: seq<int>, lineSum: seq<int>, energy: int, trans: Table,
                    n: nat, m: int, r: nat, i1: nat, i0: nat)
    returns (F': Table, colSum': seq<int>, lineSum': seq<int>, energy': int, accepted: bool)
    requires LinesOk(trans, n) && Tracked(F, colSum, lineSum, energy, trans, n, m)
    requires Move(F, n, r, i1, i0)
    ensures Tracked(F', colSum', lineSum', energy', trans, n, m)
    ensures accepted ==> F' == Flip(F, r, i1, i0)
    ensures !accepted ==> F' == F && colSum' == colSum && lineSum' == lineSum && energy' == energy
    ensures Energy(Flip(F, r, i1, i0), trans, n, m) < energy ==> accepted
  {
    var dCol := Sq(colSum[i1] - 1 - m) - Sq(colSum[i1] - m) + Sq(colSum[i0] + 1 - m) - Sq(colSum[i0] - m);
    var dLine := LineDelta(lineSum, trans, n, m, r, i1, i0);
    var delta := dCol + dLine;
    ColDelta(colSum, m, i1, i0);
    FlipSums(F, trans, n, r, i1, i0);
    assert Energy(Flip(F, r, i1, i0), trans, n, m) == energy + delta;
    accepted :| delta < 0 ==> accepted;
    if accepted {
      F' := Flip(F, r, i1, i0);
      colSum' := ColMoved(colSum, i1, i0);
      lineSum' := MoveLines(lineSum, trans, n, r, i1, i0);
      energy' := energy + delta;
      FlipColouring(F, n, m, r, i1, i0);
    } else {
      F', colSum', lineSum', energy' := F, colSum, lineSum, energy;
    }
  }

  /** Every entry of a transversal table names a column, even for a
      non-Latin L, because L_inv starts from zeros. */
  lemma TransversalsOk(L: Table, n: nat)
    requires IsSquare(L, n)
    ensures LinesOk(Transversals(L, n), n)
  {
  }

  /** solve_sa: up to maxAttempts restarts of up to maxSteps moves each. A
      colouring is returned only at energy zero, so its column sums and its
      B-transversal sums are all m; on a Latin L that balances every player. */
  method SolveSa(L: Table, n: nat, m: nat, maxAttempts: nat, maxSteps: nat) returns (res: Option<Table>)
    requires IsSquare(L, n) && EntriesInRange(L, n) && m <= n
    ensures res.Some? ==> Colouring(res.value, n, m)
    ensures res.Some? ==> forall i :: 0 <= i < n ==> ColSum(res.value, i) == m
    ensures res.Some? ==> forall j :: 0 <= j < n ==> TransversalSumUpTo(res.value, Transversals(L, n)[j], n) == m
    ensures res.Some? && RowsArePerms(L, n) ==> Balanced(L, res.value, n, m)
    ensures res.Some? && n == 2 * m ==> RoundsBalanced(res.value, n, m)
  {
    var trans := ComputeBTransversals(L, n);
    TransversalsOk(L, n);
    var attempt := 0;
    while attempt < maxAttempts
      invariant attempt <= maxAttempts
    {
      var F := RandomColouring(n, m);
      var colSum := ColSums(F, n);
      var lineSum := LineSums(F, trans, n);
      var energy := SqDev(colSum, m) + SqDev(lineSum, m);
      if energy == 0 {
        res := Some(F);
        Solved(L, F, n, m);
        return;
      }
      UniformColouringEnergy(F, trans, n, m);
      var step := 0;
      while step < maxSteps
        invariant step <= maxSteps && Tracked(F, colSum, lineSum, energy, trans, n, m)
      {
        var r :| 0 <= r < n;
        RowHasOneAndZero(F[r], n, m);
        var i1 :| 0 <= i1 < n && F[r][i1] == 1;
        var i0 :| 0 <= i0 < n && F[r][i0] == 0;
        var accepted;
        F, colSum, lineSum, energy, accepted := AnnealStep(F, colSum, lineSum, energy, trans, n, m, r, i1, i0);
        if accepted && energy == 0 {
          res := Some(F);
          Solved(L, F, n, m);
          return;
        }
        step := step + 1;
      }
      attempt := attempt + 1;
    }
    res := None;
  }

  /** What zero energy gives the caller of solve_sa. */
  lemma Solved(L: Table, F: Table, n: nat, m: nat)
    requires IsSquare(L, n) && Colouring(F, n, m)
    requires LinesOk(Transversals(L, n), n) && Energy(F, Transversals(L, n), n, m) == 0
    ensures forall i :: 0 <= i < n ==> ColSum(F, i) == m
    ensures forall j :: 0 <= j < n ==> TransversalSumUpTo(F, Transversals(L, n)[j], n) == m
    ensures RowsArePerms(L, n) ==> Balanced(L, F, n, m)
    ensures n == 2 * m ==> RoundsBalanced(F, n, m)
  {
    EnergyZero(F, Transversals(L, n), n, m);
    if RowsArePerms(L, n) {
      forall j | 0 <= j < n ensures BSecond(L, F, n, j) == m {
        BSecondAlongTransversal(L, F, n, j, n);
      }
    }
    if n == 2 * m {
      RoundsBalancedFromRowSums(F, n, m);
    }
  }
}
