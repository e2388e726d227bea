/** solver.solve: the cyclic-pairing local search. Round r pairs A_i with
    B_{(i+r)%n}, so B_k's balance is read along the anti-diagonal of cells
    with (r+i)%n == k; the search drives every column sum and every
    anti-diagonal sum of F to m. */
module LocalSearch {
  import opened Outcomes
  import opened Tables
  import opened Checks
  import opened Annealing
  import opened Squares

  /** Line k passes through cell (k - r) % n of round r: the cells with (r+i)%n == k. */
  function AntiDiagonals(n: nat): (D: Table)
    ensures LinesOk(D, n)
  {
    seq(n, k => seq(n, r => if n == 0 then 0 else (k - r) % n))
  }

  /** The anti-diagonal through cell (r, i) is (r+i)%n. */
  lemma OnAntiDiagonal(n: nat, k: nat, r: nat, i: nat)
    requires k < n && r < n && i < n
    ensures AntiDiagonals(n)[k][r] == i <==> (r + i) % n == k
  {
    Wrap(k - r, n);
    Wrap(r + i, n);
  }

  /** `ad_sum[(r+i) % n] += 1` for every one of F: each anti-diagonal sum
      is the sum of F along that anti-diagonal. */
  method AntiDiagonalSums(F: Table, n: nat) returns (ad: seq<int>)
    requires IsSquare(F, n) && IsBinary(F)
    ensures ad == LineSums(F, AntiDiagonals(n), n)
  {
    var D := AntiDiagonals(n);
    ad := seq(n, _ => 0);
    var r := 0;
    while r < n
      invariant r <= n && |ad| == n
      invariant forall k :: 0 <= k < n ==> ad[k] == TransversalSumUpTo(F, D[k], r)
    {
      var i := 0;
      while i < n
        invariant i <= n && |ad| == n
        invariant forall k :: 0 <= k < n ==>
                    ad[k] == TransversalSumUpTo(F, D[k], r) + if D[k][r] < i then F[r][D[k][r]] else 0
      {
        forall k | 0 <= k < n ensures D[k][r] == i <==> (r + i) % n == k {
          OnAntiDiagonal(n, k, r, i);
        }
        if F[r][i] != 0 {
          ad := ad[(r + i) % n := ad[(r + i) % n] + 1];
        }
        i := i + 1;
      }
      r := r + 1;
    }
  }

  /** The two anti-diagonals a move touches are different, and updating
      just those two is the line update of the move. */
  lemma DiagonalMove(F: Table, adSum: seq<int>, n: nat, r: nat, i1: nat, i0: nat)
    requires IsSquare(F, n) && Move(F, n, r, i1, i0) && |adSum| == n
    ensures (r + i1) % n != (r + i0) % n
    ensures LinesMoved(adSum, AntiDiagonals(n), n, r, i1, i0)
            == ColMoved(adSum, (r + i1) % n, (r + i0) % n)
  {
    var k1, k0 := (r + i1) % n, (r + i0) % n;
    OnAntiDiagonal(n, k1, r, i1);
    OnAntiDiagonal(n, k1, r, i0);
    forall j | 0 <= j < n
      ensures LinesMoved(adSum, AntiDiagonals(n), n, r, i1, i0)[j] == ColMoved(adSum, k1, k0)[j]
    {
      OnAntiDiagonal(n, j, r, i1);
      OnAntiDiagonal(n, j, r, i0);
    }
  }

  /** One step of solve's local search for the move (r, i1, i0) the random
      generator picked: delta is the exact energy change, a lowering move is
      always taken, and a move not taken changes nothing. */
  method SearchStep(F: Table, colSum: seq<int>, adSum: seq<int>, energy: int, n: nat, m: int,
                    r: nat, i1: nat, i0: nat)
    returns (F': Table, colSum': seq<int>, adSum': seq<int>, energy': int, accepted: bool)
    requires Tracked(F, colSum, adSum, energy, AntiDiagonals(n), n, m)
    requires Move(F, n, r, i1, i0)
    ensures Tracked(F', colSum', adSum', energy', AntiDiagonals(n), n, m)
    ensures accepted ==> F' == Flip(F, r, i1, i0)
    ensures !accepted ==> F' == F && colSum' == colSum && adSum' == adSum && energy' == energy
    ensures Energy(Flip(F, r, i1, i0), AntiDiagonals(n), n, m) < energy ==> accepted
  {
    var dCol := Sq(colSum[i1] - 1 - m) - Sq(colSum[i1] - m) + Sq(colSum[i0] + 1 - m) - Sq(colSum[i0] - m);
    var dAd := AntiDiagonalDelta(F, adSum, n, m, r, i1, i0);
    var delta := dCol + dAd;
    ColDelta(colSum, m, i1, i0);
    FlipSums(F, AntiDiagonals(n), n, r, i1, i0);
    assert Energy(Flip(F, r, i1, i0), AntiDiagonals(n), n, m) == energy + delta;
    accepted :| delta < 0 ==> accepted;
    if accepted {
      F' := Flip(F, r, i1, i0);
      colSum' := ColMoved(colSum, i1, i0);
      adSum' := MoveAntiDiagonals(F, adSum, n, r, i1, i0);
      energy' := energy + delta;
      FlipColouring(F, n, m, r, i1, i0);
    } else {
      F', colSum', adSum', energy' := F, colSum, adSum, energy;
    }
  }

  /** `ad_sum[ad_k1] -= 1; ad_sum[ad_k0] += 1` */
  method MoveAntiDiagonals(F: Table, adSum: seq<int>, n: nat, r: nat, i1: nat, i0: nat)
    returns (adSum': seq<int>)
    requires IsSquare(F, n) && Move(F, n, r, i1, i0) && |adSum| == n
    ensures adSum' == LinesMoved(adSum, AntiDiagonals(n), n, r, i1, i0)
  {
    var k1, k0 := (r + i1) % n, (r + i0) % n;
    adSum' := adSum[k1 := adSum[k1] - 1];
    adSum' := adSum'[k0 := adSum'[k0] + 1];
    DiagonalMove(F, adSum, n, r, i1, i0);
  }

  /** d_ad: the exact change of the anti-diagonal part of the energy. */
  method AntiDiagonalDelta(F: Table, adSum: seq<int>, n: nat, m: int, r: nat, i1: nat, i0: nat)
    returns (dAd: int)
    requires IsSquare(F, n) && Move(F, n, r, i1, i0) && |adSum| == n
    ensures dAd == SqDev(LinesMoved(adSum, AntiDiagonals(n), n, r, i1, i0), m) - SqDev(adSum, m)
  {
    var k1, k0 := (r + i1) % n, (r + i0) % n;
    if k1 == k0 {
      dAd := 0;
    } else {
      dAd := Sq(adSum[k1] - 1 - m) - Sq(adSum[k1] - m) + Sq(adSum[k0] + 1 - m) - Sq(adSum[k0] - m);
    }
    DiagonalMove(F, adSum, n, r, i1, i0);
    ColDelta(adSum, m, k1, k0);
  }

  /** solver.solve: up to maxSeeds restarts of up to maxSteps moves. A
      colouring is returned only at energy zero: every column and every
      anti-diagonal of F sums to m. */
  method Solve(n: nat, m: nat, maxSeeds: nat, maxSteps: nat) returns (res: Option<Table>)
    requires m <= n
    ensures res.Some? ==> Colouring(res.value, n, m)
    ensures res.Some? ==> forall i :: 0 <= i < n ==> ColSum(res.value, i) == m
    ensures res.Some? ==> forall k :: 0 <= k < n ==> TransversalSumUpTo(res.value, AntiDiagonals(n)[k], n) == m
    ensures res.Some? && n == 2 * m ==> RoundsBalanced(res.value, n, m)
  {
    var D := AntiDiagonals(n);
    var seed := 0;
    while seed < maxSeeds
      invariant seed <= maxSeeds
    {
      var F := RandomColouring(n, m);
      var colSum := ColSums(F, n);
      var adSum := AntiDiagonalSums(F, n);
      var energy := SqDev(colSum, m) + SqDev(adSum, m);
      if energy == 0 {
        res := Some(F);
        Found(F, n, m);
        return;
      }
      UniformColouringEnergy(F, D, n, m);
      var step := 0;
      while step < maxSteps
        invariant step <= maxSteps && Tracked(F, colSum, adSum, energy, D, n, m)
      {
        var r :| 0 <= r < n;
        RowHasOneAndZero(F[r], n, m);
        var i1 :| 0 <= i1 < n && F[r][i1] == 1;
        var i0 :| 0 <= i0 < n && F[r][i0] == 0;
        var accepted;
        F, colSum, adSum, energy, accepted := SearchStep(F, colSum, adSum, energy, n, m, r, i1, i0);
        if accepted && energy == 0 {
          res := Some(F);
          Found(F, n, m);
          return;
        }
        step := step + 1;
      }
      seed := seed + 1;
    }
    res := None;
  }

  /** What zero energy gives the caller of solve. */
  lemma Found(F: Table, n: nat, m: nat)
    requires Colouring(F, n, m) && Energy(F, AntiDiagonals(n), n, m) == 0
    ensures forall i :: 0 <= i < n ==> ColSum(F, i) == m
    ensures forall k :: 0 <= k < n ==> TransversalSumUpTo(F, AntiDiagonals(n)[k], n) == m
    ensures n == 2 * m ==> RoundsBalanced(F, n, m)
  {
    EnergyZero(F, AntiDiagonals(n), n, m);
    if n == 2 * m {
      RoundsBalancedFromRowSums(F, n, m);
    }
  }
}
