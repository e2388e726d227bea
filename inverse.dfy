/** The inverse pairing table `L_inv` and the B-transversals derived from it
    (solver_bt.solve_backtrack's preamble and solver_fast.compute_b_transversals). */
module Inverse {
  import opened Tables

  /** Every entry of L names a B-player, so `L_inv[r][L[r][i]]` is in bounds. */
  predicate EntriesInRange(L: Table, n: nat)
    requires IsSquare(L, n)
  {
    forall r :: 0 <= r < n ==> InRange(L[r], n)
  }

  /** `for i in range(n): L_inv[r][L[r][i]] = i` for one round: each slot ends
      with the last column that named it, and a slot nobody named keeps 0. */
  method InverseRow(row: seq<int>, n: nat) returns (inv: seq<int>)
    requires |row| == n && InRange(row, n)
    ensures |inv| == n
    ensures forall v :: 0 <= v < n ==> inv[v] == LastIndex(row, v, n)
  {
    inv := seq(n, _ => 0);
    var i := 0;
    while i < n
      invariant i <= n && |inv| == n
      invariant forall v :: 0 <= v < n ==> inv[v] == LastIndex(row, v, i)
    {
      inv := inv[row[i] := i];
      i := i + 1;
    }
  }

  /** The whole L_inv table, round by round. */
  method InverseTable(L: Table, n: nat) returns (inv: Table)
    requires IsSquare(L, n) && EntriesInRange(L, n)
    ensures IsSquare(inv, n)
    ensures forall r, v :: 0 <= r < n && 0 <= v < n ==> inv[r][v] == LastIndex(L[r], v, n)
  {
    inv := [];
    var r := 0;
    while r < n
      invariant r <= n && |inv| == r
      invariant forall r' :: 0 <= r' < r ==> |inv[r']| == n
      invariant forall r', v :: 0 <= r' < r && 0 <= v < n ==> inv[r'][v] == LastIndex(L[r'], v, n)
    {
      var row := InverseRow(L[r], n);
      inv := inv + [row];
      r := r + 1;
    }
  }

  /** solver_fast.compute_b_transversals: `trans[j] = [L_inv[r][j] for r in range(n)]`.
      For permutation rows, trans[j][r] is the one A-player that meets B_j in round r. */
  method ComputeBTransversals(L: Table, n: nat) returns (trans: Table)
    requires IsSquare(L, n) && EntriesInRange(L, n)
    ensures trans == Transversals(L, n)
    ensures RowsArePerms(L, n) ==>
              forall j, r :: 0 <= j < n && 0 <= r < n ==> 0 <= trans[j][r] < n && L[r][trans[j][r]] == j
  {
    var inv := InverseTable(L, n);
    trans := [];
    var j := 0;
    while j < n
      invariant j <= n && |trans| == j
      invariant forall j' :: 0 <= j' < j ==> trans[j'] == Transversals(L, n)[j']
    {
      var t := seq(n, r requires 0 <= r < n => inv[r][j]);
      trans := trans + [t];
      j := j + 1;
    }
    if RowsArePerms(L, n) {
      forall j, r | 0 <= j < n && 0 <= r < n ensures 0 <= trans[j][r] < n && L[r][trans[j][r]] == j {
        InverseInverts(L[r], n, j);
      }
    }
  }

  /** solver_bt's `b_trans[j] = [(r, L_inv[r][j]) for r in range(n)]`: the
      transversal with each cell's round written beside it. */
  method ComputeBTransCells(L: Table, n: nat) returns (cells: seq<seq<(int, int)>>)
    requires IsSquare(L, n) && EntriesInRange(L, n)
    ensures |cells| == n
    ensures forall j :: 0 <= j < n ==> |cells[j]| == n
    ensures forall j, r :: 0 <= j < n && 0 <= r < n ==>
              cells[j][r] == (r, Transversals(L, n)[j][r])
  {
    var inv := InverseTable(L, n);
    cells := [];
    var j := 0;
    while j < n
      invariant j <= n && |cells| == j
      invariant forall j' :: 0 <= j' < j ==> |cells[j']| == n
      invariant forall j', r :: 0 <= j' < j && 0 <= r < n ==> cells[j'][r] == (r, Transversals(L, n)[j'][r])
    {
      var t := seq(n, r requires 0 <= r < n => (r, inv[r][j]));
      cells := cells + [t];
      j := j + 1;
    }
  }
}
