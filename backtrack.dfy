/** solver_bt.solve_backtrack: the exact search that fills the colouring F
    one round at a time. A round's choice is the sorted list of the A-players
    that move first; `col_count[i]` counts the rounds that chose A_i and
    `b_count[j]` the rounds in which B_j's opponent was chosen (B_j moves
    second). A choice is applied to the counters, checked, recursed on and
    undone. */
module Backtrack {
  import opened Outcomes
  import opened Tables
  import opened Selection
  import opened Inverse

  /** A round's choice: m distinct A-players in increasing order. */
  predicate RowChoice(c: seq<int>, n: nat, m: nat)
  {
    |c| == m && Increasing(c) && InRange(c, n)
  }

  /** Number of rounds of sol that chose A_i. */
  function Hits(sol: seq<seq<int>>, i: int): nat
  {
    if sol == [] then 0 else Hits(sol[..|sol| - 1], i) + (if i in sol[|sol| - 1] then 1 else 0)
  }

  /** Number of rounds k of sol that chose the cell cells[k] of a B-transversal. */
  function TransHits(sol: seq<seq<int>>, cells: seq<(int, int)>): nat
    requires |sol| <= |cells|
  {
    if sol == [] then 0
    else TransHits(sol[..|sol| - 1], cells) + (if cells[|sol| - 1].1 in sol[|sol| - 1] then 1 else 0)
  }

  lemma HitsAppend(sol: seq<seq<int>>, c: seq<int>, i: int)
    ensures Hits(sol + [c], i) == Hits(sol, i) + (if i in c then 1 else 0)
  {
    assert (sol + [c])[..|sol|] == sol;
  }

  lemma TransHitsAppend(sol: seq<seq<int>>, c: seq<int>, cells: seq<(int, int)>)
    requires |sol| < |cells|
    ensures TransHits(sol + [c], cells) == TransHits(sol, cells) + (if cells[|sol|].1 in c then 1 else 0)
  {
    assert (sol + [c])[..|sol|] == sol;
  }

  /** `[i for i in range(n) if i not in forced and i not in forbidden]` */
  function FreeColumns(n: nat, forced: set<int>, forbidden: set<int>): seq<int>
  {
    Filter(n, set i | 0 <= i < n && i !in forced && i !in forbidden)
  }

  /** `sorted(list(forced) + list(extra))`; forced and extra never overlap. */
  function Chosen(n: nat, forced: set<int>, extra: seq<int>): seq<int>
  {
    Filter(n, forced + set x | x in extra)
  }

  /** A completion of the forced set by `need` free columns holds exactly m
      columns, holds every forced column and no forbidden one. */
  lemma ChosenShape(n: nat, m: nat, forced: set<int>, forbidden: set<int>, extra: seq<int>)
    requires forall x :: x in forced ==> 0 <= x < n
    requires |forced| <= m
    requires SubsetOf(extra, m - |forced|, FreeColumns(n, forced, forbidden))
    ensures RowChoice(Chosen(n, forced, extra), n, m)
    ensures forall x :: x in forced ==> x in Chosen(n, forced, extra)
    ensures forced * forbidden == {} ==> forall x :: x in Chosen(n, forced, extra) ==> x !in forbidden
  {
    var ex := set x | x in extra;
    forall x | x in ex ensures 0 <= x < n && x !in forced && x !in forbidden {
      var p :| 0 <= p < |extra| && extra[p] == x;
    }
    assert Distinct(extra);
    DistinctCard(extra);
    assert forced * ex == {};
    assert |forced + ex| == |forced| + |ex|;
    FilterLength(n, forced + ex);
  }

  class Backtracker {
    const n: nat
    const m: nat
    /** b_trans[j][r] == (r, L_inv[r][j]) */
    const bTrans: seq<seq<(int, int)>>
    var colCount: seq<int>
    var bCount: seq<int>
    var nodes: nat
    /** The choices of the rounds decided so far. */
    var solution: seq<seq<int>>

    ghost predicate Shape()
      reads this
    {
      && |bTrans| == n
      && (forall j :: 0 <= j < n ==> |bTrans[j]| == n)
      && (forall j, r :: 0 <= j < n && 0 <= r < n ==> bTrans[j][r].0 == r && 0 <= bTrans[j][r].1 < n)
    }

    /** The counters are exact for the choices sol. */
    ghost predicate CountsMatch(sol: seq<seq<int>>)
      reads this
      requires Shape()
    {
      && |colCount| == n && |bCount| == n && |sol| <= n
      && (forall i :: 0 <= i < n ==> colCount[i] == Hits(sol, i))
      && (forall j :: 0 <= j < n ==> bCount[j] == TransHits(sol, bTrans[j]))
    }

    ghost predicate Valid()
      reads this
    {
      && Shape()
      && CountsMatch(solution)
      && (forall k :: 0 <= k < |solution| ==> RowChoice(solution[k], n, m))
    }

    /** Every counter can still end at m with `remain` rounds left: the
        condition the post-apply check demands before recursing. */
    ghost predicate Within(remain: int)
      reads this
      requires |colCount| == n && |bCount| == n
    {
      && (forall i :: 0 <= i < n ==> colCount[i] <= m && colCount[i] + remain >= m)
      && (forall j :: 0 <= j < n ==> bCount[j] <= m && bCount[j] + remain >= m)
    }

    ghost predicate Complete()
      reads this
      requires |colCount| == n && |bCount| == n
    {
      (forall i :: 0 <= i < n ==> colCount[i] == m) && (forall j :: 0 <= j < n ==> bCount[j] == m)
    }

    constructor (n: nat, m: nat, bTrans: seq<seq<(int, int)>>)
      requires |bTrans| == n && forall j :: 0 <= j < n ==> |bTrans[j]| == n
      requires forall j, r :: 0 <= j < n && 0 <= r < n ==> bTrans[j][r].0 == r && 0 <= bTrans[j][r].1 < n
      ensures Valid() && solution == [] && nodes == 0
      ensures this.n == n && this.m == m && this.bTrans == bTrans
    {
      this.n := n;
      this.m := m;
      this.bTrans := bTrans;
      colCount := seq(n, _ => 0);
      bCount := seq(n, _ => 0);
      nodes := 0;
      solution := [];
    }

    /** Apply: `col_count[i] += 1` for each chosen i, `b_count[j] += 1` when
        B_j's cell of round r was chosen. */
    method Apply(r: nat, chosen: seq<int>)
      requires Shape() && CountsMatch(solution) && r == |solution| < n && RowChoice(chosen, n, m)
      modifies this
      ensures Shape() && CountsMatch(solution + [chosen])
      ensures solution == old(solution) && nodes == old(nodes)
    {
      var k := 0;
      while k < |chosen|
        invariant 0 <= k <= |chosen| && |colCount| == n
        invariant forall i :: 0 <= i < n ==> colCount[i] == old(colCount[i]) + (if i in chosen[..k] then 1 else 0)
        invariant bCount == old(bCount) && solution == old(solution) && nodes == old(nodes)
      {
        TakeNext(chosen, k);
        assert chosen[k] !in chosen[..k];
        colCount := colCount[chosen[k] := colCount[chosen[k]] + 1];
        k := k + 1;
      }
      var j := 0;
      while j < n
        invariant 0 <= j <= n && |bCount| == n
        invariant forall j' :: 0 <= j' < n ==>
                    bCount[j'] == old(bCount[j']) + (if j' < j && bTrans[j'][r].1 in chosen then 1 else 0)
        invariant |colCount| == n
        invariant forall i :: 0 <= i < n ==> colCount[i] == old(colCount[i]) + (if i in chosen then 1 else 0)
        invariant solution == old(solution) && nodes == old(nodes)
      {
        var (_, bi) := bTrans[j][r];
        if bi in chosen {
          bCount := bCount[j := bCount[j] + 1];
        }
        j := j + 1;
      }
      assert chosen[..|chosen|] == chosen;
      forall i | 0 <= i < n ensures colCount[i] == Hits(solution + [chosen], i) {
        HitsAppend(solution, chosen, i);
      }
      forall j | 0 <= j < n ensures bCount[j] == TransHits(solution + [chosen], bTrans[j]) {
        TransHitsAppend(solution, chosen, bTrans[j]);
      }
    }

    /** Undo: the same loops with `-= 1`. */
    method Undo(r: nat, chosen: seq<int>)
      requires Shape() && CountsMatch(solution + [chosen]) && r == |solution| < n && RowChoice(chosen, n, m)
      modifies this
      ensures Shape() && CountsMatch(solution)
      ensures solution == old(solution) && nodes == old(nodes)
    {
      var k := 0;
      while k < |chosen|
        invariant 0 <= k <= |chosen| && |colCount| == n
        invariant forall i :: 0 <= i < n ==> colCount[i] == old(colCount[i]) - (if i in chosen[..k] then 1 else 0)
        invariant bCount == old(bCount) && solution == old(solution) && nodes == old(nodes)
      {
        TakeNext(chosen, k);
        assert chosen[k] !in chosen[..k];
        colCount := colCount[chosen[k] := colCount[chosen[k]] - 1];
        k := k + 1;
      }
      var j := 0;
      while j < n
        invariant 0 <= j <= n && |bCount| == n
        invariant forall j' :: 0 <= j' < n ==>
                    bCount[j'] == old(bCount[j']) - (if j' < j && bTrans[j'][r].1 in chosen then 1 else 0)
        invariant |colCount| == n
        invariant forall i :: 0 <= i < n ==> colCount[i] == old(colCount[i]) - (if i in chosen then 1 else 0)
        invariant solution == old(solution) && nodes == old(nodes)
      {
        var (_, bi) := bTrans[j][r];
        if bi in chosen {
          bCount := bCount[j := bCount[j] - 1];
        }
        j := j + 1;
      }
      assert chosen[..|chosen|] == chosen;
      forall i | 0 <= i < n ensures colCount[i] == Hits(solution, i) {
        HitsAppend(solution, chosen, i);
      }
      forall j | 0 <= j < n ensures bCount[j] == TransHits(solution, bTrans[j]) {
        TransHitsAppend(solution, chosen, bTrans[j]);
      }
    }

    /** The post-apply feasibility check, each loop stopping at its first failure. */
    method CountersWithin(remain: int) returns (ok: bool)
      requires |colCount| == n && |bCount| == n
      ensures ok <==> Within(remain)
    {
      ok := true;
      var i := 0;
      while i < n
        invariant 0 <= i <= n
        invariant forall i' :: 0 <= i' < i ==> colCount[i'] <= m && colCount[i'] + remain >= m
      {
        if colCount[i] > m || colCount[i] + remain < m {
          return false;
        }
        i := i + 1;
      }
      var j := 0;
      while j < n
        invariant 0 <= j <= n
        invariant forall j' :: 0 <= j' < j ==> bCount[j'] <= m && bCount[j'] + remain >= m
      {
        if bCount[j] > m || bCount[j] + remain < m {
          return false;
        }
        j := j + 1;
      }
    }

    /** Columns that must not be chosen in round r: A-players already at m
        firsts, and the opponents of B-players already at m seconds. */
    ghost function ForbiddenSet(r: nat): set<int>
      reads this
      requires Shape() && |colCount| == n && |bCount| == n && r < n
    {
      (set i | 0 <= i < n && colCount[i] >= m) + (set j | 0 <= j < n && bCount[j] >= m :: bTrans[j][r].1)
    }

    /** Columns that must be chosen in round r: those that cannot reach m
        from the `remain` later rounds alone. */
    ghost function ForcedSet(r: nat, remain: int): set<int>
      reads this
      requires Shape() && |colCount| == n && |bCount| == n && r < n
    {
      (set i | 0 <= i < n && colCount[i] < m && colCount[i] + remain < m)
      + (set j | 0 <= j < n && bCount[j] < m && bCount[j] + remain < m :: bTrans[j][r].1)
    }

    /** The forced/forbidden classification of round r. The column loop gives
        up as soon as an A-player cannot reach m even with this round; the
        B loop has no such prune. */
    method Classify(r: nat, remain: int) returns (pruned: bool, forced: set<int>, forbidden: set<int>)
      requires Shape() && |colCount| == n && |bCount| == n && r < n
      ensures pruned <==> exists i :: 0 <= i < n && colCount[i] < m && colCount[i] + remain + 1 < m
      ensures !pruned ==> forced == ForcedSet(r, remain) && forbidden == ForbiddenSet(r)
      ensures forall x :: x in forced ==> 0 <= x < n
    {
      forced, forbidden := {}, {};
      var i := 0;
      while i < n
        invariant 0 <= i <= n
        invariant forall i' :: 0 <= i' < i ==> !(colCount[i'] < m && colCount[i'] + remain + 1 < m)
        invariant forced == set i' | 0 <= i' < i && colCount[i'] < m && colCount[i'] + remain < m
        invariant forbidden == set i' | 0 <= i' < i && colCount[i'] >= m
      {
        if colCount[i] >= m {
          forbidden := forbidden + {i};
        } else if colCount[i] + remain + 1 < m {
          return true, forced, forbidden;
        } else if colCount[i] + remain < m {
          forced := forced + {i};
        }
        i := i + 1;
      }
      ghost var forcedCols, forbiddenCols := forced, forbidden;
      // No "cannot reach m" prune here, unlike the column loop.
      var j := 0;
      while j < n
        invariant 0 <= j <= n
        invariant forced == forcedCols + set j' | 0 <= j' < j && bCount[j'] < m && bCount[j'] + remain < m :: bTrans[j'][r].1
        invariant forbidden == forbiddenCols + set j' | 0 <= j' < j && bCount[j'] >= m :: bTrans[j'][r].1
      {
        var (br, bi) := bTrans[j][r];
        assert br == r;
        if bCount[j] >= m {
          forbidden := forbidden + {bi};
        } else if bCount[j] + remain < m {
          forced := forced + {bi};
        }
        j := j + 1;
      }
      pruned := false;
    }

    /** The inner `backtrack(r, solution)`. It only recurses from a state the
        feasibility check accepted, leaves the counters and the solution as it
        found them when it fails, and on success has filled every round with
        all counters at m. */
    method Backtrack(r: nat) returns (found: bool)
      requires Valid() && |solution| == r && r <= n
      requires r > 0 ==> Within(n - r)
      modifies this
      ensures Valid() && nodes > old(nodes)
      ensures !found ==> colCount == old(colCount) && bCount == old(bCount) && solution == old(solution)
      ensures found ==> |solution| == n && old(solution) <= solution && Complete()
      decreases n - r, 2
    {
      nodes := nodes + 1;
      if r == n {
        found := (forall i | 0 <= i < n :: colCount[i] == m) && (forall j | 0 <= j < n :: bCount[j] == m);
        return;
      }
      var remain := n - r - 1;
      var pruned, forced, forbidden := Classify(r, remain);
      if pruned {
        return false;
      }
      if forced * forbidden != {} {
        return false;
      }
      if |forced| > m {
        return false;
      }
      if n - |forbidden| < m {
        return false;
      }
      var free := FreeColumns(n, forced, forbidden);
      var need := m - |forced|;
      if need < 0 || need > |free| {
        return false;
      }
      var extras := Combinations(free, need);
      CombinationsShape(free, need);
      found := TryCompletions(r, forced, forbidden, extras);
    }

    /** The loop over `combinations(free, need)`: apply each completed
        choice, recurse when the counters can still all reach m, and undo it
        when the recursion fails. */
    method TryCompletions(r: nat, forced: set<int>, forbidden: set<int>, extras: seq<seq<int>>) returns (found: bool)
      requires Valid() && |solution| == r && r < n
      requires (forall x :: x in forced ==> 0 <= x < n) && |forced| <= m
      requires forall c :: c in extras ==> SubsetOf(c, m - |forced|, FreeColumns(n, forced, forbidden))
      modifies this
      ensures Valid() && nodes >= old(nodes)
      ensures !found ==> colCount == old(colCount) && bCount == old(bCount) && solution == old(solution)
      ensures found ==> |solution| == n && old(solution) <= solution && Complete()
      decreases n - r, 1
    {
      var remain := n - r - 1;
      var e := 0;
      while e < |extras|
        invariant 0 <= e <= |extras|
        invariant Valid() && |solution| == r && nodes >= old(nodes)
        invariant colCount == old(colCount) && bCount == old(bCount) && solution == old(solution)
      {
        assert extras[e] in extras;
        ChosenShape(n, m, forced, forbidden, extras[e]);
        found := TryChoice(r, Chosen(n, forced, extras[e]), remain);
        if found {
          return;
        }
        e := e + 1;
      }
      return false;
    }

    /** One completed choice for round r: apply it, recurse when the counters
        can still all reach m, and undo it when that fails. */
    method TryChoice(r: nat, chosen: seq<int>, remain: int) returns (found: bool)
      requires Valid() && |solution| == r && r < n && remain == n - r - 1
      requires RowChoice(chosen, n, m)
      modifies this
      ensures Valid() && nodes >= old(nodes)
      ensures !found ==> colCount == old(colCount) && bCount == old(bCount) && solution == old(solution)
      ensures found ==> |solution| == n && old(solution) <= solution && Complete()
      decreases n - r, 0
    {
      Apply(r, chosen);
      var ok := CountersWithin(remain);
      if ok {
        solution := solution + [chosen];
        found := Backtrack(r + 1);
        if found {
          return;
        }
        solution := solution[..r];
      }
      Undo(r, chosen);
      found := false;
    }
  }

  // ----- from the search result to F -----

  /** Row of F for one round's choice: 1 at the chosen columns. */
  function Indicator(c: seq<int>, n: nat): (row: seq<int>)
    ensures |row| == n && IsBinaryRow(row)
  {
    seq(n, i => if i in c then 1 else 0)
  }

  /** `F[r][i] = 1 for i in solution[r]` on an all-zero n×n table. */
  function Colouring(sol: seq<seq<int>>, n: nat): (F: Table)
    ensures |F| == |sol| && forall r :: 0 <= r < |sol| ==> F[r] == Indicator(sol[r], n)
  {
    seq(|sol|, r requires 0 <= r < |sol| => Indicator(sol[r], n))
  }

  lemma {:induction false} IndicatorPrefixSum(c: seq<int>, k: nat)
    ensures Sum(Indicator(c, k)) == |Filter(k, set x | x in c)|
  {
    if k > 0 {
      var row := Indicator(c, k);
      assert row[..k - 1] == Indicator(c, k - 1);
      IndicatorPrefixSum(c, k - 1);
    }
  }

  /** A round that chose m columns has m ones. */
  lemma IndicatorSum(c: seq<int>, n: nat, m: nat)
    requires RowChoice(c, n, m)
    ensures Sum(Indicator(c, n)) == m
  {
    IndicatorPrefixSum(c, n);
    FilterLength(n, set x | x in c);
    assert Distinct(c);
    DistinctCard(c);
  }

  /** A_i's first count in F is the number of rounds that chose A_i. */
  lemma {:induction false} ColouringColSum(sol: seq<seq<int>>, n: nat, i: nat)
    requires i < n
    ensures ColSum(Colouring(sol, n), i) == Hits(sol, i)
  {
    if sol != [] {
      var pre := sol[..|sol| - 1];
      ColouringColSum(pre, n, i);
      var col := Column(Colouring(sol, n), i);
      assert col[..|col| - 1] == Column(Colouring(pre, n), i);
    }
  }

  /** B_j's count along its transversal in F is the number of rounds whose
      choice held the transversal's cell. */
  lemma {:induction false} ColouringTransversal(sol: seq<seq<int>>, n: nat, cells: seq<(int, int)>, t: seq<int>, k: nat)
    requires k <= |sol| && |sol| <= |cells| && |cells| == |t|
    requires forall r :: 0 <= r < |t| ==> 0 <= t[r] < n && cells[r].1 == t[r]
    ensures TransversalSumUpTo(Colouring(sol, n), t, k) == TransHits(sol[..k], cells)
  {
    if k > 0 {
      ColouringTransversal(sol, n, cells, t, k - 1);
      assert sol[..k][..k - 1] == sol[..k - 1];
    }
  }

  /** Builds F from the search's solution, row by row. */
  method BuildColouring(sol: seq<seq<int>>, n: nat) returns (F: Table)
    requires forall k :: 0 <= k < |sol| ==> InRange(sol[k], n)
    ensures F == Colouring(sol, n)
  {
    F := [];
    var r := 0;
    while r < |sol|
      invariant r <= |sol| && F == Colouring(sol[..r], n)
    {
      var row := seq(n, _ => 0);
      var chosen := sol[r];
      var k := 0;
      while k < |chosen|
        invariant k <= |chosen| && |row| == n
        invariant forall i :: 0 <= i < n ==> row[i] == if i in chosen[..k] then 1 else 0
      {
        TakeNext(chosen, k);
        row := row[chosen[k] := 1];
        k := k + 1;
      }
      assert chosen[..k] == chosen;
      assert row == Indicator(chosen, n);
      F := F + [row];
      assert sol[..r + 1] == sol[..r] + [sol[r]];
      r := r + 1;
    }
    assert sol[..r] == sol;
  }

  /** solve_backtrack: compute the transversal cells, run the search from
      round 0, and on success turn the solution into F. A returned F has m
      ones in every round, every A-player's column and every B-transversal;
      over a pairing whose rounds are permutations it is balanced. */
  method SolveBacktrack(L: Table, n: nat, m: nat) returns (F: Option<Table>, nodes: nat)
    requires IsSquare(L, n) && EntriesInRange(L, n)
    ensures F.Some? ==> IsSquare(F.value, n) && IsBinary(F.value)
    ensures F.Some? ==> forall r :: 0 <= r < n ==> Sum(F.value[r]) == m
    ensures F.Some? ==> forall i :: 0 <= i < n ==> ColSum(F.value, i) == m
    ensures F.Some? ==> forall j :: 0 <= j < n ==>
              TransversalSumUpTo(F.value, Transversals(L, n)[j], n) == m
    ensures F.Some? && RowsArePerms(L, n) ==> Balanced(L, F.value, n, m)
  {
    var cells: seq<seq<(int, int)>> := ComputeBTransCells(L, n);
    forall j, r | 0 <= j < n && 0 <= r < n ensures 0 <= cells[j][r].1 < n {
      if n > 0 {
        assert cells[j][r].1 == LastIndex(L[r], j, n);
      }
    }
    var bt := new Backtracker(n, m, cells);
    var found := bt.Backtrack(0);
    nodes := bt.nodes;
    if !found {
      return None, nodes;
    }
    var sol := bt.solution;
    var G := BuildColouring(sol, n);
    forall r | 0 <= r < n ensures Sum(G[r]) == m {
      IndicatorSum(sol[r], n, m);
    }
    forall i | 0 <= i < n ensures ColSum(G, i) == m {
      ColouringColSum(sol, n, i);
    }
    forall j | 0 <= j < n ensures TransversalSumUpTo(G, Transversals(L, n)[j], n) == m {
      var t := Transversals(L, n)[j];
      ColouringTransversal(sol, n, cells[j], t, n);
      assert sol[..n] == sol;
    }
    if RowsArePerms(L, n) {
      forall j | 0 <= j < n ensures BSecond(L, G, n, j) == m {
        BSecondAlongTransversal(L, G, n, j, n);
      }
    }
    F := Some(G);
  }
}
