/** solver_fast.make_random_ls: a Latin square built row by row, each row
    picking for every column (in a shuffled order) a value the column has
    not used yet. The shuffle and the choices are arbitrary; whatever they
    are, a square that is returned is Latin. */
module RandomSquare {
  import opened Outcomes
  import opened Tables
  import opened Squares
  import opened Shifts

  // ----- distinctness through the set of values -----

  lemma {:induction false} RepeatsZero(c: seq<int>, k: nat)
    requires k <= |c|
    ensures Repeats(c, k) == 0 <==> Distinct(c[..k])
  {
    if k > 0 {
      RepeatsZero(c, k - 1);
      var before := c[..k - 1];
      assert c[..k] == before + [c[k - 1]];
      if c[k - 1] in before {
        var a :| 0 <= a < k - 1 && before[a] == c[k - 1];
        assert c[..k][a] == c[..k][k - 1];
      }
      if Distinct(c[..k]) {
        forall a, b | 0 <= a < b < k - 1 ensures before[a] != before[b] {
          assert c[..k][a] == before[a] && c[..k][b] == before[b];
        }
      }
    }
  }

  /** `len(set(perm)) == n` holds exactly when the n entries are distinct. */
  lemma ValuesCountDistinct(s: seq<int>)
    ensures |Values(s)| == |s| <==> Distinct(s)
  {
    RepeatsCount(s, |s|);
    RepeatsZero(s, |s|);
    assert s[..|s|] == s;
  }

  // ----- what the builder keeps -----

  /** The bookkeeping after rows 0..r-1: col_avail[i] holds the values
      column i has not used, pair_used[i][j] says whether it has used j,
      the rows so far are permutations and no column repeats a value. */
  ghost predicate Built(L: Table, colAvail: seq<set<int>>, pairUsed: seq<seq<bool>>, n: nat, r: nat)
  {
    && IsSquare(L, n) && r <= n && |colAvail| == n && |pairUsed| == n
    && (forall i :: 0 <= i < n ==> |pairUsed[i]| == n)
    && (forall i :: 0 <= i < n ==> colAvail[i] == set j | 0 <= j < n && j !in Column(L, i)[..r])
    && (forall i, j :: 0 <= i < n && 0 <= j < n ==> (pairUsed[i][j] <==> j in Column(L, i)[..r]))
    && (forall r' :: 0 <= r' < r ==> IsPerm(L[r'], n))
    && (forall i :: 0 <= i < n ==> Distinct(Column(L, i)[..r]))
  }

  /** j may go in column i of the next row: `j in col_avail[i] and not pair_used[i][j]`. */
  predicate Candidate(colAvail: seq<set<int>>, pairUsed: seq<seq<bool>>, i: int, j: int)
  {
    0 <= i < |colAvail| && i < |pairUsed| && j in colAvail[i] && 0 <= j < |pairUsed[i]| && !pairUsed[i][j]
  }

  /** Adding row r keeps the column prefixes: column i gains perm[i]. */
  lemma ColumnGrows(L: Table, n: nat, r: nat, perm: seq<int>, i: nat)
    requires IsSquare(L, n) && r < n && |perm| == n && i < n
    ensures Column(L[r := perm], i)[..r + 1] == Column(L, i)[..r] + [perm[i]]
  {
  }

  /** The per-row loop: the shuffled order, a candidate for every column,
      and the check that the row is a permutation. */
  method ChooseRow(L: Table, colAvail: seq<set<int>>, pairUsed: seq<seq<bool>>, n: nat, ghost r: nat)
    returns (perm: Option<seq<int>>)
    requires Built(L, colAvail, pairUsed, n, r) && r < n
    ensures perm.Some? ==> |perm.value| == n && Distinct(perm.value)
    ensures perm.Some? ==> forall i :: 0 <= i < n ==> Candidate(colAvail, pairUsed, i, perm.value[i])
  {
    assert IsPerm(Range(n), n);
    var order :| IsPerm(order, n);
    PermIff(order, n);
    var row := seq(n, _ => -1);   // `[None]*n`: every entry is overwritten below
    var t := 0;
    while t < n
      invariant t <= n && |row| == n
      invariant forall t' :: 0 <= t' < t ==> Candidate(colAvail, pairUsed, order[t'], row[order[t']])
    {
      var i := order[t];
      var candidates := set j | j in colAvail[i] && 0 <= j < |pairUsed[i]| && !pairUsed[i][j];
      if candidates == {} {
        return None;
      }
      var j :| j in candidates;
      row := row[i := j];
      t := t + 1;
    }
    forall i | 0 <= i < n ensures Candidate(colAvail, pairUsed, i, row[i]) {
      PermHasEach(order, n, i);
    }
    ValuesCountDistinct(row);
    if |Values(row)| != n {
      return None;
    }
    perm := Some(row);
  }

  /** `L[r] = perm`, then every column records its new value. */
  method RecordRow(L: Table, colAvail: seq<set<int>>, pairUsed: seq<seq<bool>>, n: nat, r: nat, perm: seq<int>)
    returns (L': Table, colAvail': seq<set<int>>, pairUsed': seq<seq<bool>>)
    requires Built(L, colAvail, pairUsed, n, r) && r < n
    requires |perm| == n && Distinct(perm)
    requires forall i :: 0 <= i < n ==> Candidate(colAvail, pairUsed, i, perm[i])
    ensures Built(L', colAvail', pairUsed', n, r + 1)
    ensures L' == L[r := perm]
  {
    L' := L[r := perm];
    colAvail', pairUsed' := colAvail, pairUsed;
    var i := 0;
    while i < n
      invariant i <= n && |colAvail'| == n && |pairUsed'| == n
      invariant forall x :: 0 <= x < n ==> |pairUsed'[x]| == n
      invariant forall x :: 0 <= x < n ==> colAvail'[x] == if x < i then colAvail[x] - {perm[x]} else colAvail[x]
      invariant forall x :: 0 <= x < n ==> pairUsed'[x] == if x < i then pairUsed[x][perm[x] := true] else pairUsed[x]
    {
      var j := perm[i];
      colAvail' := colAvail'[i := colAvail'[i] - {j}];
      pairUsed' := pairUsed'[i := pairUsed'[i][j := true]];
      i := i + 1;
    }
    RecordKeepsBuilt(L, colAvail, pairUsed, n, r, perm, colAvail', pairUsed');
  }

  lemma RecordKeepsBuilt(L: Table, colAvail: seq<set<int>>, pairUsed: seq<seq<bool>>, n: nat, r: nat,
                         perm: seq<int>, colAvail': seq<set<int>>, pairUsed': seq<seq<bool>>)
    requires Built(L, colAvail, pairUsed, n, r) && r < n
    requires |perm| == n && Distinct(perm)
    requires forall i :: 0 <= i < n ==> Candidate(colAvail, pairUsed, i, perm[i])
    requires |colAvail'| == n && |pairUsed'| == n
    requires forall x :: 0 <= x < n ==> colAvail'[x] == colAvail[x] - {perm[x]}
    requires forall x :: 0 <= x < n ==> 0 <= perm[x] < n && pairUsed'[x] == pairUsed[x][perm[x] := true]
    ensures Built(L[r := perm], colAvail', pairUsed', n, r + 1)
  {
    var L' := L[r := perm];
    forall i | 0 <= i < n
      ensures Column(L', i)[..r + 1] == Column(L, i)[..r] + [perm[i]]
      ensures Distinct(Column(L', i)[..r + 1])
    {
      ColumnGrows(L, n, r, perm, i);
      var c := Column(L, i)[..r];
      assert perm[i] !in c;
      forall a, b | 0 <= a < b < r + 1 ensures (c + [perm[i]])[a] != (c + [perm[i]])[b] {
        if b == r {
          assert (c + [perm[i]])[a] == c[a];
        }
      }
    }
    forall r' | 0 <= r' < r + 1 ensures IsPerm(L'[r'], n) {
      if r' == r {
        forall k | 0 <= k < n ensures 0 <= perm[k] < n {
          assert Candidate(colAvail, pairUsed, k, perm[k]);
        }
        PermIff(perm, n);
      }
    }
  }

  /** solver_fast.make_random_ls: None when some row turns out not to be a
      permutation (or a column runs out of candidates); otherwise a Latin
      square, which verify_ls accepts. */
  method MakeRandomLs(n: nat) returns (res: Option<Table>)
    ensures res.Some? ==> IsLatin(res.value, n)
  {
    var L: Table := seq(n, _ => seq(n, _ => 0));
    var colAvail: seq<set<int>> := seq(n, _ => set j | j in Range(n));
    var pairUsed: seq<seq<bool>> := seq(n, _ => seq(n, _ => false));
    forall i | 0 <= i < n ensures colAvail[i] == set j | 0 <= j < n && j !in Column(L, i)[..0] {
      forall j ensures j in Range(n) <==> 0 <= j < n {
        if 0 <= j < n {
          assert Range(n)[j] == j;
        }
      }
    }
    var r := 0;
    while r < n
      invariant Built(L, colAvail, pairUsed, n, r)
    {
      var perm := ChooseRow(L, colAvail, pairUsed, n, r);
      if perm.None? {
        return None;
      }
      L, colAvail, pairUsed := RecordRow(L, colAvail, pairUsed, n, r, perm.value);
      r := r + 1;
    }
    Complete(L, colAvail, pairUsed, n);
    res := Some(L);
  }

  /** After n rows every column holds n distinct values of 0..n-1. */
  lemma Complete(L: Table, colAvail: seq<set<int>>, pairUsed: seq<seq<bool>>, n: nat)
    requires Built(L, colAvail, pairUsed, n, n)
    ensures IsLatin(L, n)
  {
    forall i | 0 <= i < n ensures IsPerm(Column(L, i), n) {
      var c := Column(L, i);
      assert c[..n] == c;
      forall r | 0 <= r < n ensures 0 <= c[r] < n {
        assert IsPerm(L[r], n);
        PermIff(L[r], n);
      }
      PermIff(c, n);
    }
  }
}
