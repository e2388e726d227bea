/** Pairing tables L and colourings F of a two-team round-robin.

    Row r of a table is round r; column i is player A_i. In a pairing table
    L[r][i] is the B-player that A_i meets in round r; in a colouring
    F[r][i] == 1 means that A_i moves first in round r. */
module Tables {

  type Table = seq<seq<int>>

  /** list(range(n)) */
  function Range(n: nat): (s: seq<int>)
    ensures |s| == n && forall k :: 0 <= k < n ==> s[k] == k
  {
    seq(n, k => k)
  }

  /** Python's `sorted(s) == list(range(n))`: s is a rearrangement of 0..n-1. */
  predicate IsPerm(s: seq<int>, n: nat)
  {
    multiset(s) == multiset(Range(n))
  }

  predicate InRange(s: seq<int>, n: int)
  {
    forall k :: 0 <= k < |s| ==> 0 <= s[k] < n
  }

  predicate Distinct(s: seq<int>)
  {
    forall a, b :: 0 <= a < b < |s| ==> s[a] != s[b]
  }

  lemma {:induction false} RangeCount(n: nat, v: int)
    ensures multiset(Range(n))[v] == if 0 <= v < n then 1 else 0
  {
    if n > 0 {
      assert Range(n) == Range(n - 1) + [n - 1];
      RangeCount(n - 1, v);
    }
  }

  lemma {:induction false} DistinctCountAtMostOne(s: seq<int>, v: int)
    requires Distinct(s)
    ensures multiset(s)[v] <= 1
    ensures v in s ==> multiset(s)[v] == 1
  {
    if s != [] {
      var t := s[..|s| - 1];
      assert s == t + [s[|s| - 1]];
      DistinctCountAtMostOne(t, v);
      if v == s[|s| - 1] {
        assert v !in t;
      }
    }
  }

  lemma RepeatCountsTwice(s: seq<int>, a: int, b: int)
    requires 0 <= a < b < |s| && s[a] == s[b]
    ensures multiset(s)[s[a]] >= 2
  {
    assert s == s[..b] + s[b..];
    assert s[a] in s[..b];
    assert s[b] in s[b..];
  }

  /** Closes the gap left by a value v missing from s. */
  function Squeeze(s: seq<int>, v: int): (t: seq<int>)
    ensures |t| == |s|
  {
    seq(|s|, k requires 0 <= k < |s| => if s[k] > v then s[k] - 1 else s[k])
  }

  lemma SqueezeKeepsDistinct(s: seq<int>, n: int, v: int)
    requires Distinct(s) && InRange(s, n) && 0 <= v < n && v !in s
    ensures Distinct(Squeeze(s, v)) && InRange(Squeeze(s, v), n - 1)
  {
    var t := Squeeze(s, v);
    forall a, b | 0 <= a < b < |t| ensures t[a] != t[b] {
      assert s[a] != s[b] && s[a] != v && s[b] != v;
      if s[a] > v && s[b] < v {
        assert t[a] == s[a] - 1 >= v > s[b] == t[b];
      } else if s[a] < v && s[b] > v {
        assert t[a] == s[a] < v <= s[b] - 1 == t[b];
      }
    }
    forall k | 0 <= k < |t| ensures 0 <= t[k] < n - 1 {
      assert s[k] != v;
    }
  }

  /** Pigeonhole: at most n distinct values fit in 0..n-1. */
  lemma {:induction false} DistinctBound(s: seq<int>, n: int)
    requires n >= 0 && Distinct(s) && InRange(s, n)
    ensures |s| <= n
    decreases |s|
  {
    if s != [] {
      var t := s[..|s| - 1];
      var x := s[|s| - 1];
      assert x !in t;
      SqueezeKeepsDistinct(t, n, x);
      DistinctBound(Squeeze(t, x), n - 1);
    }
  }

  /** n distinct values in 0..n-1 cover all of 0..n-1. */
  lemma DistinctCovers(s: seq<int>, n: nat, v: int)
    requires |s| == n && Distinct(s) && InRange(s, n) && 0 <= v < n
    ensures v in s
  {
    if v !in s {
      SqueezeKeepsDistinct(s, n, v);
      DistinctBound(Squeeze(s, v), n - 1);
    }
  }

  /** The multiset reading of `sorted(s) == list(range(n))` agrees with the
      elementwise one: right length, values in range, no repeats. */
  lemma PermIff(s: seq<int>, n: nat)
    ensures IsPerm(s, n) <==> |s| == n && InRange(s, n) && Distinct(s)
  {
    if IsPerm(s, n) {
      assert |s| == |multiset(s)| == |multiset(Range(n))| == n;
      forall k | 0 <= k < |s| ensures 0 <= s[k] < n {
        assert s[k] in multiset(s);
        RangeCount(n, s[k]);
      }
      forall a, b | 0 <= a < b < |s| ensures s[a] != s[b] {
        if s[a] == s[b] {
          RepeatCountsTwice(s, a, b);
          RangeCount(n, s[a]);
        }
      }
    }
    if |s| == n && InRange(s, n) && Distinct(s) {
      forall v ensures multiset(s)[v] == multiset(Range(n))[v] {
        RangeCount(n, v);
        DistinctCountAtMostOne(s, v);
        if 0 <= v < n {
          DistinctCovers(s, n, v);
        }
      }
    }
  }

  lemma PermHasEach(s: seq<int>, n: nat, v: int)
    requires IsPerm(s, n) && 0 <= v < n
    ensures v in s
  {
    PermIff(s, n);
    DistinctCovers(s, n, v);
  }

  /** A list of n entries holding every value 0..n-1 is a permutation of 0..n-1. */
  lemma CoversIsPerm(s: seq<int>, n: nat)
    requires |s| == n && forall v :: 0 <= v < n ==> v in s
    ensures IsPerm(s, n)
  {
    var M, R := multiset(s), multiset(Range(n));
    forall v ensures R[v] <= M[v] {
      RangeCount(n, v);
      if 0 <= v < n {
        assert v in s;
        assert v in M;
      }
    }
    assert R <= M;
    assert |R| == n && |M| == n;
    assert (M - R) + R == M;
    assert |M - R| == 0;
  }

  /** The prefix of length i + 1 is the prefix of length i and entry i. */
  lemma TakeNext<T>(s: seq<T>, i: nat)
    requires i < |s|
    ensures s[..i + 1] == s[..i] + [s[i]]
  {
  }

  lemma AppendNext<T>(prefix: seq<T>, s: seq<T>, i: nat)
    requires i < |s|
    ensures prefix + s[..i + 1] == (prefix + s[..i]) + [s[i]]
  {
    TakeNext(s, i);
  }

  // ----- squares, columns, Latin squares -----

  predicate IsSquare(T: Table, n: nat)
  {
    |T| == n && forall r :: 0 <= r < n ==> |T[r]| == n
  }

  /** [T[r][i] for r in range(len(T))] */
  function Column(T: Table, i: nat): (c: seq<int>)
    requires forall r :: 0 <= r < |T| ==> i < |T[r]|
    ensures |c| == |T| && forall r :: 0 <= r < |T| ==> c[r] == T[r][i]
  {
    seq(|T|, r requires 0 <= r < |T| => T[r][i])
  }

  predicate RowsArePerms(L: Table, n: nat)
    requires IsSquare(L, n)
  {
    forall r :: 0 <= r < n ==> IsPerm(L[r], n)
  }

  predicate ColumnsArePerms(L: Table, n: nat)
    requires IsSquare(L, n)
  {
    forall i :: 0 <= i < n ==> IsPerm(Column(L, i), n)
  }

  /** Every row and every column of L is a permutation of 0..n-1. */
  predicate IsLatin(L: Table, n: nat)
  {
    IsSquare(L, n) && RowsArePerms(L, n) && ColumnsArePerms(L, n)
  }

  /** Number of rounds in which A_i meets B_j. */
  function PairCount(L: Table, n: nat, i: nat, j: int): nat
    requires IsSquare(L, n) && i < n
  {
    multiset(Column(L, i))[j]
  }

  /** In a Latin square every pair (A_i, B_j) meets exactly once. */
  lemma LatinPairsOnce(L: Table, n: nat, i: nat, j: int)
    requires IsLatin(L, n) && i < n && 0 <= j < n
    ensures PairCount(L, n, i, j) == 1
  {
    RangeCount(n, j);
  }

  // ----- sums and counts -----

  /** Python's sum(s). */
  function Sum(s: seq<int>): int
  {
    if s == [] then 0 else Sum(s[..|s| - 1]) + s[|s| - 1]
  }

  lemma SumAppend(s: seq<int>, x: int)
    ensures Sum(s + [x]) == Sum(s) + x
  {
    assert (s + [x])[..|s|] == s;
  }

  /** Number of entries of s equal to v. */
  function Occurrences(s: seq<int>, v: int): nat
  {
    multiset(s)[v]
  }

  lemma OccurrencesAppend(s: seq<int>, x: int, v: int)
    ensures Occurrences(s + [x], v) == Occurrences(s, v) + (if x == v then 1 else 0)
  {
  }

  /** A 0/1 colouring. */
  predicate IsBinary(F: Table)
  {
    forall r, i :: 0 <= r < |F| && 0 <= i < |F[r]| ==> F[r][i] == 0 || F[r][i] == 1
  }

  predicate IsBinaryRow(s: seq<int>)
  {
    forall i :: 0 <= i < |s| ==> s[i] == 0 || s[i] == 1
  }

  /** For a 0/1 row, the zeros are what the ones leave over. */
  lemma {:induction false} BinaryRowZeros(s: seq<int>)
    requires IsBinaryRow(s)
    ensures Occurrences(s, 0) == |s| - Sum(s)
    ensures Sum(s) == Occurrences(s, 1)
  {
    if s != [] {
      var t := s[..|s| - 1];
      assert s == t + [s[|s| - 1]];
      BinaryRowZeros(t);
    }
  }

  /** A_i's first count: sum(F[r][i] for r in range(n)). */
  function ColSum(F: Table, i: nat): int
    requires forall r :: 0 <= r < |F| ==> i < |F[r]|
  {
    Sum(Column(F, i))
  }

  /** Cells of one round, among the first k, where A meets B_j and moves first. */
  function RoundHits(lrow: seq<int>, frow: seq<int>, j: int, k: nat): nat
    requires k <= |lrow| && k <= |frow|
  {
    if k == 0 then 0
    else RoundHits(lrow, frow, j, k - 1) + (if lrow[k - 1] == j && frow[k - 1] == 1 then 1 else 0)
  }

  /** B_j's second count over the first k rounds: cells with L[r][i] == j and F[r][i] == 1. */
  function BSecondUpTo(L: Table, F: Table, n: nat, j: int, k: nat): nat
    requires IsSquare(L, n) && IsSquare(F, n) && k <= n
  {
    if k == 0 then 0 else BSecondUpTo(L, F, n, j, k - 1) + RoundHits(L[k - 1], F[k - 1], j, n)
  }

  function BSecond(L: Table, F: Table, n: nat, j: int): nat
    requires IsSquare(L, n) && IsSquare(F, n)
  {
    BSecondUpTo(L, F, n, j, n)
  }

  /** The three balance families: rounds, A-players and B-players all at m. */
  predicate Balanced(L: Table, F: Table, n: nat, m: int)
    requires IsSquare(L, n) && IsSquare(F, n)
  {
    && (forall r :: 0 <= r < n ==> Sum(F[r]) == m)
    && (forall i :: 0 <= i < n ==> ColSum(F, i) == m)
    && (forall j :: 0 <= j < n ==> BSecond(L, F, n, j) == m)
  }

  // ----- inverse pairing and B-transversals -----

  /** The value `L_inv[r][v]` ends with after `for i: L_inv[r][L[r][i]] = i`
      over the first k columns: the last index holding v, or 0. */
  function LastIndex(row: seq<int>, v: int, k: nat): (p: nat)
    requires k <= |row|
    ensures p < k || p == 0
  {
    if k == 0 then 0 else if row[k - 1] == v then k - 1 else LastIndex(row, v, k - 1)
  }

  /** trans[j][r] == L_inv[r][j]: the A-player whose colour decides B_j's side in round r. */
  function Transversals(L: Table, n: nat): (T: Table)
    requires IsSquare(L, n)
    ensures IsSquare(T, n)
  {
    seq(n, j => seq(n, r requires 0 <= r < n => LastIndex(L[r], j, n)))
  }

  lemma {:induction false} LastIndexFinds(row: seq<int>, v: int, k: nat)
    requires k <= |row| && v in row[..k]
    ensures row[LastIndex(row, v, k)] == v
    ensures forall q :: LastIndex(row, v, k) < q < k ==> row[q] != v
  {
    if row[k - 1] != v {
      assert row[..k] == row[..k - 1] + [row[k - 1]];
      LastIndexFinds(row, v, k - 1);
    }
  }

  /** For a permutation row, L_inv really inverts it: L[r][L_inv[r][v]] == v,
      and it is the only index holding v. */
  lemma InverseInverts(row: seq<int>, n: nat, v: int)
    requires |row| == n && IsPerm(row, n) && 0 <= v < n
    ensures LastIndex(row, v, n) < n && row[LastIndex(row, v, n)] == v
    ensures forall q :: 0 <= q < n && row[q] == v ==> q == LastIndex(row, v, n)
  {
    PermIff(row, n);
    PermHasEach(row, n, v);
    assert row[..n] == row;
    LastIndexFinds(row, v, n);
  }

  lemma InverseOfEntry(row: seq<int>, n: nat, i: nat)
    requires |row| == n && IsPerm(row, n) && i < n
    ensures LastIndex(row, row[i], n) == i
  {
    PermIff(row, n);
    InverseInverts(row, n, row[i]);
  }

  /** For a Latin square each B-transversal passes through every column once:
      trans[j] is itself a permutation of 0..n-1. */
  lemma TransversalIsPerm(L: Table, n: nat, j: int)
    requires IsLatin(L, n) && 0 <= j < n
    ensures IsPerm(Transversals(L, n)[j], n)
  {
    var t := Transversals(L, n)[j];
    forall r | 0 <= r < n ensures 0 <= t[r] < n && L[r][t[r]] == j {
      InverseInverts(L[r], n, j);
    }
    forall a, b | 0 <= a < b < n ensures t[a] != t[b] {
      if t[a] == t[b] {
        var c := Column(L, t[a]);
        assert c[a] == j == c[b];
        PermIff(c, n);
      }
    }
    PermIff(t, n);
  }

  /** In a round whose pairing is a permutation, B_j's second count gains
      exactly the colour bit of the A-player the transversal names. */
  lemma {:induction false} RoundHitsAtInverse(lrow: seq<int>, frow: seq<int>, n: nat, j: int, k: nat)
    requires |lrow| == n && IsPerm(lrow, n) && |frow| == n && 0 <= j < n && k <= n
    ensures RoundHits(lrow, frow, j, k) ==
            (var p := LastIndex(lrow, j, n); if p < k && frow[p] == 1 then 1 else 0)
  {
    InverseInverts(lrow, n, j);
    if k > 0 {
      RoundHitsAtInverse(lrow, frow, n, j, k - 1);
    }
  }

  /** B_j's second count read along its transversal (the count solve_sa tracks). */
  function TransversalSumUpTo(F: Table, t: seq<int>, k: nat): int
    requires k <= |F| && k <= |t|
    requires forall r :: 0 <= r < k ==> 0 <= t[r] < |F[r]|
  {
    if k == 0 then 0 else TransversalSumUpTo(F, t, k - 1) + F[k - 1][t[k - 1]]
  }

  /** For a Latin L and a 0/1 colouring, counting B_j's seconds cell by cell
      (the verifiers) and along the transversal (the solvers) agree. */
  lemma {:induction false} BSecondAlongTransversal(L: Table, F: Table, n: nat, j: int, k: nat)
    requires IsSquare(L, n) && RowsArePerms(L, n) && IsSquare(F, n) && IsBinary(F)
    requires 0 <= j < n && k <= n
    ensures forall r :: 0 <= r < n ==> 0 <= Transversals(L, n)[j][r] < n
    ensures BSecondUpTo(L, F, n, j, k) == TransversalSumUpTo(F, Transversals(L, n)[j], k)
  {
    var t := Transversals(L, n)[j];
    forall r | 0 <= r < n ensures 0 <= t[r] < n {
      InverseInverts(L[r], n, j);
    }
    if k > 0 {
      BSecondAlongTransversal(L, F, n, j, k - 1);
      RoundHitsAtInverse(L[k - 1], F[k - 1], n, j, n);
    }
  }
}
