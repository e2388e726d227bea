/** Ordered selections of column indexes: the filtered index lists and the
    `itertools.combinations` enumeration the backtracking search walks. */
module Selection {
  import opened Tables

  predicate Increasing(s: seq<int>)
  {
    forall a, b :: 0 <= a < b < |s| ==> s[a] < s[b]
  }

  /** `[i for i in range(k) if i in S]`; also `sorted(S)` for S within 0..k-1. */
  function Filter(k: nat, S: set<int>): (s: seq<int>)
    ensures forall x :: x in s <==> 0 <= x < k && x in S
    ensures Increasing(s) && InRange(s, k)
  {
    if k == 0 then [] else Filter(k - 1, S) + (if k - 1 in S then [k - 1] else [])
  }

  lemma {:induction false} DistinctCard(s: seq<int>)
    requires Distinct(s)
    ensures |set x | x in s| == |s|
  {
    if s != [] {
      var t := s[..|s| - 1];
      var x := s[|s| - 1];
      assert s == t + [x];
      DistinctCard(t);
      assert x !in t;
      assert (set y | y in s) == (set y | y in t) + {x};
    }
  }

  /** The filtered list has one entry per member of S. */
  lemma FilterLength(k: nat, S: set<int>)
    requires forall x :: x in S ==> 0 <= x < k
    ensures |Filter(k, S)| == |S|
  {
    var s := Filter(k, S);
    DistinctCard(s);
    assert (set x | x in s) == S;
  }

  /** `[x] + c` for every c in cs, in order. */
  function PrependAll(x: int, cs: seq<seq<int>>): (ds: seq<seq<int>>)
    ensures |ds| == |cs| && forall e :: 0 <= e < |cs| ==> ds[e] == [x] + cs[e]
  {
    seq(|cs|, e requires 0 <= e < |cs| => [x] + cs[e])
  }

  /** `list(combinations(xs, k))`: the k-element subsequences of xs in
      lexicographic order of positions; those holding xs[0] come first. */
  function Combinations(xs: seq<int>, k: nat): seq<seq<int>>
    decreases |xs|
  {
    if k == 0 then [[]]
    else if xs == [] then []
    else PrependAll(xs[0], Combinations(xs[1..], k - 1)) + Combinations(xs[1..], k)
  }

  /** c is a k-element subsequence of xs: k members, all from xs, in order. */
  predicate SubsetOf(c: seq<int>, k: nat, xs: seq<int>)
  {
    |c| == k && Increasing(c) && forall p :: 0 <= p < |c| ==> c[p] in xs
  }

  lemma PrependShape(xs: seq<int>, d: seq<int>, k: nat)
    requires Increasing(xs) && xs != [] && k > 0 && SubsetOf(d, k - 1, xs[1..])
    ensures SubsetOf([xs[0]] + d, k, xs)
  {
    var c := [xs[0]] + d;
    forall p | 0 <= p < |d| ensures xs[0] < d[p] && d[p] in xs {
      var q :| 0 <= q < |xs[1..]| && xs[1..][q] == d[p];
      assert xs[q + 1] == d[p];
    }
    forall a, b | 0 <= a < b < |c| ensures c[a] < c[b] {
      if a > 0 {
        assert c[a] == d[a - 1] && c[b] == d[b - 1];
      }
    }
  }

  /** Every combination has k members, all taken from xs, in xs's order. */
  lemma {:induction false} CombinationsShape(xs: seq<int>, k: nat)
    requires Increasing(xs)
    ensures forall c :: c in Combinations(xs, k) ==> SubsetOf(c, k, xs)
    decreases |xs|
  {
    if k > 0 && xs != [] {
      var with, without := Combinations(xs[1..], k - 1), Combinations(xs[1..], k);
      CombinationsShape(xs[1..], k - 1);
      CombinationsShape(xs[1..], k);
      forall c | c in Combinations(xs, k) ensures SubsetOf(c, k, xs) {
        if c in PrependAll(xs[0], with) {
          var e :| 0 <= e < |with| && c == PrependAll(xs[0], with)[e];
          assert with[e] in with;
          PrependShape(xs, with[e], k);
        } else {
          assert c in without;
          forall p | 0 <= p < |c| ensures c[p] in xs {
            assert c[p] in xs[1..];
          }
        }
      }
    }
  }

  /** The number of combinations is the binomial coefficient. */
  function Choose(p: nat, k: nat): nat
  {
    if k == 0 then 1 else if p == 0 then 0 else Choose(p - 1, k - 1) + Choose(p - 1, k)
  }

  lemma {:induction false} CombinationsCount(xs: seq<int>, k: nat)
    ensures |Combinations(xs, k)| == Choose(|xs|, k)
    decreases |xs|
  {
    if k > 0 && xs != [] {
      var t := xs[1..];
      CombinationsCount(t, k - 1);
      CombinationsCount(t, k);
      var with := PrependAll(xs[0], Combinations(t, k - 1));
      assert Combinations(xs, k) == with + Combinations(t, k);
      assert |with| == Choose(|t|, k - 1);
      assert Choose(|xs|, k) == Choose(|t|, k - 1) + Choose(|t|, k);
    }
  }
}
