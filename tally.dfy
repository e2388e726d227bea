/** Counting over parsed rounds, as the verify_* scripts do: a round is the
    list of (a, b, a_first) triples of its match strings, and every count is
    a walk over the rounds in order and over each round's matches in order. */
module Tally {
  import opened Tables
  import opened Notation

  type Round = seq<Match>

  /** Every match of every round, in reading order. */
  function Flatten(rounds: seq<Round>): seq<Match>
  {
    if rounds == [] then [] else Flatten(rounds[..|rounds| - 1]) + rounds[|rounds| - 1]
  }

  lemma FlattenStep(rounds: seq<Round>, r: nat)
    requires r < |rounds|
    ensures Flatten(rounds[..r + 1]) == Flatten(rounds[..r]) + rounds[r]
  {
    assert rounds[..r + 1][..r] == rounds[..r];
  }

  /** The number of matches satisfying p: `sum(1 for ... if p)`. */
  function CountWhere(ms: seq<Match>, p: Match -> bool): nat
  {
    if ms == [] then 0 else CountWhere(ms[..|ms| - 1], p) + if p(ms[|ms| - 1]) then 1 else 0
  }

  lemma {:induction false} CountAppend(xs: seq<Match>, ys: seq<Match>, p: Match -> bool)
    ensures CountWhere(xs + ys, p) == CountWhere(xs, p) + CountWhere(ys, p)
    decreases |ys|
  {
    if ys != [] {
      var zs := ys[..|ys| - 1];
      assert (xs + ys)[..|xs + ys| - 1] == xs + zs;
      assert (xs + ys)[|xs + ys| - 1] == ys[|ys| - 1];
      CountAppend(xs, zs, p);
    } else {
      assert xs + ys == xs;
    }
  }

  lemma CountBound(ms: seq<Match>, p: Match -> bool)
    ensures CountWhere(ms, p) <= |ms|
  {
  }

  // ----- the selectors the scripts use -----

  /** The match is the pair (A_i, B_j). */
  function PairIs(i: int, j: int): Match -> bool
  {
    (x: Match) => x.a == i && x.b == j
  }

  /** A_i plays, and moves first / second. */
  function AFirstIs(i: int): Match -> bool
  {
    (x: Match) => x.a == i && x.aFirst
  }

  function ASecondIs(i: int): Match -> bool
  {
    (x: Match) => x.a == i && !x.aFirst
  }

  /** B_j plays, and moves first (its opponent second) / second. */
  function BFirstIs(j: int): Match -> bool
  {
    (x: Match) => x.b == j && !x.aFirst
  }

  function BSecondIs(j: int): Match -> bool
  {
    (x: Match) => x.b == j && x.aFirst
  }

  /** The A-player of the match moves first. */
  function AFirstMatch(): Match -> bool
  {
    (x: Match) => x.aFirst
  }

  function BFirstMatch(): Match -> bool
  {
    (x: Match) => !x.aFirst
  }

  /** In every match exactly one side moves first. */
  lemma FirstsComplement(ms: seq<Match>)
    ensures CountWhere(ms, AFirstMatch()) + CountWhere(ms, BFirstMatch()) == |ms|
  {
    if ms != [] {
      FirstsComplement(ms[..|ms| - 1]);
    }
  }

  /** A_i's first and second moves together are its matches. */
  lemma {:induction false} APlaysSplit(ms: seq<Match>, i: int)
    ensures CountWhere(ms, AFirstIs(i)) + CountWhere(ms, ASecondIs(i)) == |APlayersOf(ms, i)|
  {
    if ms != [] {
      APlaysSplit(ms[..|ms| - 1], i);
    }
  }

  /** B_j's first and second moves together are its matches. */
  lemma {:induction false} BPlaysSplit(ms: seq<Match>, j: int)
    ensures CountWhere(ms, BFirstIs(j)) + CountWhere(ms, BSecondIs(j)) == |BPlayersOf(ms, j)|
  {
    if ms != [] {
      BPlaysSplit(ms[..|ms| - 1], j);
    }
  }

  // ----- players and opponents -----

  /** `[a for a, b, f in rd]` */
  function APlayers(rd: Round): (s: seq<int>)
    ensures |s| == |rd| && forall k :: 0 <= k < |rd| ==> s[k] == rd[k].a
  {
    seq(|rd|, k requires 0 <= k < |rd| => rd[k].a)
  }

  /** `[b for a, b, f in rd]` */
  function BPlayers(rd: Round): (s: seq<int>)
    ensures |s| == |rd| && forall k :: 0 <= k < |rd| ==> s[k] == rd[k].b
  {
    seq(|rd|, k requires 0 <= k < |rd| => rd[k].b)
  }

  /** A_i's opponents in reading order: `[b for ... if a == i]`. */
  function APlayersOf(ms: seq<Match>, i: int): seq<int>
  {
    if ms == [] then []
    else APlayersOf(ms[..|ms| - 1], i) + if ms[|ms| - 1].a == i then [ms[|ms| - 1].b] else []
  }

  /** B_j's opponents in reading order: `[a for ... if b == j]`. */
  function BPlayersOf(ms: seq<Match>, j: int): seq<int>
  {
    if ms == [] then []
    else BPlayersOf(ms[..|ms| - 1], j) + if ms[|ms| - 1].b == j then [ms[|ms| - 1].a] else []
  }

  /** The opponents of A_player (byA) or of B_player (not byA). */
  function OpponentsOf(ms: seq<Match>, player: int, byA: bool): seq<int>
  {
    if byA then APlayersOf(ms, player) else BPlayersOf(ms, player)
  }

  /** A_i meets B_j in its opponent list as often as the pair is played. */
  lemma {:induction false} APlayersOfCount(ms: seq<Match>, i: int, j: int)
    ensures multiset(APlayersOf(ms, i))[j] == CountWhere(ms, PairIs(i, j))
  {
    if ms != [] {
      APlayersOfCount(ms[..|ms| - 1], i, j);
    }
  }

  lemma {:induction false} BPlayersOfCount(ms: seq<Match>, i: int, j: int)
    ensures multiset(BPlayersOf(ms, j))[i] == CountWhere(ms, PairIs(i, j))
  {
    if ms != [] {
      BPlayersOfCount(ms[..|ms| - 1], i, j);
    }
  }

  /** Every match has both players in 0..n-1. */
  predicate MatchesInRange(ms: seq<Match>, n: nat)
  {
    forall k :: 0 <= k < |ms| ==> 0 <= ms[k].a < n && 0 <= ms[k].b < n
  }

  /** Every pair (A_i, B_j) with i, j in 0..n-1 is played exactly once. */
  predicate PairsExactlyOnce(ms: seq<Match>, n: nat)
  {
    forall i, j :: 0 <= i < n && 0 <= j < n ==> CountWhere(ms, PairIs(i, j)) == 1
  }

  /** The claim beside constraint (2b) of verify_solution: once every pair is
      played exactly once and every index is in range, each player's
      opponent list is a permutation of 0..n-1. */
  lemma OpponentsArePerms(ms: seq<Match>, n: nat)
    requires MatchesInRange(ms, n) && PairsExactlyOnce(ms, n)
    ensures forall i :: 0 <= i < n ==> IsPerm(APlayersOf(ms, i), n)
    ensures forall j :: 0 <= j < n ==> IsPerm(BPlayersOf(ms, j), n)
  {
    forall i | 0 <= i < n ensures IsPerm(APlayersOf(ms, i), n) {
      forall v ensures multiset(APlayersOf(ms, i))[v] == multiset(Range(n))[v] {
        APlayersOfCount(ms, i, v);
        RangeCount(n, v);
        if !(0 <= v < n) {
          PairNeverOut(ms, n, i, v);
        }
      }
      assert multiset(APlayersOf(ms, i)) == multiset(Range(n));
    }
    forall j | 0 <= j < n ensures IsPerm(BPlayersOf(ms, j), n) {
      forall v ensures multiset(BPlayersOf(ms, j))[v] == multiset(Range(n))[v] {
        BPlayersOfCount(ms, v, j);
        RangeCount(n, v);
        if !(0 <= v < n) {
          PairNeverOut(ms, n, v, j);
        }
      }
      assert multiset(BPlayersOf(ms, j)) == multiset(Range(n));
    }
  }

  /** A pair with an index outside 0..n-1 is never played. */
  lemma {:induction false} PairNeverOut(ms: seq<Match>, n: nat, i: int, j: int)
    requires MatchesInRange(ms, n) && !(0 <= i < n && 0 <= j < n)
    ensures CountWhere(ms, PairIs(i, j)) == 0
  {
    if ms != [] {
      PairNeverOut(ms[..|ms| - 1], n, i, j);
    }
  }

  // ----- the loops -----

  /** `sum(1 for rd in rounds for a, b, f in rd if p(...))`. */
  method CountRounds(rounds: seq<Round>, p: Match -> bool) returns (c: nat)
    ensures c == CountWhere(Flatten(rounds), p)
  {
    c := 0;
    var r := 0;
    while r < |rounds|
      invariant r <= |rounds| && c == CountWhere(Flatten(rounds[..r]), p)
    {
      var rd := rounds[r];
      var k := 0;
      ghost var done := Flatten(rounds[..r]);
      while k < |rd|
        invariant k <= |rd| && done == Flatten(rounds[..r]) + rd[..k]
        invariant c == CountWhere(done, p)
      {
        assert rd[..k + 1] == rd[..k] + [rd[k]];
        assert (done + [rd[k]])[..|done|] == done;
        if p(rd[k]) {
          c := c + 1;
        }
        done := done + [rd[k]];
        k := k + 1;
      }
      assert rd[..|rd|] == rd;
      FlattenStep(rounds, r);
      r := r + 1;
    }
    assert rounds[..|rounds|] == rounds;
  }

  /** `sum(1 for a, b, f in rd if p(...))` for one round. */
  method CountRound(rd: Round, p: Match -> bool) returns (c: nat)
    ensures c == CountWhere(rd, p)
  {
    c := 0;
    var k := 0;
    while k < |rd|
      invariant k <= |rd| && c == CountWhere(rd[..k], p)
    {
      assert rd[..k + 1][..k] == rd[..k];
      if p(rd[k]) {
        c := c + 1;
      }
      k := k + 1;
    }
    assert rd[..|rd|] == rd;
  }

  /** `pair_count.get((a, b), 0)` */
  function Get(pc: map<(int, int), nat>, key: (int, int)): nat
  {
    if key in pc then pc[key] else 0
  }

  /** The pair_count dictionary: every played pair is a key, mapped to the
      number of times it is played. */
  ghost predicate TalliesPairs(pc: map<(int, int), nat>, ms: seq<Match>)
  {
    && (forall a, b :: Get(pc, (a, b)) == CountWhere(ms, PairIs(a, b)))
    && (forall key :: key in pc ==> pc[key] > 0)
  }

  lemma TallyStep(pc: map<(int, int), nat>, ms: seq<Match>, x: Match)
    requires TalliesPairs(pc, ms)
    ensures TalliesPairs(pc[(x.a, x.b) := Get(pc, (x.a, x.b)) + 1], ms + [x])
  {
    var pc' := pc[(x.a, x.b) := Get(pc, (x.a, x.b)) + 1];
    forall a, b ensures Get(pc', (a, b)) == CountWhere(ms + [x], PairIs(a, b)) {
      assert (ms + [x])[..|ms|] == ms;
    }
  }

  /** `pair_count[(a, b)] = pair_count.get((a, b), 0) + 1` over every match. */
  method PairTally(rounds: seq<Round>) returns (pc: map<(int, int), nat>)
    ensures TalliesPairs(pc, Flatten(rounds))
  {
    pc := map[];
    var r := 0;
    while r < |rounds|
      invariant r <= |rounds| && TalliesPairs(pc, Flatten(rounds[..r]))
    {
      var rd := rounds[r];
      var k := 0;
      ghost var done := Flatten(rounds[..r]);
      while k < |rd|
        invariant k <= |rd| && done == Flatten(rounds[..r]) + rd[..k]
        invariant TalliesPairs(pc, done)
      {
        TallyStep(pc, done, rd[k]);
        assert rd[..k + 1] == rd[..k] + [rd[k]];
        pc := pc[(rd[k].a, rd[k].b) := Get(pc, (rd[k].a, rd[k].b)) + 1];
        done := done + [rd[k]];
        k := k + 1;
      }
      assert rd[..|rd|] == rd;
      FlattenStep(rounds, r);
      r := r + 1;
    }
    assert rounds[..|rounds|] == rounds;
  }

  /** The opponent list of A_i (byA) or of B_j (not byA), collected round by round. */
  method CollectOpponents(rounds: seq<Round>, player: int, byA: bool) returns (opp: seq<int>)
    ensures opp == OpponentsOf(Flatten(rounds), player, byA)
  {
    opp := [];
    var r := 0;
    while r < |rounds|
      invariant r <= |rounds| && opp == OpponentsOf(Flatten(rounds[..r]), player, byA)
    {
      opp := CollectRound(Flatten(rounds[..r]), rounds[r], player, byA, opp);
      FlattenStep(rounds, r);
      r := r + 1;
    }
    assert rounds[..|rounds|] == rounds;
  }

  /** One round of the collecting loop: the round's matches with the player. */
  method CollectRound(ghost done: seq<Match>, rd: Round, player: int, byA: bool, opp0: seq<int>)
    returns (opp: seq<int>)
    requires opp0 == OpponentsOf(done, player, byA)
    ensures opp == OpponentsOf(done + rd, player, byA)
  {
    opp := opp0;
    var k := 0;
    assert done + rd[..0] == done;
    while k < |rd|
      invariant k <= |rd| && opp == OpponentsOf(done + rd[..k], player, byA)
    {
      OpponentsNext(done + rd[..k], rd[k], player, byA);
      assert done + rd[..k + 1] == (done + rd[..k]) + [rd[k]];
      if byA && rd[k].a == player {
        opp := opp + [rd[k].b];
      } else if !byA && rd[k].b == player {
        opp := opp + [rd[k].a];
      }
      k := k + 1;
    }
    assert rd[..|rd|] == rd;
  }

  /** One more match adds its opponent when the player is in it. */
  lemma OpponentsNext(ms: seq<Match>, x: Match, player: int, byA: bool)
    ensures OpponentsOf(ms + [x], player, byA) ==
            OpponentsOf(ms, player, byA) +
            (if byA && x.a == player then [x.b] else if !byA && x.b == player then [x.a] else [])
  {
    assert (ms + [x])[..|ms|] == ms;
  }
}
