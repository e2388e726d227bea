/** The checks the verify_* scripts share, over parsed rounds: pair counts,
    players per round, first-move balance per round and per player. Each
    check is a predicate, and a loop that computes its pass flag. */
module RoundChecks {
  import opened Outcomes
  import opened Tables
  import opened Notation
  import opened Checks
  import opened Tally

  // ----- pairs -----

  /** `cnt == 0` for the pair (A_i, B_j): reported missing. */
  function MissingFlag(ms: seq<Match>, i: nat, j: nat): Option<Issue>
  {
    if CountWhere(ms, PairIs(i, j)) == 0 then Some(MissingPair(i, j)) else None
  }

  /** `cnt > 1` for the pair (A_i, B_j): reported duplicate, with its count. */
  function DuplicateFlag(ms: seq<Match>, i: nat, j: nat): Option<Issue>
  {
    var c := CountWhere(ms, PairIs(i, j));
    if c > 1 then Some(BadPairCount(i, j, c)) else None
  }

  function MissingRow(ms: seq<Match>, i: nat, k: nat): seq<Issue>
  {
    Report(k, (j: nat) => MissingFlag(ms, i, j))
  }

  function DuplicateRow(ms: seq<Match>, i: nat, k: nat): seq<Issue>
  {
    Report(k, (j: nat) => DuplicateFlag(ms, i, j))
  }

  /** The missing pairs of A_0..A_{k-1} against B_0..B_{n-1}, in loop order. */
  function MissingReport(ms: seq<Match>, n: nat, k: nat): seq<Issue>
  {
    Concat(k, (i: nat) => MissingRow(ms, i, n))
  }

  function DuplicateReport(ms: seq<Match>, n: nat, k: nat): seq<Issue>
  {
    Concat(k, (i: nat) => DuplicateRow(ms, i, n))
  }

  /** A_i meets every B_j, j < n, at least once. */
  predicate MeetsAll(ms: seq<Match>, n: nat, i: nat)
  {
    forall j :: 0 <= j < n ==> CountWhere(ms, PairIs(i, j)) >= 1
  }

  /** A_i meets no B_j, j < n, twice. */
  predicate MeetsNoneTwice(ms: seq<Match>, n: nat, i: nat)
  {
    forall j :: 0 <= j < n ==> CountWhere(ms, PairIs(i, j)) <= 1
  }

  predicate NoneMissing(ms: seq<Match>, n: nat)
  {
    forall i :: 0 <= i < n ==> MeetsAll(ms, n, i)
  }

  predicate NoneDuplicate(ms: seq<Match>, n: nat)
  {
    forall i :: 0 <= i < n ==> MeetsNoneTwice(ms, n, i)
  }

  lemma MissingReportEmpty(ms: seq<Match>, n: nat)
    ensures MissingReport(ms, n, n) == [] <==> NoneMissing(ms, n)
  {
    var g := (i: nat) => MissingRow(ms, i, n);
    ConcatEmpty(n, g);
    forall i | 0 <= i < n ensures g(i) == [] <==> MeetsAll(ms, n, i) {
      var flag := (j: nat) => MissingFlag(ms, i, j);
      ReportEmpty(n, flag);
      if !MeetsAll(ms, n, i) {
        var j :| 0 <= j < n && CountWhere(ms, PairIs(i, j)) < 1;
        assert flag(j).Some?;
      }
    }
  }

  lemma DuplicateReportEmpty(ms: seq<Match>, n: nat)
    ensures DuplicateReport(ms, n, n) == [] <==> NoneDuplicate(ms, n)
  {
    var g := (i: nat) => DuplicateRow(ms, i, n);
    ConcatEmpty(n, g);
    forall i | 0 <= i < n ensures g(i) == [] <==> MeetsNoneTwice(ms, n, i) {
      var flag := (j: nat) => DuplicateFlag(ms, i, j);
      ReportEmpty(n, flag);
      if !MeetsNoneTwice(ms, n, i) {
        var j :| 0 <= j < n && CountWhere(ms, PairIs(i, j)) > 1;
        assert flag(j).Some?;
      }
    }
  }

  /** Neither missing nor duplicated is exactly "every pair played once". */
  lemma NoMissingNoDuplicate(ms: seq<Match>, n: nat)
    ensures NoneMissing(ms, n) && NoneDuplicate(ms, n) <==> PairsExactlyOnce(ms, n)
  {
    if PairsExactlyOnce(ms, n) {
      forall i | 0 <= i < n ensures MeetsAll(ms, n, i) && MeetsNoneTwice(ms, n, i) {
        forall j | 0 <= j < n ensures CountWhere(ms, PairIs(i, j)) == 1 {
        }
      }
    }
    if NoneMissing(ms, n) && NoneDuplicate(ms, n) {
      forall i, j | 0 <= i < n && 0 <= j < n ensures CountWhere(ms, PairIs(i, j)) == 1 {
        assert MeetsAll(ms, n, i) && MeetsNoneTwice(ms, n, i);
      }
    }
  }

  /** The double loop over i, j reading `len(pair_count.get((i, j), []))`. */
  method PairLists(pc: map<(int, int), nat>, ms: seq<Match>, n: nat)
    returns (missing: seq<Issue>, duplicate: seq<Issue>)
    requires TalliesPairs(pc, ms)
    ensures missing == MissingReport(ms, n, n) && duplicate == DuplicateReport(ms, n, n)
    ensures missing == [] && duplicate == [] <==> PairsExactlyOnce(ms, n)
  {
    missing, duplicate := [], [];
    var i := 0;
    while i < n
      invariant i <= n
      invariant missing == MissingReport(ms, n, i) && duplicate == DuplicateReport(ms, n, i)
    {
      var j := 0;
      while j < n
        invariant j <= n
        invariant missing == MissingReport(ms, n, i) + MissingRow(ms, i, j)
        invariant duplicate == DuplicateReport(ms, n, i) + DuplicateRow(ms, i, j)
      {
        var cnt := Get(pc, (i, j));
        assert cnt == CountWhere(ms, PairIs(i, j));
        if cnt == 0 {
          missing := missing + [MissingPair(i, j)];
          assert duplicate + [] == duplicate;
        } else if cnt > 1 {
          duplicate := duplicate + [BadPairCount(i, j, cnt)];
          assert missing + [] == missing;
        } else {
          assert missing + [] == missing && duplicate + [] == duplicate;
        }
        j := j + 1;
      }
      i := i + 1;
    }
    MissingReportEmpty(ms, n);
    DuplicateReportEmpty(ms, n);
    NoMissingNoDuplicate(ms, n);
  }

  // ----- players per round -----

  /** `len(r) == n for r in rounds` */
  predicate RoundSizes(rounds: seq<Round>, n: nat)
  {
    forall r :: 0 <= r < |rounds| ==> |rounds[r]| == n
  }

  /** In every round the A-indexes are a permutation of 0..n-1. */
  predicate APlayersPerRound(rounds: seq<Round>, n: nat)
  {
    forall r :: 0 <= r < |rounds| ==> IsPerm(APlayers(rounds[r]), n)
  }

  predicate BPlayersPerRound(rounds: seq<Round>, n: nat)
  {
    forall r :: 0 <= r < |rounds| ==> IsPerm(BPlayers(rounds[r]), n)
  }

  /** `all(p(rd) for rd in rounds)`, or the loop that clears a flag on the
      first round failing p and carries on. */
  method EachRound(rounds: seq<Round>, p: Round -> bool) returns (ok: bool)
    ensures ok <==> forall r :: 0 <= r < |rounds| ==> p(rounds[r])
  {
    ok := true;
    var r := 0;
    while r < |rounds|
      invariant r <= |rounds|
      invariant ok <==> forall x :: 0 <= x < r ==> p(rounds[x])
    {
      if !p(rounds[r]) {
        ok := false;
      }
      r := r + 1;
    }
  }

  /** `len(r) == n` for every round. */
  method RoundSizesCheck(rounds: seq<Round>, n: nat) returns (ok: bool)
    ensures ok <==> RoundSizes(rounds, n)
  {
    ok := EachRound(rounds, (rd: Round) => |rd| == n);
  }

  /** Both sides of every round are permutations of 0..n-1. */
  method PlayersPerRoundCheck(rounds: seq<Round>, n: nat) returns (ok: bool)
    ensures ok <==> APlayersPerRound(rounds, n) && BPlayersPerRound(rounds, n)
  {
    ok := EachRound(rounds, (rd: Round) => IsPerm(APlayers(rd), n) && IsPerm(BPlayers(rd), n));
  }

  /** `sum(f for ...) == m` for every round. */
  method RoundsAFirstCheck(rounds: seq<Round>, m: int) returns (ok: bool)
    ensures ok <==> RoundsAFirst(rounds, m)
  {
    ok := EachRound(rounds, (rd: Round) => AFirstCount(rd) == m);
  }

  /** A round whose players are permutations has its indexes in 0..n-1. */
  lemma RoundInRange(rd: Round, n: nat)
    requires IsPerm(APlayers(rd), n) && IsPerm(BPlayers(rd), n)
    ensures MatchesInRange(rd, n) && |rd| == n
  {
    PermIff(APlayers(rd), n);
    PermIff(BPlayers(rd), n);
    forall k | 0 <= k < |rd| ensures 0 <= rd[k].a < n && 0 <= rd[k].b < n {
      assert APlayers(rd)[k] == rd[k].a && BPlayers(rd)[k] == rd[k].b;
    }
  }

  /** Rounds of permutations hold only in-range matches. */
  lemma {:induction false} RoundsInRange(rounds: seq<Round>, n: nat)
    requires APlayersPerRound(rounds, n) && BPlayersPerRound(rounds, n)
    ensures MatchesInRange(Flatten(rounds), n) && RoundSizes(rounds, n)
  {
    if rounds != [] {
      var init, last := rounds[..|rounds| - 1], rounds[|rounds| - 1];
      assert forall r :: 0 <= r < |init| ==> init[r] == rounds[r];
      RoundsInRange(init, n);
      RoundInRange(last, n);
      var xs := Flatten(init);
      assert Flatten(rounds) == xs + last;
      forall k | 0 <= k < |xs + last|
        ensures 0 <= (xs + last)[k].a < n && 0 <= (xs + last)[k].b < n
      {
        if k >= |xs| {
          assert (xs + last)[k] == last[k - |xs|];
        }
      }
    }
  }

  /** Per-round permutations and every pair exactly once leave each player's
      opponent list a permutation: the opponent check cannot fail then. */
  lemma OpponentsFollow(rounds: seq<Round>, n: nat)
    requires APlayersPerRound(rounds, n) && BPlayersPerRound(rounds, n)
    requires PairsExactlyOnce(Flatten(rounds), n)
    ensures forall i :: 0 <= i < n ==> IsPerm(APlayersOf(Flatten(rounds), i), n)
    ensures forall j :: 0 <= j < n ==> IsPerm(BPlayersOf(Flatten(rounds), j), n)
  {
    RoundsInRange(rounds, n);
    OpponentsArePerms(Flatten(rounds), n);
  }

  /** `sorted(opponents) == list(range(n))` for every A_i (byA) or every B_j. */
  predicate OpponentsArePermsOf(ms: seq<Match>, n: nat, byA: bool)
  {
    forall i :: 0 <= i < n ==> IsPerm(OpponentsOf(ms, i, byA), n)
  }

  /** The opponent check of one side: collect, compare, clear the flag. */
  method OpponentCheck(rounds: seq<Round>, n: nat, byA: bool) returns (ok: bool)
    ensures ok <==> OpponentsArePermsOf(Flatten(rounds), n, byA)
  {
    ok := true;
    var i := 0;
    while i < n
      invariant i <= n
      invariant ok <==> forall x :: 0 <= x < i ==> IsPerm(OpponentsOf(Flatten(rounds), x, byA), n)
    {
      var opponents := CollectOpponents(rounds, i, byA);
      if !IsPerm(opponents, n) {
        ok := false;
      }
      i := i + 1;
    }
  }

  // ----- first-move balance -----

  /** `sum(1 for a, b, f in rd if f)` */
  function AFirstCount(rd: Round): nat
  {
    CountWhere(rd, AFirstMatch())
  }

  /** `sum(1 for a, b, f in rd if not f)`: the B-players moving first. */
  function BFirstCount(rd: Round): nat
  {
    CountWhere(rd, BFirstMatch())
  }

  /** The B-first count of a round is its A-second count: the matches the
      A-first count leaves over. */
  lemma RoundBFirstIsASecond(rd: Round)
    ensures BFirstCount(rd) == |rd| - AFirstCount(rd)
  {
    FirstsComplement(rd);
  }

  /** Every round has m A-players first. */
  predicate RoundsAFirst(rounds: seq<Round>, m: int)
  {
    forall r :: 0 <= r < |rounds| ==> AFirstCount(rounds[r]) == m
  }

  /** Every round has m A-players and m B-players first. */
  predicate RoundsBothFirst(rounds: seq<Round>, m: int)
  {
    forall r :: 0 <= r < |rounds| ==> AFirstCount(rounds[r]) == m && BFirstCount(rounds[r]) == m
  }

  /** Checking both sides of a round is checking the A side and the round
      size 2m. */
  lemma RoundsBothFirstIff(rounds: seq<Round>, m: nat)
    ensures RoundsBothFirst(rounds, m) <==> RoundsAFirst(rounds, m) && RoundSizes(rounds, 2 * m)
  {
    forall r | 0 <= r < |rounds| ensures BFirstCount(rounds[r]) == |rounds[r]| - AFirstCount(rounds[r]) {
      RoundBFirstIsASecond(rounds[r]);
    }
  }

  /** Every player i < n is selected by sel(i) exactly m times. */
  predicate EachCount(ms: seq<Match>, n: nat, sel: int -> (Match -> bool), m: int)
  {
    forall i :: 0 <= i < n ==> CountWhere(ms, sel(i)) == m
  }

  /** `for i in range(n): fc = sum(...); if fc != m: ok = False` */
  method EachCountCheck(rounds: seq<Round>, n: nat, sel: int -> (Match -> bool), m: int) returns (ok: bool)
    ensures ok <==> EachCount(Flatten(rounds), n, sel, m)
  {
    ok := true;
    var i := 0;
    while i < n
      invariant i <= n
      invariant ok <==> forall x :: 0 <= x < i ==> CountWhere(Flatten(rounds), sel(x)) == m
    {
      var fc := CountRounds(rounds, sel(i));
      if fc != m {
        ok := false;
      }
      i := i + 1;
    }
  }

  /** Once every A-player meets n opponents and n == 2m, the first counts
      settle the second counts. */
  lemma ASecondsFollow(ms: seq<Match>, n: nat, m: int)
    requires OpponentsArePermsOf(ms, n, true) && n == 2 * m
    ensures EachCount(ms, n, AFirstIs, m) ==> EachCount(ms, n, ASecondIs, m)
  {
    forall i | 0 <= i < n ensures |APlayersOf(ms, i)| == n {
      assert IsPerm(OpponentsOf(ms, i, true), n);
      PermIff(APlayersOf(ms, i), n);
    }
    forall i | 0 <= i < n
      ensures CountWhere(ms, AFirstIs(i)) + CountWhere(ms, ASecondIs(i)) == n
    {
      APlaysSplit(ms, i);
    }
  }

  lemma BSecondsFollow(ms: seq<Match>, n: nat, m: int)
    requires OpponentsArePermsOf(ms, n, false) && n == 2 * m
    ensures EachCount(ms, n, BFirstIs, m) ==> EachCount(ms, n, BSecondIs, m)
  {
    forall j | 0 <= j < n ensures |BPlayersOf(ms, j)| == n {
      assert IsPerm(OpponentsOf(ms, j, false), n);
      PermIff(BPlayersOf(ms, j), n);
    }
    forall j | 0 <= j < n
      ensures CountWhere(ms, BFirstIs(j)) + CountWhere(ms, BSecondIs(j)) == n
    {
      BPlaysSplit(ms, j);
    }
  }
}
