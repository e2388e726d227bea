/** verify_wiki.py: rebuild the pairing table L and the colouring F from a
    table of match strings, then collect six kinds of errors. */
module WikiCheck {
  import opened Outcomes
  import opened Tables
  import opened Notation
  import opened Checks
  import opened Squares
  import opened Schedule

  // ----- building L and F -----

  /** One match string of round r: `L[r][a_idx] = b_idx` and
      `F[r][a_idx] = 1 if a_first else 0`, with Python's list indexing. */
  function PlaceMatch(lrow: seq<int>, frow: seq<int>, s: string): (res: Result<(seq<int>, seq<int>)>)
    requires |lrow| == |frow|
    ensures res.Ok? ==> |res.value.0| == |lrow| && |res.value.1| == |lrow|
  {
    var p := ParseMatch(s);
    if p.Err? then Err(p.fault)
    else
      match PyIndex(p.value.a, |lrow|)
      case None => Err(IndexError)
      case Some(k) => Ok((lrow[k := p.value.b], frow[k := if p.value.aFirst then 1 else 0]))
  }

  /** The match strings of one round, in order; the first exception ends the round. */
  function PlaceMatches(lrow: seq<int>, frow: seq<int>, strs: seq<string>): (res: Result<(seq<int>, seq<int>)>)
    requires |lrow| == |frow|
    ensures res.Ok? ==> |res.value.0| == |lrow| && |res.value.1| == |lrow|
  {
    if strs == [] then Ok((lrow, frow))
    else
      var prev := PlaceMatches(lrow, frow, strs[..|strs| - 1]);
      if prev.Err? then prev else PlaceMatch(prev.value.0, prev.value.1, strs[|strs| - 1])
  }

  /** Rounds 0..k-1 of L and F; `wiki_schedule[r]` raises IndexError when
      the table has fewer rounds. */
  function BuildRows(schedule: seq<seq<string>>, n: nat, k: nat): (res: Result<(Table, Table)>)
    ensures res.Ok? ==> |res.value.0| == k && |res.value.1| == k
    ensures res.Ok? ==> forall r :: 0 <= r < k ==> |res.value.0[r]| == n && |res.value.1[r]| == n
  {
    if k == 0 then Ok(([], []))
    else
      var prev := BuildRows(schedule, n, k - 1);
      if prev.Err? then prev
      else if k - 1 >= |schedule| then Err(IndexError)
      else
        var row := PlaceMatches(Zeros(n), Zeros(n), schedule[k - 1]);
        if row.Err? then Err(row.fault)
        else Ok((prev.value.0 + [row.value.0], prev.value.1 + [row.value.1]))
  }

  /** L and F of the whole table. */
  function BuildTables(schedule: seq<seq<string>>, n: nat): (res: Result<(Table, Table)>)
    ensures res.Ok? ==> IsSquare(res.value.0, n) && IsSquare(res.value.1, n)
  {
    BuildRows(schedule, n, n)
  }

  /** The two nested loops that fill one round of L and F. */
  method FillRound(strs: seq<string>, n: nat) returns (res: Result<(seq<int>, seq<int>)>)
    ensures res == PlaceMatches(Zeros(n), Zeros(n), strs)
  {
    var lrow, frow := Zeros(n), Zeros(n);
    var k := 0;
    while k < |strs|
      invariant k <= |strs| && |lrow| == n && |frow| == n
      invariant PlaceMatches(Zeros(n), Zeros(n), strs[..k]) == Ok((lrow, frow))
    {
      assert strs[..k + 1][..k] == strs[..k];
      PlaceNext(Zeros(n), Zeros(n), strs[..k + 1], lrow, frow);
      var p := ParseMatch(strs[k]);
      if p.Err? {
        ErrSticksInRound(Zeros(n), Zeros(n), strs, k + 1);
        return Err(p.fault);
      }
      var idx := PyIndex(p.value.a, n);
      if idx.None? {
        ErrSticksInRound(Zeros(n), Zeros(n), strs, k + 1);
        return Err(IndexError);
      }
      lrow := lrow[idx.value := p.value.b];
      frow := frow[idx.value := if p.value.aFirst then 1 else 0];
      k := k + 1;
    }
    assert strs[..k] == strs;
    res := Ok((lrow, frow));
  }

  /** Once a match string raises, the round raises the same way. */
  lemma {:induction false} ErrSticksInRound(lrow: seq<int>, frow: seq<int>, strs: seq<string>, k: nat)
    requires |lrow| == |frow| && k <= |strs|
    requires PlaceMatches(lrow, frow, strs[..k]).Err?
    ensures PlaceMatches(lrow, frow, strs) == PlaceMatches(lrow, frow, strs[..k])
    decreases |strs| - k
  {
    if k < |strs| {
      assert strs[..k + 1][..k] == strs[..k];
      ErrSticksInRound(lrow, frow, strs, k + 1);
    } else {
      assert strs[..k] == strs;
    }
  }

  /** `for r in range(n): for match_str in wiki_schedule[r]: ...` */
  method BuildLF(schedule: seq<seq<string>>, n: nat) returns (res: Result<(Table, Table)>)
    ensures res == BuildTables(schedule, n)
  {
    var L: Table, F: Table := [], [];
    var r := 0;
    while r < n
      invariant r <= n && BuildRows(schedule, n, r) == Ok((L, F))
    {
      if r >= |schedule| {
        RowsErrSticks(schedule, n, r + 1);
        return Err(IndexError);
      }
      var row := FillRound(schedule[r], n);
      if row.Err? {
        RowsErrSticks(schedule, n, r + 1);
        return Err(row.fault);
      }
      L, F := L + [row.value.0], F + [row.value.1];
      r := r + 1;
    }
    res := Ok((L, F));
  }

  lemma {:induction false} RowsErrSticks(schedule: seq<seq<string>>, n: nat, k: nat)
    requires k <= n && BuildRows(schedule, n, k).Err?
    ensures BuildTables(schedule, n) == BuildRows(schedule, n, k)
    decreases n - k
  {
    if k < n {
      RowsErrSticks(schedule, n, k + 1);
    }
  }

  // ----- the pair count -----

  /** The pairs (A_i, B_{row[i]}) of one round, A_1 first. */
  function RowCells(row: seq<int>): (c: seq<(int, int)>)
    ensures |c| == |row|
  {
    seq(|row|, i requires 0 <= i < |row| => (i, row[i]))
  }

  /** The pairs of rounds 0..k-1 in the order the double loop visits them. */
  function Cells(L: Table, k: nat): seq<(int, int)>
    requires k <= |L|
  {
    if k == 0 then [] else Cells(L, k - 1) + RowCells(L[k - 1])
  }

  /** The keys of a dict filled from s, in insertion order: each element of s
      once, where it first occurs. */
  function FirstSeen(s: seq<(int, int)>): (o: seq<(int, int)>)
    ensures forall x :: x in o <==> x in s
  {
    if s == [] then []
    else
      var o := FirstSeen(s[..|s| - 1]);
      var x := s[|s| - 1];
      assert s == s[..|s| - 1] + [x];
      if x in o then o else o + [x]
  }

  /** Each key is listed once. */
  lemma {:induction false} FirstSeenDistinct(s: seq<(int, int)>)
    ensures forall a, b :: 0 <= a < b < |FirstSeen(s)| ==> FirstSeen(s)[a] != FirstSeen(s)[b]
  {
    if s != [] {
      var t, x := s[..|s| - 1], s[|s| - 1];
      FirstSeenDistinct(t);
      var o := FirstSeen(t);
      if x !in o {
        assert FirstSeen(s) == o + [x];
        forall a, b | 0 <= a < b < |o| + 1 ensures (o + [x])[a] != (o + [x])[b] {
          if b == |o| {
            assert o[a] in o;
          } else {
            assert (o + [x])[a] == o[a] && (o + [x])[b] == o[b];
          }
        }
      } else {
        assert FirstSeen(s) == o;
      }
    }
  }

  /** An element that only position i of s can hold occurs there or nowhere. */
  lemma CountAtOnly<T>(s: seq<T>, i: nat, x: T)
    requires i < |s| && forall t :: 0 <= t < |s| && t != i ==> s[t] != x
    ensures multiset(s)[x] == if s[i] == x then 1 else 0
  {
    assert s == s[..i] + [s[i]] + s[i + 1..];
    assert x !in s[..i];
    assert x !in s[i + 1..];
  }

  /** Every visited pair names an A-player in range. */
  lemma {:induction false} CellsInRange(L: Table, n: nat, k: nat)
    requires IsSquare(L, n) && k <= n
    ensures forall p :: p in Cells(L, k) ==> 0 <= p.0 < n
  {
    if k > 0 {
      CellsInRange(L, n, k - 1);
    }
  }

  /** Round r holds the pair (A_i, B_j) once if A_i meets B_j in it, else never. */
  lemma RowCellsCount(row: seq<int>, i: nat, j: int)
    requires i < |row|
    ensures multiset(RowCells(row))[(i, j)] == if row[i] == j then 1 else 0
  {
    CountAtOnly(RowCells(row), i, (i, j));
  }

  /** The dict's count for (A_i, B_j) after k rounds is how often A_i met
      B_j in those rounds. */
  lemma {:induction false} CellsCount(L: Table, n: nat, k: nat, i: nat, j: int)
    requires IsSquare(L, n) && k <= n && i < n
    ensures multiset(Cells(L, k))[(i, j)] == multiset(Column(L, i)[..k])[j]
  {
    if k == 0 {
      assert Column(L, i)[..0] == [];
    } else {
      CellsCount(L, n, k - 1, i, j);
      CellsCountStep(L, n, k, i, j);
    }
  }

  /** Round k-1 adds the same to both counts. */
  lemma CellsCountStep(L: Table, n: nat, k: nat, i: nat, j: int)
    requires IsSquare(L, n) && 0 < k <= n && i < n
    requires multiset(Cells(L, k - 1))[(i, j)] == multiset(Column(L, i)[..k - 1])[j]
    ensures multiset(Cells(L, k))[(i, j)] == multiset(Column(L, i)[..k])[j]
  {
    var col := Column(L, i);
    var row := L[k - 1];
    assert i < |row| && col[k - 1] == row[i];
    RowCellsCount(row, i, j);
    CellsStep(L, k, (i, j));
    PrefixCount(col, k, j);
  }

  /** Round k-1 adds its own pairs to the count. */
  lemma CellsStep(L: Table, k: nat, x: (int, int))
    requires 0 < k <= |L|
    ensures multiset(Cells(L, k))[x] == multiset(Cells(L, k - 1))[x] + multiset(RowCells(L[k - 1]))[x]
  {
  }

  /** Extending a prefix by one element counts that element once more. */
  lemma PrefixCount(s: seq<int>, k: nat, v: int)
    requires 0 < k <= |s|
    ensures multiset(s[..k])[v] == multiset(s[..k - 1])[v] + if s[k - 1] == v then 1 else 0
  {
    assert s[..k] == s[..k - 1] + [s[k - 1]];
  }

  /** After all n rounds the count is PairCount. */
  lemma CellsPairCount(L: Table, n: nat, i: nat, j: int)
    requires IsSquare(L, n) && i < n
    ensures multiset(Cells(L, n))[(i, j)] == PairCount(L, n, i, j)
  {
    CellsCount(L, n, n, i, j);
    assert Column(L, i)[..n] == Column(L, i);
  }

  /** `if cnt != 1: errors.append(...)` for the t-th key of the dict. */
  function PairFlag(count: multiset<(int, int)>, order: seq<(int, int)>, t: nat): Option<Issue>
  {
    if t < |order| && count[order[t]] != 1
    then Some(BadPairCount(order[t].0, order[t].1, count[order[t]]))
    else None
  }

  /** The errors of `for (i, j), cnt in pair_count.items()` once the dict
      holds the pairs of cells. */
  function ItemsReport(cells: seq<(int, int)>): seq<Issue>
  {
    Report(|FirstSeen(cells)|, ItemFlags(cells))
  }

  function ItemFlags(cells: seq<(int, int)>): nat -> Option<Issue>
  {
    (t: nat) => PairFlag(multiset(cells), FirstSeen(cells), t)
  }

  /** The pair errors of verify_wiki, in the dict's insertion order. */
  function WikiPairReport(L: Table, n: nat): seq<Issue>
    requires IsSquare(L, n)
  {
    ItemsReport(Cells(L, n))
  }

  function PairFlags(L: Table, n: nat): nat -> Option<Issue>
    requires IsSquare(L, n)
  {
    ItemFlags(Cells(L, n))
  }

  /** A key of the dict is flagged exactly when its pair met at least twice,
      and the reported count is the true number of meetings: the check never
      reports a missing pair. */
  lemma WikiPairFlagMeaning(L: Table, n: nat, t: nat)
    requires IsSquare(L, n) && t < |FirstSeen(Cells(L, n))|
    ensures var key := FirstSeen(Cells(L, n))[t];
            && 0 <= key.0 < n
            && (PairFlag(multiset(Cells(L, n)), FirstSeen(Cells(L, n)), t).Some? <==>
                PairCount(L, n, key.0, key.1) >= 2)
            && (PairFlag(multiset(Cells(L, n)), FirstSeen(Cells(L, n)), t).Some? ==>
                PairFlag(multiset(Cells(L, n)), FirstSeen(Cells(L, n)), t).value.count
                == PairCount(L, n, key.0, key.1))
  {
    var key := FirstSeen(Cells(L, n))[t];
    assert key in Cells(L, n);
    CellsInRange(L, n, n);
    CellsPairCount(L, n, key.0, key.1);
  }

  /** A pair that meets twice is flagged at its key. */
  lemma RepeatIsFlagged(L: Table, n: nat, i: nat, a: nat, b: nat)
    requires IsSquare(L, n) && i < n && a < b < n && L[a][i] == L[b][i]
    ensures exists t: nat :: t < |FirstSeen(Cells(L, n))| && PairFlags(L, n)(t).Some?
  {
    var j := L[a][i];
    assert Column(L, i)[a] == j && Column(L, i)[b] == j;
    RepeatCountsTwice(Column(L, i), a, b);
    CellsPairCount(L, n, i, j);
    var order := FirstSeen(Cells(L, n));
    assert (i, j) in order;
    var t :| 0 <= t < |order| && order[t] == (i, j);
    assert PairFlags(L, n)(t).Some?;
  }

  /** Without a flag no pair meets twice. */
  lemma NoFlagNoRepeat(L: Table, n: nat)
    requires IsSquare(L, n)
    requires forall t: nat :: t < |FirstSeen(Cells(L, n))| ==> PairFlags(L, n)(t).None?
    ensures NoRepeatedPair(L, n)
  {
    forall i | 0 <= i < n ensures Distinct(Column(L, i)) {
      forall a, b | 0 <= a < b < n ensures Column(L, i)[a] != Column(L, i)[b] {
        if Column(L, i)[a] == Column(L, i)[b] {
          RepeatIsFlagged(L, n, i, a, b);
        }
      }
    }
  }

  /** Without a repeated pair no key is flagged. */
  lemma NoRepeatNoFlag(L: Table, n: nat, t: nat)
    requires IsSquare(L, n) && NoRepeatedPair(L, n) && t < |FirstSeen(Cells(L, n))|
    ensures PairFlags(L, n)(t).None?
  {
    WikiPairFlagMeaning(L, n, t);
    var key := FirstSeen(Cells(L, n))[t];
    DistinctCountAtMostOne(Column(L, key.0), key.1);
  }

  /** The pair errors are empty exactly when no pair meets twice. */
  lemma WikiPairReportEmpty(L: Table, n: nat)
    requires IsSquare(L, n)
    ensures WikiPairReport(L, n) == [] <==> NoRepeatedPair(L, n)
  {
    var order := FirstSeen(Cells(L, n));
    ReportEmpty(|order|, PairFlags(L, n));
    if WikiPairReport(L, n) == [] {
      NoFlagNoRepeat(L, n);
    } else if NoRepeatedPair(L, n) {
      forall t: nat | t < |order| ensures PairFlags(L, n)(t).None? {
        NoRepeatNoFlag(L, n, t);
      }
    }
  }

  /** count holds, for every pair seen in s, how often it occurs there. */
  ghost predicate Counts(count: map<(int, int), nat>, s: seq<(int, int)>)
  {
    && (forall x :: multiset(s)[x] == if x in count then count[x] else 0)
    && (forall x :: x in count ==> count[x] > 0)
  }

  /** A Python dict from pairs to counts: its entries and its insertion order. */
  datatype Dict = Dict(count: map<(int, int), nat>, order: seq<(int, int)>)

  /** `pair_count[pair] = pair_count.get(pair, 0) + 1` */
  function Bump(d: Dict, x: (int, int)): Dict
  {
    if x in d.count then Dict(d.count[x := d.count[x] + 1], d.order)
    else Dict(d.count[x := 1], d.order + [x])
  }

  /** The dict after bumping every pair of s in turn. */
  function Tally(s: seq<(int, int)>): Dict
  {
    if s == [] then Dict(map[], []) else Bump(Tally(s[..|s| - 1]), s[|s| - 1])
  }

  /** The dict counts every pair exactly, and its keys in insertion order
      are the pairs of s by first occurrence. */
  lemma {:induction false} TallyMeaning(s: seq<(int, int)>)
    ensures Counts(Tally(s).count, s) && Tally(s).order == FirstSeen(s)
  {
    if s != [] {
      var t, x := s[..|s| - 1], s[|s| - 1];
      TallyMeaning(t);
      assert s == t + [x];
      assert multiset(s) == multiset(t) + multiset{x};
      var c := Tally(t).count;
      assert multiset(t)[x] == if x in c then c[x] else 0;
      assert x in c <==> x in t;
    }
  }

  lemma TallyStep(s: seq<(int, int)>, x: (int, int))
    ensures Tally(s + [x]) == Bump(Tally(s), x)
  {
    assert (s + [x])[..|s|] == s;
  }

  /** One round of the dict-filling loop. */
  method TallyRow(ghost prefix: seq<(int, int)>, row: seq<int>, count0: map<(int, int), nat>, order0: seq<(int, int)>)
    returns (count: map<(int, int), nat>, order: seq<(int, int)>)
    requires Dict(count0, order0) == Tally(prefix)
    ensures Dict(count, order) == Tally(prefix + RowCells(row))
  {
    count, order := count0, order0;
    ghost var cells := RowCells(row);
    assert prefix + cells[..0] == prefix;
    var i := 0;
    while i < |row|
      invariant i <= |row| && Dict(count, order) == Tally(prefix + cells[..i])
    {
      var pair := (i, row[i]);
      assert pair == cells[i];
      TallyStep(prefix + cells[..i], pair);
      AppendNext(prefix, cells, i);
      if pair in count {
        count := count[pair := count[pair] + 1];
      } else {
        count := count[pair := 1];
        order := order + [pair];
      }
      i := i + 1;
    }
    assert cells[..i] == cells;
  }

  /** The two loops of verify_wiki's pair check: fill the dict row by row,
      then walk its items in insertion order. */
  method WikiPairIssues(L: Table, n: nat) returns (errs: seq<Issue>)
    requires IsSquare(L, n)
    ensures errs == WikiPairReport(L, n)
    ensures errs == [] <==> NoRepeatedPair(L, n)
  {
    var count, order := TallyCells(L, n);
    TallyMeaning(Cells(L, n));
    errs := PairCountIssues(Cells(L, n), count, order);
    WikiPairReportEmpty(L, n);
  }

  /** `for r in range(n): for i in range(n): pair_count[(i, L[r][i])] += 1` */
  method TallyCells(L: Table, n: nat) returns (count: map<(int, int), nat>, order: seq<(int, int)>)
    requires IsSquare(L, n)
    ensures Dict(count, order) == Tally(Cells(L, n))
  {
    count, order := map[], [];
    var r := 0;
    while r < n
      invariant r <= n && Dict(count, order) == Tally(Cells(L, r))
    {
      count, order := TallyRow(Cells(L, r), L[r], count, order);
      r := r + 1;
    }
  }

  /** `for (i, j), cnt in pair_count.items(): if cnt != 1: errors.append(...)` */
  method PairCountIssues(ghost cells: seq<(int, int)>, count: map<(int, int), nat>, order: seq<(int, int)>)
    returns (errs: seq<Issue>)
    requires Counts(count, cells) && order == FirstSeen(cells)
    ensures errs == ItemsReport(cells)
  {
    errs := [];
    var t := 0;
    while t < |order|
      invariant t <= |order| && errs == Report(t, ItemFlags(cells))
    {
      var key := order[t];
      assert key in cells;
      assert key in count;
      if count[key] != 1 {
        errs := errs + [BadPairCount(key.0, key.1, count[key])];
      }
      t := t + 1;
    }
  }

  // ----- the whole check -----

  /** The errors of verify_wiki, in its order: rows, columns, pairs, round
      A-first counts, A-player first counts, B-player second counts and
      round B-first counts. */
  function WikiReport(L: Table, F: Table, n: nat, m: int): seq<Issue>
    requires IsSquare(L, n) && IsSquare(F, n)
  {
    RowPermReport(L, n, n) + ColPermReport(L, n, n) + WikiPairReport(L, n) + RowSumReport(F, m, n)
    + ColSumReport(F, n, m, n) + BSecondReport(L, F, n, m, n) + RoundBFirstReport(F, m, n)
  }

  /** No error is collected exactly when L is a Latin square and F balances
      every round, every A-player and every B-player. */
  lemma WikiReportEmpty(L: Table, F: Table, n: nat, m: int)
    requires IsSquare(L, n) && IsSquare(F, n)
    ensures WikiReport(L, F, n, m) == [] <==> IsLatin(L, n) && Balanced(L, F, n, m) && RoundsBalanced(F, n, m)
  {
    var latin := RowPermReport(L, n, n) + ColPermReport(L, n, n);
    var sums := RowSumReport(F, m, n) + ColSumReport(F, n, m, n) + BSecondReport(L, F, n, m, n);
    assert WikiReport(L, F, n, m) == latin + WikiPairReport(L, n) + sums + RoundBFirstReport(F, m, n);
    RowPermReportEmpty(L, n);
    ColPermReportEmpty(L, n);
    assert latin == [] <==> IsLatin(L, n);
    WikiPairReportEmpty(L, n);
    if IsLatin(L, n) {
      ColumnPermsNoRepeatedPair(L, n);
    }
    SumReportsEmpty(L, F, n, m);
    RoundBFirstReportEmpty(F, n, m);
  }

  /** The six numbered checks of verify_wiki on L and F. */
  method WikiIssues(L: Table, F: Table, n: nat, m: int) returns (errs: seq<Issue>)
    requires IsSquare(L, n) && IsSquare(F, n)
    ensures errs == WikiReport(L, F, n, m)
    ensures errs == [] <==> IsLatin(L, n) && Balanced(L, F, n, m) && RoundsBalanced(F, n, m)
  {
    var e1 := RowPermIssues(L, n);
    var e2 := ColPermIssues(L, n);
    var e3 := WikiPairIssues(L, n);
    var e4 := RowSumIssues(F, n, m);
    var e5 := ColSumIssues(F, n, m);
    var e6 := BSecondIssues(L, F, n, m);
    var e7 := RoundBFirstIssues(F, n, m);
    errs := e1 + e2 + e3 + e4 + e5 + e6 + e7;
    WikiReportEmpty(L, F, n, m);
  }

  /** What the script ends with: the exception that stopped it while
      building L and F, or the list of errors. */
  function WikiOutcome(schedule: seq<seq<string>>, n: nat, m: int): Result<seq<Issue>>
  {
    var built := BuildTables(schedule, n);
    if built.Err? then Err(built.fault) else WikiChecked(built.value.0, built.value.1, n, m)
  }

  function WikiChecked(L: Table, F: Table, n: nat, m: int): Result<seq<Issue>>
  {
    if IsSquare(L, n) && IsSquare(F, n) then Ok(WikiReport(L, F, n, m)) else Err(TypeError)
  }

  /** verify_wiki.py: build L and F from the table, then check them. */
  method VerifyWiki(schedule: seq<seq<string>>, n: nat, m: int) returns (res: Result<seq<Issue>>)
    ensures res == WikiOutcome(schedule, n, m)
    ensures res.Ok? <==> BuildTables(schedule, n).Ok?
    ensures res.Ok? ==> (res.value == [] <==>
              var (L, F) := BuildTables(schedule, n).value;
              IsLatin(L, n) && Balanced(L, F, n, m) && RoundsBalanced(F, n, m))
  {
    var built := BuildLF(schedule, n);
    if built.Err? {
      return Err(built.fault);
    }
    var (L, F) := built.value;
    var errs := WikiIssues(L, F, n, m);
    res := Ok(errs);
  }

  /** A schedule written from L and F is judged as L and F themselves:
      "ALL CHECKS PASSED" exactly for a Latin square with a balanced
      colouring. */
  lemma WikiJudgesWrittenSchedule(L: Table, F: Table, n: nat, m: int)
    requires IsSquare(L, n) && IsSquare(F, n) && IsBinary(F)
    requires forall r, i :: 0 <= r < n && 0 <= i < n ==> L[r][i] >= 0
    ensures WikiOutcome(ScheduleOf(L, F, n), n, m) == Ok(WikiReport(L, F, n, m))
    ensures WikiOutcome(ScheduleOf(L, F, n), n, m) == Ok([]) <==>
              IsLatin(L, n) && Balanced(L, F, n, m) && RoundsBalanced(F, n, m)
  {
    BuildTablesRoundTrip(L, F, n);
    WikiReportEmpty(L, F, n, m);
  }

  // ----- round trip -----

  /** The match-string table of L and F: round r lists A_1..A_n in order. */
  function ScheduleOf(L: Table, F: Table, n: nat): (s: seq<seq<string>>)
    requires IsSquare(L, n) && IsSquare(F, n)
    ensures |s| == n
  {
    seq(n, r requires 0 <= r < n => RoundMatches(L[r], F[r]))
  }

  /** Placing one match whose string reads as A_i against B_b. */
  lemma PlaceParsed(lrow: seq<int>, frow: seq<int>, s: string, i: nat, b: int, first: bool)
    requires |lrow| == |frow| && i < |lrow| && ParseMatch(s) == Ok(Match(i, b, first))
    ensures PlaceMatch(lrow, frow, s) == Ok((lrow[i := b], frow[i := if first then 1 else 0]))
  {
  }

  /** One more match string after a prefix that placed cleanly. */
  lemma PlaceNext(lrow: seq<int>, frow: seq<int>, strs: seq<string>, l0: seq<int>, f0: seq<int>)
    requires |lrow| == |frow| && |strs| > 0
    requires PlaceMatches(lrow, frow, strs[..|strs| - 1]) == Ok((l0, f0))
    ensures PlaceMatches(lrow, frow, strs) == PlaceMatch(l0, f0, strs[|strs| - 1])
  {
  }

  /** Writing cell i of a row that is filled up to i. */
  lemma FillNext(row: seq<int>, n: nat, i: nat, v: int)
    requires |row| == n && i < n && v == row[i]
    ensures (row[..i] + Zeros(n - i))[i := v] == row[..i + 1] + Zeros(n - (i + 1))
  {
    var z := row[..i] + Zeros(n - i);
    var w := row[..i + 1] + Zeros(n - (i + 1));
    assert |z[i := v]| == |w|;
    forall j | 0 <= j < n ensures z[i := v][j] == w[j] {
      if j < i {
        assert z[j] == row[j] && w[j] == row[j];
      } else if j > i {
        assert z[j] == 0 && w[j] == 0;
      }
    }
  }

  /** Placing no match leaves both rows at zero. */
  lemma PlaceRoundStart(lrow: seq<int>, frow: seq<int>, strs: seq<string>, n: nat)
    requires |lrow| == n && |frow| == n && |strs| == n
    ensures PlaceMatches(Zeros(n), Zeros(n), strs[..0]) == Ok((lrow[..0] + Zeros(n), frow[..0] + Zeros(n)))
  {
    assert strs[..0] == [];
    assert Zeros(n) == lrow[..0] + Zeros(n) == frow[..0] + Zeros(n);
  }

  /** Placing match i after the first i extends the filled prefix by cell i. */
  lemma PlaceRoundStep(lrow: seq<int>, frow: seq<int>, strs: seq<string>, n: nat, i: nat)
    requires |lrow| == n && |frow| == n && |strs| == n && i < n
    requires IsBinaryRow(frow)
    requires ParseMatch(strs[i]) == Ok(Match(i, lrow[i], frow[i] == 1))
    requires PlaceMatches(Zeros(n), Zeros(n), strs[..i]) == Ok((lrow[..i] + Zeros(n - i), frow[..i] + Zeros(n - i)))
    ensures PlaceMatches(Zeros(n), Zeros(n), strs[..i + 1]) == Ok((lrow[..i + 1] + Zeros(n - i - 1), frow[..i + 1] + Zeros(n - i - 1)))
  {
    var pre := strs[..i + 1];
    assert pre[..|pre| - 1] == strs[..i];
    var l0, f0 := lrow[..i] + Zeros(n - i), frow[..i] + Zeros(n - i);
    PlaceNext(Zeros(n), Zeros(n), pre, l0, f0);
    assert pre[|pre| - 1] == strs[i];
    var first := frow[i] == 1;
    PlaceParsed(l0, f0, strs[i], i, lrow[i], first);
    FillNext(lrow, n, i, lrow[i]);
    FillNext(frow, n, i, if first then 1 else 0);
  }

  /** Every written match string of a round reads back as its match. */
  lemma RoundMatchesParse(lrow: seq<int>, frow: seq<int>)
    requires |lrow| == |frow| && forall i :: 0 <= i < |lrow| ==> lrow[i] >= 0
    ensures forall i :: 0 <= i < |lrow| ==>
              ParseMatch(RoundMatches(lrow, frow)[i]) == Ok(Match(i, lrow[i], frow[i] == 1))
  {
    forall i | 0 <= i < |lrow|
      ensures ParseMatch(RoundMatches(lrow, frow)[i]) == Ok(Match(i, lrow[i], frow[i] == 1))
    {
      ParseFormatMatch(i, lrow[i], frow[i] == 1);
    }
  }

  /** A written round rebuilds as its rows of L and F. */
  lemma PlaceRound(lrow: seq<int>, frow: seq<int>, n: nat)
    requires |lrow| == n && |frow| == n && IsBinaryRow(frow)
    requires forall i :: 0 <= i < n ==> lrow[i] >= 0
    ensures PlaceMatches(Zeros(n), Zeros(n), RoundMatches(lrow, frow)) == Ok((lrow, frow))
  {
    var strs := RoundMatches(lrow, frow);
    RoundMatchesParse(lrow, frow);
    PlaceRoundStart(lrow, frow, strs, n);
    var k := 0;
    while k < n
      invariant k <= n
      invariant PlaceMatches(Zeros(n), Zeros(n), strs[..k]) == Ok((lrow[..k] + Zeros(n - k), frow[..k] + Zeros(n - k)))
    {
      PlaceRoundStep(lrow, frow, strs, n, k);
      k := k + 1;
    }
    assert strs[..n] == strs;
    assert lrow[..n] + Zeros(0) == lrow && frow[..n] + Zeros(0) == frow;
  }

  /** Round trip: writing L and F as match strings and rebuilding gives back
      L and F, for any table with non-negative entries and a 0/1 colouring. */
  lemma BuildTablesRoundTrip(L: Table, F: Table, n: nat)
    requires IsSquare(L, n) && IsSquare(F, n) && IsBinary(F)
    requires forall r, i :: 0 <= r < n && 0 <= i < n ==> L[r][i] >= 0
    ensures BuildTables(ScheduleOf(L, F, n), n) == Ok((L, F))
  {
    var s := ScheduleOf(L, F, n);
    forall r | 0 <= r < n ensures PlaceMatches(Zeros(n), Zeros(n), s[r]) == Ok((L[r], F[r])) {
      assert IsBinaryRow(F[r]);
      PlaceRound(L[r], F[r], n);
    }
    BuildRowsPrefix(s, L, F, n, n);
    assert L[..n] == L && F[..n] == F;
  }

  /** One more round placed cleanly extends the rows built so far. */
  lemma BuildRowsStep(s: seq<seq<string>>, n: nat, k: nat, L: Table, F: Table, lrow: seq<int>, frow: seq<int>)
    requires 0 < k <= |s| && BuildRows(s, n, k - 1) == Ok((L, F))
    requires PlaceMatches(Zeros(n), Zeros(n), s[k - 1]) == Ok((lrow, frow))
    ensures BuildRows(s, n, k) == Ok((L + [lrow], F + [frow]))
  {
  }

  lemma {:induction false} BuildRowsPrefix(s: seq<seq<string>>, L: Table, F: Table, n: nat, k: nat)
    requires |s| == n && |L| == n && |F| == n && k <= n
    requires forall r :: 0 <= r < n ==> PlaceMatches(Zeros(n), Zeros(n), s[r]) == Ok((L[r], F[r]))
    ensures BuildRows(s, n, k) == Ok((L[..k], F[..k]))
  {
    if k > 0 {
      BuildRowsPrefix(s, L, F, n, k - 1);
      TakeNext(L, k - 1);
      TakeNext(F, k - 1);
      BuildRowsStep(s, n, k, L[..k - 1], F[..k - 1], L[k - 1], F[k - 1]);
    } else {
      assert L[..0] == [] && F[..0] == [];
    }
  }
}
