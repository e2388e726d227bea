/** Writing a schedule as round lines and reading it back. The writers are
    the formatting loops of write_solution, format_schedule,
    verify_and_format and verify_and_print; the readers are the line loops
    of verify_solution.py, verify_n34.py, verify_n34_plus.py and
    solver_n34_plus.read_existing_latin_square. A file is a list of lines. */
module Schedule {
  import opened Outcomes
  import opened Tables
  import opened Notation

  // ----- writing -----

  /** The round lines of L and F, round 0 first. */
  function RoundLines(L: Table, F: Table, n: nat): (lines: seq<string>)
    requires IsSquare(L, n) && IsSquare(F, n)
    ensures |lines| == n
  {
    seq(n, r requires 0 <= r < n => RoundLine(r, L[r], F[r]))
  }

  /** What a reader should recover: in round r, A_i meets B_{L[r][i]} and
      moves first exactly when F[r][i] == 1. */
  function RoundsOf(L: Table, F: Table, n: nat): (rounds: seq<seq<Match>>)
    requires IsSquare(L, n) && IsSquare(F, n)
    ensures |rounds| == n && forall r :: 0 <= r < n ==> |rounds[r]| == n
  {
    seq(n, r requires 0 <= r < n => RoundOf(L[r], F[r]))
  }

  /** One round's match strings: A first exactly when F[r][i] == 1. */
  method FormatMatches(lrow: seq<int>, frow: seq<int>) returns (matches: seq<string>)
    requires |lrow| == |frow|
    ensures matches == RoundMatches(lrow, frow)
  {
    matches := [];
    var i := 0;
    while i < |lrow|
      invariant i <= |lrow| && matches == RoundMatches(lrow, frow)[..i]
    {
      var m := FormatMatch(i, lrow[i], frow[i] == 1);
      TakeNext(RoundMatches(lrow, frow), i);
      matches := matches + [m];
      i := i + 1;
    }
    assert RoundMatches(lrow, frow)[..i] == RoundMatches(lrow, frow);
  }

  /** The formatting loop: per round, the match strings, then the label and
      the space-joined matches. */
  method FormatRounds(L: Table, F: Table, n: nat) returns (lines: seq<string>)
    requires IsSquare(L, n) && IsSquare(F, n)
    ensures lines == RoundLines(L, F, n)
  {
    lines := [];
    var r := 0;
    while r < n
      invariant r <= n && lines == RoundLines(L, F, n)[..r]
    {
      var matches := FormatMatches(L[r], F[r]);
      lines := lines + [RoundLabel(r) + " " + Join(matches)];
      assert RoundLines(L, F, n)[..r + 1] == RoundLines(L, F, n)[..r] + [RoundLine(r, L[r], F[r])];
      r := r + 1;
    }
  }

  /** '\n'.join(lines) */
  function JoinLines(lines: seq<string>): string
  {
    if lines == [] then "" else JoinOn(lines, '\n')
  }

  /** solver_bt.format_schedule and solver_ilp.format_schedule: the round
      lines joined by newlines. */
  method FormatSchedule(L: Table, F: Table, n: nat) returns (text: string)
    requires IsSquare(L, n) && IsSquare(F, n)
    ensures text == JoinLines(RoundLines(L, F, n))
  {
    var lines := FormatRounds(L, F, n);
    text := JoinLines(lines);
  }

  // ----- reading -----

  /** The rows a line-by-line reader collects: step(line) is None for a
      line it skips, the parsed row for a line it keeps, or the exception
      the line raises, which ends the reading. */
  function ReadRows<T>(lines: seq<string>, step: string -> Option<Result<T>>): Result<seq<T>>
  {
    if lines == [] then Ok([])
    else
      var prev := ReadRows(lines[..|lines| - 1], step);
      var last := step(lines[|lines| - 1]);
      if prev.Err? || last.None? then prev
      else if last.value.Err? then Err(last.value.fault)
      else Ok(prev.value + [last.value.value])
  }

  /** Reading two files in a row: an exception in the first ends the
      reading; otherwise the rows of the second follow those of the first. */
  lemma {:induction false} ReadRowsAppend<T>(a: seq<string>, b: seq<string>, step: string -> Option<Result<T>>)
    ensures ReadRows(a, step).Err? ==> ReadRows(a + b, step) == ReadRows(a, step)
    ensures ReadRows(a, step).Ok? && ReadRows(b, step).Ok? ==>
              ReadRows(a + b, step) == Ok(ReadRows(a, step).value + ReadRows(b, step).value)
    decreases |b|
  {
    if b == [] {
      assert a + b == a;
      if ReadRows(a, step).Ok? {
        assert ReadRows(a, step).value + [] == ReadRows(a, step).value;
      }
    } else {
      var b' := b[..|b| - 1];
      ReadRowsAppend(a, b', step);
      assert (a + b)[..|a + b| - 1] == a + b';
      assert (a + b)[|a + b| - 1] == b[|b| - 1];
      var x := step(b[|b| - 1]);
      if ReadRows(a, step).Ok? && ReadRows(b, step).Ok? {
        assert ReadRows(b', step).Ok?;
        if x.Some? {
          var ra, rb' := ReadRows(a, step).value, ReadRows(b', step).value;
          assert ra + (rb' + [x.value.value]) == (ra + rb') + [x.value.value];
        }
      }
    }
  }

  /** Lines the reader skips yield no rows. */
  lemma {:induction false} ReadRowsSkips<T>(c: seq<string>, step: string -> Option<Result<T>>)
    requires forall k :: 0 <= k < |c| ==> step(c[k]).None?
    ensures ReadRows(c, step) == Ok([])
  {
    if c != [] {
      ReadRowsSkips(c[..|c| - 1], step);
    }
  }

  /** Lines that each read as a row yield exactly those rows. */
  lemma {:induction false} ReadRowsEach<T>(lines: seq<string>, step: string -> Option<Result<T>>, rows: seq<T>)
    requires |rows| == |lines| && forall k :: 0 <= k < |lines| ==> step(lines[k]) == Some(Ok(rows[k]))
    ensures ReadRows(lines, step) == Ok(rows)
  {
    if lines != [] {
      ReadRowsEach(lines[..|lines| - 1], step, rows[..|rows| - 1]);
      assert rows == rows[..|rows| - 1] + [rows[|rows| - 1]];
    }
  }

  /** Lines the reader skips around a block do not change what it reads. */
  lemma ReadRowsAround<T>(head: seq<string>, body: seq<string>, tail: seq<string>,
                          step: string -> Option<Result<T>>)
    requires forall k :: 0 <= k < |head| ==> step(head[k]).None?
    requires forall k :: 0 <= k < |tail| ==> step(tail[k]).None?
    requires ReadRows(body, step).Ok?
    ensures ReadRows(head + body + tail, step) == ReadRows(body, step)
  {
    ReadRowsSkipHead(head, body, step);
    ReadRowsSkipTail(head + body, tail, step);
  }

  lemma ReadRowsSkipHead<T>(head: seq<string>, body: seq<string>, step: string -> Option<Result<T>>)
    requires forall k :: 0 <= k < |head| ==> step(head[k]).None?
    requires ReadRows(body, step).Ok?
    ensures ReadRows(head + body, step) == ReadRows(body, step)
  {
    ReadRowsSkips(head, step);
    ReadRowsAppend(head, body, step);
    assert [] + ReadRows(body, step).value == ReadRows(body, step).value;
  }

  lemma ReadRowsSkipTail<T>(body: seq<string>, tail: seq<string>, step: string -> Option<Result<T>>)
    requires forall k :: 0 <= k < |tail| ==> step(tail[k]).None?
    requires ReadRows(body, step).Ok?
    ensures ReadRows(body + tail, step) == ReadRows(body, step)
  {
    ReadRowsSkips(tail, step);
    ReadRowsAppend(body, tail, step);
    assert ReadRows(body, step).value + [] == ReadRows(body, step).value;
  }

  /** A file of skipped lines, rows and skipped lines reads as the rows. */
  lemma ReadRowsFramed<T>(head: seq<string>, body: seq<string>, tail: seq<string>,
                          step: string -> Option<Result<T>>, rows: seq<T>)
    requires forall k :: 0 <= k < |head| ==> step(head[k]).None?
    requires forall k :: 0 <= k < |tail| ==> step(tail[k]).None?
    requires |rows| == |body| && forall k :: 0 <= k < |body| ==> step(body[k]) == Some(Ok(rows[k]))
    ensures ReadRows(head + body + tail, step) == Ok(rows)
  {
    ReadRowsEach(body, step, rows);
    ReadRowsAround(head, body, tail, step);
  }

  /** One more line read: skipped, appended, or the end of the reading. */
  lemma ReadRowsNext<T>(lines: seq<string>, k: nat, step: string -> Option<Result<T>>,
                        rows: seq<T>, row: Option<Result<T>>)
    requires k < |lines| && ReadRows(lines[..k], step) == Ok(rows) && step(lines[k]) == row
    ensures row.None? ==> ReadRows(lines[..k + 1], step) == Ok(rows)
    ensures row.Some? && row.value.Ok? ==> ReadRows(lines[..k + 1], step) == Ok(rows + [row.value.value])
    ensures row.Some? && row.value.Err? ==> ReadRows(lines, step) == Err(row.value.fault)
  {
    var next := lines[..k + 1];
    assert next[..k] == lines[..k] && next[k] == lines[k];
    if row.Some? && row.value.Err? {
      assert ReadRows(next, step) == Err(row.value.fault);
      ReadRowsErrSticks(lines, k + 1, step);
    }
  }

  /** Once a prefix of the lines raises, reading the whole file raises the same. */
  lemma {:induction false} ReadRowsErrSticks<T>(lines: seq<string>, j: nat, step: string -> Option<Result<T>>)
    requires j <= |lines| && ReadRows(lines[..j], step).Err?
    ensures ReadRows(lines, step) == ReadRows(lines[..j], step)
    decreases |lines| - j
  {
    if j == |lines| {
      assert lines[..j] == lines;
    } else {
      var next := lines[..j + 1];
      assert next[..j] == lines[..j];
      ReadRowsErrSticks(lines, j + 1, step);
    }
  }

  /** The reading loop, line by line. */
  method ReadLines<T>(lines: seq<string>, step: string -> Option<Result<T>>) returns (rows: Result<seq<T>>)
    ensures rows == ReadRows(lines, step)
  {
    var acc: seq<T> := [];
    var k := 0;
    while k < |lines|
      invariant k <= |lines|
      invariant ReadRows(lines[..k], step) == Ok(acc)
    {
      var row := step(lines[k]);
      ReadRowsNext(lines, k, step, acc, row);
      if row.Some? {
        if row.value.Err? {
          return Err(row.value.fault);
        }
        acc := acc + [row.value.value];
      }
      k := k + 1;
    }
    assert lines[..k] == lines;
    rows := Ok(acc);
  }

  /** [f(x) for x in xs], stopping at the first element that raises. */
  function MapResult<A, B>(xs: seq<A>, f: A -> Result<B>): (r: Result<seq<B>>)
    ensures r.Ok? ==> |r.value| == |xs|
  {
    if xs == [] then Ok([])
    else
      var prev := MapResult(xs[..|xs| - 1], f);
      var last := f(xs[|xs| - 1]);
      if prev.Err? then prev
      else if last.Err? then Err(last.fault)
      else Ok(prev.value + [last.value])
  }

  /** Elements that each map to a value give exactly those values. */
  lemma {:induction false} MapResultEach<A, B>(xs: seq<A>, f: A -> Result<B>, ys: seq<B>)
    requires |ys| == |xs| && forall k :: 0 <= k < |xs| ==> f(xs[k]) == Ok(ys[k])
    ensures MapResult(xs, f) == Ok(ys)
  {
    if xs != [] {
      MapResultEach(xs[..|xs| - 1], f, ys[..|ys| - 1]);
      assert ys == ys[..|ys| - 1] + [ys[|ys| - 1]];
    }
  }

  /** [parse_match(m) for m in parts[1:]] */
  function ParseMatches(ms: seq<string>): Result<seq<Match>>
  {
    MapResult(ms, ParseMatch)
  }

  /** The match strings of a written round parse back to the round's matches. */
  lemma ParseRoundMatches(lrow: seq<int>, frow: seq<int>)
    requires |lrow| == |frow| && forall i :: 0 <= i < |lrow| ==> lrow[i] >= 0
    ensures ParseMatches(RoundMatches(lrow, frow)) == Ok(RoundOf(lrow, frow))
  {
    var ms, rd := RoundMatches(lrow, frow), RoundOf(lrow, frow);
    forall k | 0 <= k < |ms| ensures ParseMatch(ms[k]) == Ok(rd[k]) {
      ParseFormatMatch(k, lrow[k], frow[k] == 1);
    }
    MapResultEach(ms, ParseMatch, rd);
  }

  /** parts[1:] of line.split(): the words after the round label. */
  function MatchWords(line: string): seq<string>
  {
    var parts := Words(line);
    if parts == [] then [] else parts[1..]
  }

  predicate StartsWith(s: string, p: string)
  {
    |p| <= |s| && s[..|p|] == p
  }

  /** verify_solution.py: every non-blank line is a round. */
  predicate AnyRoundLine(line: string)
  {
    line != []
  }

  /** verify_n34.py: skip blank and '#' lines, keep those whose first word
      starts with 第. */
  predicate LabelledRoundLine(line: string)
  {
    && line != [] && line[0] != '#'
    && var parts := Words(line); parts != [] && StartsWith(parts[0], "\U{7B2C}")
  }

  /** solver_n34_plus.read_existing_latin_square: skip blank and '#' lines,
      keep those that start with 第. */
  predicate LabelStartLine(line: string)
  {
    line != [] && line[0] != '#' && StartsWith(line, "\U{7B2C}")
  }

  /** verify_n34_plus.py as written: keep lines that start with "ç¬¬", the
      three UTF-8 bytes of 第 (E7 AC AC) read one character per byte. */
  predicate MojibakeRoundLine(line: string)
  {
    line != [] && line[0] != '#' && StartsWith(line, "\U{E7}\U{AC}\U{AC}")
  }

  /** One line of a round reader: strip it, let keep decide, parse the
      match words of a kept line. */
  function RoundStep(line: string, keep: string -> bool): Option<Result<seq<Match>>>
  {
    var s := Strip(line);
    if keep(s) then Some(ParseMatches(MatchWords(s))) else None
  }

  /** verify_solution.py's line loop. */
  function SolutionStep(line: string): Option<Result<seq<Match>>>
  {
    RoundStep(line, AnyRoundLine)
  }

  /** verify_n34.py's line loop. */
  function N34Step(line: string): Option<Result<seq<Match>>>
  {
    RoundStep(line, LabelledRoundLine)
  }

  /** verify_n34_plus.py's line loop as written. */
  function N34PlusStepAsWritten(line: string): Option<Result<seq<Match>>>
  {
    RoundStep(line, MojibakeRoundLine)
  }

  /** verify_n34_plus.py's line loop with the filter it evidently means:
      lines starting with 第. */
  function N34PlusStep(line: string): Option<Result<seq<Match>>>
  {
    RoundStep(line, LabelStartLine)
  }

  /** An unpadded line that every filter keeps except the as-written
      verify_n34_plus one. */
  predicate KeptRoundLine(line: string)
  {
    && Strip(line) == line
    && AnyRoundLine(line) && LabelledRoundLine(line) && LabelStartLine(line)
    && !MojibakeRoundLine(line)
  }

  /** How each filter treats a written round line: all keep it except the
      as-written verify_n34_plus filter. */
  lemma RoundLineFilters(r: int, lrow: seq<int>, frow: seq<int>)
    requires |lrow| == |frow| && |lrow| > 0
    ensures KeptRoundLine(RoundLine(r, lrow, frow))
  {
    RoundLineUnpadded(r, lrow, frow);
    RoundLineWords(r, lrow, frow);
    var line := RoundLine(r, lrow, frow);
    assert Words(line)[0] == RoundLabel(r);
    assert line[..1] == "\U{7B2C}";
    if |line| >= 3 {
      assert line[..3][0] == '\U{7B2C}';
    }
  }

  /** The words after the label are the round's match strings. */
  lemma RoundLineMatchWords(r: int, lrow: seq<int>, frow: seq<int>)
    requires |lrow| == |frow|
    ensures MatchWords(RoundLine(r, lrow, frow)) == RoundMatches(lrow, frow)
  {
    RoundLineWords(r, lrow, frow);
  }

  /** What each reader makes of a line holding the round rd. */
  predicate ReadsAsRound(line: string, rd: seq<Match>)
  {
    && SolutionStep(line) == Some(Ok(rd))
    && N34Step(line) == Some(Ok(rd))
    && N34PlusStep(line) == Some(Ok(rd))
    && N34PlusStepAsWritten(line) == None
  }

  lemma SkippedByRoundStep(line: string, keep: string -> bool)
    requires Strip(line) == line && !keep(line)
    ensures RoundStep(line, keep) == None
  {
  }

  lemma KeptByRoundStep(line: string, keep: string -> bool, ms: seq<string>, rd: seq<Match>)
    requires Strip(line) == line && keep(line) && MatchWords(line) == ms && ParseMatches(ms) == Ok(rd)
    ensures RoundStep(line, keep) == Some(Ok(rd))
  {
  }

  lemma RoundLineSolutionStep(r: int, lrow: seq<int>, frow: seq<int>, ms: seq<string>, rd: seq<Match>)
    requires |lrow| == |frow| && |lrow| > 0
    requires MatchWords(RoundLine(r, lrow, frow)) == ms && ParseMatches(ms) == Ok(rd)
    ensures SolutionStep(RoundLine(r, lrow, frow)) == Some(Ok(rd))
  {
    RoundLineFilters(r, lrow, frow);
    KeptByRoundStep(RoundLine(r, lrow, frow), AnyRoundLine, ms, rd);
  }

  lemma RoundLineN34Step(r: int, lrow: seq<int>, frow: seq<int>, ms: seq<string>, rd: seq<Match>)
    requires |lrow| == |frow| && |lrow| > 0
    requires MatchWords(RoundLine(r, lrow, frow)) == ms && ParseMatches(ms) == Ok(rd)
    ensures N34Step(RoundLine(r, lrow, frow)) == Some(Ok(rd))
  {
    RoundLineFilters(r, lrow, frow);
    KeptByRoundStep(RoundLine(r, lrow, frow), LabelledRoundLine, ms, rd);
  }

  lemma RoundLineN34PlusStep(r: int, lrow: seq<int>, frow: seq<int>, ms: seq<string>, rd: seq<Match>)
    requires |lrow| == |frow| && |lrow| > 0
    requires MatchWords(RoundLine(r, lrow, frow)) == ms && ParseMatches(ms) == Ok(rd)
    ensures N34PlusStep(RoundLine(r, lrow, frow)) == Some(Ok(rd))
  {
    RoundLineFilters(r, lrow, frow);
    KeptByRoundStep(RoundLine(r, lrow, frow), LabelStartLine, ms, rd);
  }

  /** The as-written verify_n34_plus reader skips every written round line. */
  lemma RoundLineMojibakeSkips(r: int, lrow: seq<int>, frow: seq<int>)
    requires |lrow| == |frow| && |lrow| > 0
    ensures N34PlusStepAsWritten(RoundLine(r, lrow, frow)) == None
  {
    RoundLineFilters(r, lrow, frow);
    SkippedByRoundStep(RoundLine(r, lrow, frow), MojibakeRoundLine);
  }

  /** Every reader that keeps a written round line reads it as the round. */
  lemma RoundLineReads(r: int, lrow: seq<int>, frow: seq<int>)
    requires |lrow| == |frow| && |lrow| > 0 && forall i :: 0 <= i < |lrow| ==> lrow[i] >= 0
    ensures ReadsAsRound(RoundLine(r, lrow, frow), RoundOf(lrow, frow))
  {
    var ms, rd := RoundMatches(lrow, frow), RoundOf(lrow, frow);
    ParseRoundMatches(lrow, frow);
    RoundLineMatchWords(r, lrow, frow);
    RoundLineSolutionStep(r, lrow, frow, ms, rd);
    RoundLineN34Step(r, lrow, frow, ms, rd);
    RoundLineN34PlusStep(r, lrow, frow, ms, rd);
    RoundLineMojibakeSkips(r, lrow, frow);
  }

  /** A line the n=34 writers emit around the rounds: blank or a '#' comment. */
  predicate CommentLine(line: string)
  {
    Strip(line) == [] || Strip(line)[0] == '#'
  }

  /** A solution file: comment lines, the round lines, more comment lines. */
  function SolutionFile(head: seq<string>, L: Table, F: Table, n: nat, tail: seq<string>): seq<string>
    requires IsSquare(L, n) && IsSquare(F, n)
  {
    head + RoundLines(L, F, n) + tail
  }

  /** Round trip: verify_n34.py (and verify_n34_plus.py with the intended
      filter) reads a written solution file back as the written rounds. */
  lemma SolutionFileRoundTrip(head: seq<string>, L: Table, F: Table, n: nat, tail: seq<string>)
    requires IsSquare(L, n) && IsSquare(F, n) && n > 0
    requires forall r, i :: 0 <= r < n && 0 <= i < n ==> L[r][i] >= 0
    requires forall k :: 0 <= k < |head| ==> CommentLine(head[k])
    requires forall k :: 0 <= k < |tail| ==> CommentLine(tail[k])
    ensures ReadRows(SolutionFile(head, L, F, n, tail), N34Step) == Ok(RoundsOf(L, F, n))
    ensures ReadRows(SolutionFile(head, L, F, n, tail), N34PlusStep) == Ok(RoundsOf(L, F, n))
  {
    var body, rows := RoundLines(L, F, n), RoundsOf(L, F, n);
    forall k | 0 <= k < n
      ensures N34Step(body[k]) == Some(Ok(rows[k])) && N34PlusStep(body[k]) == Some(Ok(rows[k]))
    {
      RoundLineReads(k, L[k], F[k]);
    }
    ReadRowsFramed(head, body, tail, N34Step, rows);
    ReadRowsFramed(head, body, tail, N34PlusStep, rows);
  }

  /** The as-written verify_n34_plus filter finds no round at all in a
      written solution file. */
  lemma MojibakeReadsNothing(head: seq<string>, L: Table, F: Table, n: nat, tail: seq<string>)
    requires IsSquare(L, n) && IsSquare(F, n) && n > 0
    requires forall k :: 0 <= k < |head| ==> CommentLine(head[k])
    requires forall k :: 0 <= k < |tail| ==> CommentLine(tail[k])
    ensures ReadRows(SolutionFile(head, L, F, n, tail), N34PlusStepAsWritten) == Ok([])
  {
    var body := RoundLines(L, F, n);
    forall k | 0 <= k < n ensures N34PlusStepAsWritten(body[k]).None? {
      RoundLineMojibakeSkips(k, L[k], F[k]);
    }
    ReadRowsSkips(body, N34PlusStepAsWritten);
    ReadRowsAround(head, body, tail, N34PlusStepAsWritten);
  }

  /** A space-joined list of tokens holds no newline. */
  lemma {:induction false} JoinNoNewline(ts: seq<string>)
    requires forall k :: 0 <= k < |ts| ==> IsToken(ts[k])
    ensures '\n' !in Join(ts)
  {
    if ts != [] {
      assert IsToken(ts[0]);
      forall p | 0 <= p < |ts[0]| ensures ts[0][p] != '\n' {
        assert !IsSpace(ts[0][p]);
      }
      if |ts| > 1 {
        JoinNoNewline(ts[1..]);
      }
    }
  }

  lemma RoundLineOneLine(r: int, lrow: seq<int>, frow: seq<int>)
    requires |lrow| == |frow|
    ensures '\n' !in RoundLine(r, lrow, frow)
  {
    var tag := RoundLabel(r);
    RoundMatchesAreTokens(lrow, frow);
    JoinNoNewline(RoundMatches(lrow, frow));
    forall p | 0 <= p < |tag| ensures tag[p] != '\n' {
      assert !IsSpace(tag[p]);
    }
  }

  /** Round trip: verify_solution.py's reading of a schedule text written by
      format_schedule gives back the written rounds. */
  lemma ScheduleTextRoundTrip(L: Table, F: Table, n: nat)
    requires IsSquare(L, n) && IsSquare(F, n) && n > 0
    requires forall r, i :: 0 <= r < n && 0 <= i < n ==> L[r][i] >= 0
    ensures ReadRows(SplitOn(JoinLines(RoundLines(L, F, n)), '\n'), SolutionStep) == Ok(RoundsOf(L, F, n))
  {
    var lines, rows := RoundLines(L, F, n), RoundsOf(L, F, n);
    forall r | 0 <= r < n ensures '\n' !in lines[r] && SolutionStep(lines[r]) == Some(Ok(rows[r])) {
      RoundLineOneLine(r, L[r], F[r]);
      RoundLineReads(r, L[r], F[r]);
    }
    SplitJoin(lines, '\n');
    ReadRowsEach(lines, SolutionStep, rows);
  }

  // ----- solver_n34_plus.read_existing_latin_square -----

  /** [0] * n */
  function Zeros(n: nat): (z: seq<int>)
    ensures |z| == n && forall i :: 0 <= i < n ==> z[i] == 0
  {
    seq(n, _ => 0)
  }

  /** perm = [0] * n; for a_idx, b_idx in row: perm[a_idx] = b_idx, with
      Python's indexing (a negative index counts from the end). */
  function PermFromMatches(row: seq<Match>, n: nat): (r: Result<seq<int>>)
    ensures r.Ok? ==> |r.value| == n
    ensures r.Err? ==> r.fault == IndexError
  {
    if row == [] then Ok(Zeros(n))
    else
      var prev := PermFromMatches(row[..|row| - 1], n);
      var x := row[|row| - 1];
      if prev.Err? then prev
      else
        var p := PyIndex(x.a, n);
        if p.None? then Err(IndexError) else Ok(prev.value[p.value := x.b])
  }

  /** One line of read_existing_latin_square: a kept line's matches, then
      its perm. */
  function LatinStep(line: string, n: nat): Option<Result<seq<int>>>
  {
    var s := Strip(line);
    if !LabelStartLine(s) then None
    else
      var row := ParseMatches(MatchWords(s));
      if row.Err? then Some(Err(row.fault)) else Some(PermFromMatches(row.value, n))
  }

  /** The perm loop of one line. */
  method FillPerm(row: seq<Match>, n: nat) returns (perm: Result<seq<int>>)
    ensures perm == PermFromMatches(row, n)
  {
    var p := Zeros(n);
    var k := 0;
    while k < |row|
      invariant k <= |row|
      invariant PermFromMatches(row[..k], n) == Ok(p)
    {
      assert row[..k + 1][..k] == row[..k];
      var idx := PyIndex(row[k].a, n);
      if idx.None? {
        assert PermFromMatches(row[..k + 1], n).Err?;
        PermErrSticks(row, n, k + 1);
        return Err(IndexError);
      }
      p := p[idx.value := row[k].b];
      k := k + 1;
    }
    assert row[..k] == row;
    perm := Ok(p);
  }

  /** Once a prefix of the matches raises, the whole row raises. */
  lemma {:induction false} PermErrSticks(row: seq<Match>, n: nat, k: nat)
    requires k <= |row| && PermFromMatches(row[..k], n).Err?
    ensures PermFromMatches(row, n).Err?
    decreases |row| - k
  {
    if k < |row| {
      assert row[..k + 1][..k] == row[..k];
      PermErrSticks(row, n, k + 1);
    } else {
      assert row[..k] == row;
    }
  }

  /** One line of read_existing_latin_square. */
  method ReadLatinLine(line: string, n: nat) returns (row: Option<Result<seq<int>>>)
    ensures row == LatinStep(line, n)
  {
    var s := Strip(line);
    if !LabelStartLine(s) {
      return None;
    }
    var matches := ParseMatches(MatchWords(s));
    if matches.Err? {
      return Some(Err(matches.fault));
    }
    var perm := FillPerm(matches.value, n);
    row := Some(perm);
  }

  /** read_existing_latin_square over the file's lines: the rows of the
      kept lines, or the exception the first bad line raises. */
  method ReadExistingLatinSquare(lines: seq<string>, n: nat) returns (L: Result<Table>)
    ensures L == ReadRows(lines, (line: string) => LatinStep(line, n))
  {
    var step := (line: string) => LatinStep(line, n);
    var rows: Table := [];
    var k := 0;
    while k < |lines|
      invariant k <= |lines|
      invariant ReadRows(lines[..k], step) == Ok(rows)
    {
      var row := ReadLatinLine(lines[k], n);
      ReadRowsNext(lines, k, step, rows, row);
      if row.Some? {
        if row.value.Err? {
          return Err(row.value.fault);
        }
        rows := rows + [row.value.value];
      }
      k := k + 1;
    }
    assert lines[..k] == lines;
    L := Ok(rows);
  }

  lemma {:induction false} PermFromRoundPrefix(lrow: seq<int>, frow: seq<int>, k: nat)
    requires |lrow| == |frow| && k <= |lrow|
    ensures PermFromMatches(RoundOf(lrow, frow)[..k], |lrow|) == Ok(lrow[..k] + Zeros(|lrow| - k))
  {
    var n := |lrow|;
    if k == 0 {
      assert lrow[..0] + Zeros(n) == Zeros(n);
    } else {
      PermFromRoundPrefix(lrow, frow, k - 1);
      assert RoundOf(lrow, frow)[..k][..k - 1] == RoundOf(lrow, frow)[..k - 1];
      var rd := RoundOf(lrow, frow)[..k];
      assert rd[k - 1] == Match(k - 1, lrow[k - 1], frow[k - 1] == 1);
      assert PyIndex(k - 1, n) == Some(k - 1);
      var prev := lrow[..k - 1] + Zeros(n - (k - 1));
      assert prev[k - 1 := lrow[k - 1]] == lrow[..k] + Zeros(n - k);
    }
  }

  /** The perm rebuilt from a written round is the round's pairing row,
      whichever side each match lists first. */
  lemma PermFromRound(lrow: seq<int>, frow: seq<int>)
    requires |lrow| == |frow|
    ensures PermFromMatches(RoundOf(lrow, frow), |lrow|) == Ok(lrow)
  {
    PermFromRoundPrefix(lrow, frow, |lrow|);
    assert RoundOf(lrow, frow)[..|lrow|] == RoundOf(lrow, frow);
    assert lrow[..|lrow|] + Zeros(0) == lrow;
  }

  lemma KeptByLatinStep(line: string, n: nat, ms: seq<string>, rd: seq<Match>, perm: seq<int>)
    requires Strip(line) == line && LabelStartLine(line) && MatchWords(line) == ms
    requires ParseMatches(ms) == Ok(rd) && PermFromMatches(rd, n) == Ok(perm)
    ensures LatinStep(line, n) == Some(Ok(perm))
  {
  }

  lemma RoundLineLatinStep(r: int, lrow: seq<int>, frow: seq<int>, ms: seq<string>, rd: seq<Match>,
                            n: nat, perm: seq<int>)
    requires |lrow| == |frow| && |lrow| > 0
    requires MatchWords(RoundLine(r, lrow, frow)) == ms && ParseMatches(ms) == Ok(rd)
    requires PermFromMatches(rd, n) == Ok(perm)
    ensures LatinStep(RoundLine(r, lrow, frow), n) == Some(Ok(perm))
  {
    RoundLineFilters(r, lrow, frow);
    KeptByLatinStep(RoundLine(r, lrow, frow), n, ms, rd, perm);
  }

  /** read_existing_latin_square reads a written round line back as the
      round's pairing row. */
  lemma RoundLineReadsPerm(r: int, lrow: seq<int>, frow: seq<int>)
    requires |lrow| == |frow| && |lrow| > 0 && forall i :: 0 <= i < |lrow| ==> lrow[i] >= 0
    ensures LatinStep(RoundLine(r, lrow, frow), |lrow|) == Some(Ok(lrow))
  {
    ParseRoundMatches(lrow, frow);
    RoundLineMatchWords(r, lrow, frow);
    PermFromRound(lrow, frow);
    RoundLineLatinStep(r, lrow, frow, RoundMatches(lrow, frow), RoundOf(lrow, frow), |lrow|, lrow);
  }

  /** Round trip: read_existing_latin_square on a file write_solution wrote
      returns the pairing table that was written. */
  lemma ReadExistingWritten(head: seq<string>, L: Table, F: Table, n: nat, tail: seq<string>)
    requires IsSquare(L, n) && IsSquare(F, n) && n > 0
    requires forall r, i :: 0 <= r < n && 0 <= i < n ==> L[r][i] >= 0
    requires forall k :: 0 <= k < |head| ==> CommentLine(head[k])
    requires forall k :: 0 <= k < |tail| ==> CommentLine(tail[k])
    ensures ReadRows(SolutionFile(head, L, F, n, tail), (line: string) => LatinStep(line, n)) == Ok(L)
  {
    var step := (line: string) => LatinStep(line, n);
    var body := RoundLines(L, F, n);
    forall k | 0 <= k < n ensures step(body[k]) == Some(Ok(L[k])) {
      RoundLineReadsPerm(k, L[k], F[k]);
    }
    ReadRowsFramed(head, body, tail, step, L);
  }
}
