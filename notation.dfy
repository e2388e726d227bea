/** The schedule notation: "A3-B7" means A3 moves first against B7, "B7-A3"
    means B7 moves first; a round line is "第<r>轮" followed by the round's
    matches separated by spaces. Also the pieces of Python's string handling
    the readers rely on: str(int), int(str), str.split(), str.split(sep),
    str.strip() and sep.join(...). */
module Notation {
  import opened Outcomes

  // ----- numbers -----

  function DigitChar(d: nat): (c: char)
    requires d < 10
    ensures '0' <= c <= '9' && (c as int) - ('0' as int) == d
  {
    ((d + '0' as int) as char)
  }

  predicate IsDigit(c: char)
  {
    '0' <= c <= '9'
  }

  /** str(k) for k >= 0: decimal, no leading zeros. */
  function NatToString(k: nat): (s: string)
    ensures s != [] && forall c :: c in s ==> IsDigit(c)
  {
    if k < 10 then [DigitChar(k)] else NatToString(k / 10) + [DigitChar(k % 10)]
  }

  /** str(k) for any int. */
  function IntToString(k: int): (s: string)
    ensures s != [] && IsDigit(s[|s| - 1])
    ensures forall c :: c in s ==> IsDigit(c) || c == '-'
  {
    if k < 0 then "-" + NatToString(-k) else NatToString(k)
  }

  /** The decimal value of the digits in s[..n], skipping grouping underscores. */
  function DigitsValue(s: string, n: nat): nat
    requires n <= |s|
    requires forall k :: 0 <= k < n ==> IsDigit(s[k]) || s[k] == '_'
  {
    if n == 0 then 0
    else
      var c := s[n - 1];
      assert IsDigit(c) || c == '_';
      if c == '_' then DigitsValue(s, n - 1)
      else DigitsValue(s, n - 1) * 10 + ((c as int) - ('0' as int))
  }

  /** The value of a prefix does not depend on what follows it. */
  lemma {:induction false} DigitsValuePrefix(s: string, t: string, n: nat)
    requires n <= |s| && n <= |t| && s[..n] == t[..n]
    requires forall k :: 0 <= k < n ==> IsDigit(s[k]) || s[k] == '_'
    ensures DigitsValue(s, n) == DigitsValue(t, n)
  {
    if n > 0 {
      assert s[n - 1] == s[..n][n - 1] == t[..n][n - 1] == t[n - 1];
      assert s[..n - 1] == s[..n][..n - 1];
      assert t[..n - 1] == t[..n][..n - 1];
      DigitsValuePrefix(s, t, n - 1);
    }
  }

  /** A digit string as int() reads one: ASCII digits, where a single
      underscore may stand between two digits. */
  predicate DigitGroups(d: string)
  {
    d != [] && IsDigit(d[0]) && IsDigit(d[|d| - 1])
    && (forall k :: 0 <= k < |d| ==> IsDigit(d[k]) || d[k] == '_')
    && (forall j, k :: 0 <= j < |d| && k == j + 1 < |d| && d[j] == '_' ==> d[k] != '_')
  }

  /** t without one leading sign character. */
  function Unsigned(t: string): (d: string)
    ensures forall c :: c in d ==> c in t
  {
    if t != [] && (t[0] == '+' || t[0] == '-') then t[1..] else t
  }

  /** int(s) for a decimal str: surrounding whitespace is ignored, one sign
      '+' or '-' may lead, and the digits may be grouped by single
      underscores; anything else raises ValueError. */
  function ParseInt(s: string): (r: Result<int>)
    ensures r.Ok? <==> DigitGroups(Unsigned(Strip(s)))
    ensures r.Ok? && '-' !in s ==> r.value >= 0
    ensures r.Err? ==> r.fault == ValueError
  {
    var t := Strip(s);
    var d := Unsigned(t);
    if DigitGroups(d) then
      var v: int := DigitsValue(d, |d|);
      Ok(if t[0] == '-' then -v else v)
    else Err(ValueError)
  }

  /** int() takes a leading sign. */
  lemma ParseIntSigned()
    ensures ParseInt("+3") == Ok(3)
    ensures ParseInt("-12") == Ok(-12)
  {
    StripUnpadded("+3");
    assert Unsigned("+3") == "3";
    assert DigitsValue("3", 1) == 3;
    StripUnpadded("-12");
    assert Unsigned("-12") == "12";
    assert DigitsValue("12", 2) == 12;
  }

  /** int() takes grouping underscores. */
  lemma ParseIntGrouped()
    ensures ParseInt("1_0") == Ok(10)
  {
    StripUnpadded("1_0");
    assert DigitsValue("1_0", 3) == 10;
  }

  /** int() ignores surrounding whitespace. */
  lemma ParseIntPadded()
    ensures ParseInt(" 7\n") == Ok(7)
  {
    assert IsSpace(' ') && IsSpace('\n');
    assert " 7\n"[1..] == "7\n" && "7\n"[..1] == "7";
    assert Strip(" 7\n") == "7";
    assert DigitsValue("7", 1) == 7;
  }

  /** int() refuses an empty number, a bare sign, and an underscore that
      does not stand between two digits. */
  lemma ParseIntRejects()
    ensures ParseInt("") == Err(ValueError)
    ensures ParseInt("+") == Err(ValueError)
    ensures ParseInt("1__0") == Err(ValueError)
    ensures ParseInt("_1") == Err(ValueError)
    ensures ParseInt("1_") == Err(ValueError)
  {
    assert Unsigned("+") == [];
    StripUnpadded("1__0");
    assert "1__0"[1] == '_' && "1__0"[2] == '_';
    StripUnpadded("_1");
    StripUnpadded("1_");
  }

  /** The digits of str(k) read back as k. */
  lemma {:induction false} DigitsNatToString(k: nat)
    ensures forall i :: 0 <= i < |NatToString(k)| ==> IsDigit(NatToString(k)[i])
    ensures DigitsValue(NatToString(k), |NatToString(k)|) == k
  {
    var s := NatToString(k);
    forall i | 0 <= i < |s| ensures IsDigit(s[i]) {
      assert s[i] in s;
    }
    if k >= 10 {
      var p := NatToString(k / 10);
      DigitsNatToString(k / 10);
      assert s == p + NatToString(k % 10) && |NatToString(k % 10)| == 1;
      assert s[..|p|] == p[..|p|];
      DigitsValuePrefix(s, p, |p|);
    }
  }

  /** int(str(k)) == k */
  lemma ParseNatToString(k: nat)
    ensures ParseInt(NatToString(k)) == Ok(k)
  {
    var s := NatToString(k);
    DigitsNatToString(k);
    StripUnpadded(s);
    assert DigitGroups(Unsigned(Strip(s)));
  }

  // ----- whitespace -----

  /** The characters Python's str.split() and str.strip() treat as whitespace. */
  predicate IsSpace(c: char)
  {
    c in {' ', '\t', '\n', '\r', '\U{0B}', '\U{0C}', '\U{1C}', '\U{1D}', '\U{1E}', '\U{1F}',
          '\U{85}', '\U{A0}', '\U{1680}', '\U{2028}', '\U{2029}', '\U{202F}', '\U{205F}', '\U{3000}'}
    || '\U{2000}' <= c <= '\U{200A}'
  }

  predicate NoSpace(s: string)
  {
    forall k :: 0 <= k < |s| ==> !IsSpace(s[k])
  }

  function DropLeading(s: string): (t: string)
    ensures forall c :: c in t ==> c in s
  {
    if s != [] && IsSpace(s[0]) then DropLeading(s[1..]) else s
  }

  function DropTrailing(s: string): (t: string)
    ensures forall c :: c in t ==> c in s
  {
    if s != [] && IsSpace(s[|s| - 1]) then DropTrailing(s[..|s| - 1]) else s
  }

  /** str.strip() */
  function Strip(s: string): (t: string)
    ensures forall c :: c in t ==> c in s
  {
    DropTrailing(DropLeading(s))
  }

  lemma StripUnpadded(s: string)
    requires s != [] && !IsSpace(s[0]) && !IsSpace(s[|s| - 1])
    ensures Strip(s) == s
  {
  }

  /** The longest prefix of s without whitespace. */
  function Word(s: string): (w: string)
    ensures |w| <= |s| && w == s[..|w|] && NoSpace(w)
    ensures s != [] && !IsSpace(s[0]) ==> w != []
  {
    if s == [] || IsSpace(s[0]) then [] else [s[0]] + Word(s[1..])
  }

  /** str.split() with no argument: the maximal runs of non-whitespace. */
  function Words(s: string): (ws: seq<string>)
    decreases |s|
  {
    if s == [] then []
    else if IsSpace(s[0]) then Words(s[1..])
    else var w := Word(s); [w] + Words(s[|w|..])
  }

  lemma {:induction false} WordOfToken(t: string, rest: string)
    requires NoSpace(t) && (rest == [] || IsSpace(rest[0]))
    ensures Word(t + rest) == t
  {
    if t != [] {
      assert (t + rest)[1..] == t[1..] + rest;
      WordOfToken(t[1..], rest);
    }
  }

  /** ' '.join(ts) */
  function Join(ts: seq<string>): string
  {
    if ts == [] then "" else if |ts| == 1 then ts[0] else ts[0] + " " + Join(ts[1..])
  }

  predicate IsToken(t: string)
  {
    t != [] && NoSpace(t)
  }

  lemma WordsToken(t: string, rest: string)
    requires IsToken(t)
    ensures Words(t + " " + rest) == [t] + Words(rest)
    ensures Words(t) == [t]
  {
    WordOfToken(t, " " + rest);
    assert t + " " + rest == t + (" " + rest);
    assert (t + " " + rest)[|t|..] == " " + rest;
    assert (" " + rest)[1..] == rest;
    WordOfToken(t, []);
    assert t + [] == t;
    assert t[|t|..] == [];
  }

  /** Splitting a space-joined list of tokens gives the tokens back. */
  lemma {:induction false} WordsJoin(ts: seq<string>)
    requires forall k :: 0 <= k < |ts| ==> IsToken(ts[k])
    ensures Words(Join(ts)) == ts
  {
    if |ts| == 1 {
      WordsToken(ts[0], "");
    } else if |ts| > 1 {
      WordsToken(ts[0], Join(ts[1..]));
      WordsJoin(ts[1..]);
    }
  }

  lemma JoinTokensUnpadded(ts: seq<string>)
    requires forall k :: 0 <= k < |ts| ==> IsToken(ts[k])
    ensures ts != [] ==>
              && IsToken(ts[0]) && IsToken(ts[|ts| - 1])
              && Join(ts) != [] && Join(ts)[0] == ts[0][0]
              && Join(ts)[|Join(ts)| - 1] == ts[|ts| - 1][|ts[|ts| - 1]| - 1]
  {
    if |ts| > 1 {
      JoinTokensUnpadded(ts[1..]);
    }
  }

  // ----- splitting on a separator -----

  /** s.split(sep) for a one-character separator: always at least one piece. */
  function SplitOn(s: string, sep: char): (parts: seq<string>)
    ensures |parts| >= 1 && (|parts| == 1 <==> sep !in s)
    ensures forall k :: 0 <= k < |parts| ==> sep !in parts[k]
  {
    if s == [] then [""]
    else if s[0] == sep then [""] + SplitOn(s[1..], sep)
    else var rest := SplitOn(s[1..], sep); [[s[0]] + rest[0]] + rest[1..]
  }

  /** sep.join(ps) */
  function JoinOn(ps: seq<string>, sep: char): string
    requires ps != []
  {
    if |ps| == 1 then ps[0] else ps[0] + [sep] + JoinOn(ps[1..], sep)
  }

  lemma {:induction false} SplitOnPiece(a: string, sep: char, rest: seq<string>, tail: string)
    requires sep !in a && |rest| >= 1 && SplitOn(tail, sep) == rest
    ensures SplitOn(a + [sep] + tail, sep) == [a] + rest
  {
    if a == [] {
      assert [] + [sep] + tail == [sep] + tail;
      assert ([sep] + tail)[1..] == tail;
    } else {
      assert (a + [sep] + tail)[1..] == a[1..] + [sep] + tail;
      SplitOnPiece(a[1..], sep, rest, tail);
      assert [a[0]] + a[1..] == a;
    }
  }

  lemma {:induction false} SplitOnNoSep(a: string, sep: char)
    requires sep !in a
    ensures SplitOn(a, sep) == [a]
  {
    if a != [] {
      SplitOnNoSep(a[1..], sep);
      assert [a[0]] + a[1..] == a;
    }
  }

  /** Splitting a joined list on its separator gives the pieces back. */
  lemma {:induction false} SplitJoin(ps: seq<string>, sep: char)
    requires ps != [] && forall k :: 0 <= k < |ps| ==> sep !in ps[k]
    ensures SplitOn(JoinOn(ps, sep), sep) == ps
  {
    if |ps| == 1 {
      SplitOnNoSep(ps[0], sep);
    } else {
      SplitJoin(ps[1..], sep);
      SplitOnPiece(ps[0], sep, ps[1..], JoinOn(ps[1..], sep));
    }
  }

  // ----- matches -----

  /** One parsed match: (a_idx, b_idx, a_goes_first). */
  datatype Match = Match(a: int, b: int, aFirst: bool)

  /** f"A{i+1}-B{j+1}" when A_i moves first, f"B{j+1}-A{i+1}" otherwise. */
  function FormatMatch(i: int, j: int, aFirst: bool): string
  {
    if aFirst then "A" + IntToString(i + 1) + "-" + "B" + IntToString(j + 1)
    else "B" + IntToString(j + 1) + "-" + "A" + IntToString(i + 1)
  }

  /** s[1:] */
  function Tail(s: string): (t: string)
    ensures forall c :: c in t ==> c in s
  {
    if s == [] then [] else s[1..]
  }

  /** parse_match(s): split on '-' and read the first two pieces. Fewer than
      two pieces raise IndexError. */
  function ParseMatch(s: string): (r: Result<Match>)
    ensures r == Err(IndexError) <==> '-' !in s
    ensures r.Ok? ==> r.value.a >= -1 && r.value.b >= -1
  {
    var parts := SplitOn(s, '-');
    if |parts| < 2 then Err(IndexError) else ReadMatch(parts[0], parts[1])
  }

  /** The two tokens of a match string. The left token decides the
      orientation: anything not starting with 'A' is read as a B token. A
      number that int() does not accept raises ValueError; the left number
      is read first. */
  function ReadMatch(left: string, right: string): (r: Result<Match>)
    ensures r.Err? <==> ParseInt(Tail(left)).Err? || ParseInt(Tail(right)).Err?
    ensures r.Err? ==> r.fault == ValueError
    ensures r.Ok? ==> r.value.aFirst == (left != [] && left[0] == 'A')
    ensures '-' !in left && '-' !in right && r.Ok? ==> r.value.a >= -1 && r.value.b >= -1
  {
    var leftNum, rightNum := ParseInt(Tail(left)), ParseInt(Tail(right));
    if leftNum.Err? then Err(leftNum.fault)
    else if rightNum.Err? then Err(rightNum.fault)
    else if left != [] && left[0] == 'A' then Ok(Match(leftNum.value - 1, rightNum.value - 1, true))
    else Ok(Match(rightNum.value - 1, leftNum.value - 1, false))
  }

  lemma FormattedMatchIsToken(i: int, j: int, aFirst: bool)
    ensures IsToken(FormatMatch(i, j, aFirst))
    ensures FormatMatch(i, j, aFirst)[0] in "AB"
    ensures IsDigit(FormatMatch(i, j, aFirst)[|FormatMatch(i, j, aFirst)| - 1])
  {
    var s := FormatMatch(i, j, aFirst);
    forall k | 0 <= k < |s| ensures !IsSpace(s[k]) {
      assert s[k] in s;
      assert s[k] in "AB-" || s[k] in IntToString(i + 1) || s[k] in IntToString(j + 1);
    }
  }

  /** parse_match inverts the match notation for every non-negative pair of
      player indexes, in both orientations. */
  lemma ParseFormatMatch(i: nat, j: nat, aFirst: bool)
    ensures ParseMatch(FormatMatch(i, j, aFirst)) == Ok(Match(i, j, aFirst))
  {
    var a, b := "A" + NatToString(i + 1), "B" + NatToString(j + 1);
    if aFirst {
      assert FormatMatch(i, j, aFirst) == a + "-" + b;
      ParseTokens(a, b, i, j, true);
    } else {
      assert FormatMatch(i, j, aFirst) == b + "-" + a;
      ParseTokens(b, a, i, j, false);
    }
  }

  /** "A<i+1>" and "B<j+1>", joined by '-' in either order. */
  lemma ParseTokens(left: string, right: string, i: nat, j: nat, aFirst: bool)
    requires left == (if aFirst then "A" + NatToString(i + 1) else "B" + NatToString(j + 1))
    requires right == (if aFirst then "B" + NatToString(j + 1) else "A" + NatToString(i + 1))
    ensures ParseMatch(left + "-" + right) == Ok(Match(i, j, aFirst))
  {
    MatchToken(left[0], if aFirst then i + 1 else j + 1);
    MatchToken(right[0], if aFirst then j + 1 else i + 1);
    assert left == [left[0]] + NatToString(if aFirst then i + 1 else j + 1);
    assert right == [right[0]] + NatToString(if aFirst then j + 1 else i + 1);
    ParseJoined(left, right, i, j, aFirst);
  }

  /** Two tokens joined by '-' read back as the match they name. */
  lemma ParseJoined(left: string, right: string, i: nat, j: nat, aFirst: bool)
    requires '-' !in left && '-' !in right
    requires left != [] && (left[0] == 'A' <==> aFirst)
    requires ParseInt(Tail(left)) == Ok(if aFirst then i + 1 else j + 1)
    requires ParseInt(Tail(right)) == Ok(if aFirst then j + 1 else i + 1)
    ensures ParseMatch(left + "-" + right) == Ok(Match(i, j, aFirst))
  {
    ParseSides(left, right);
    ParseParts(left + "-" + right, left, right, i, j, aFirst);
  }

  /** parse_match reads its numbers with int(), so a signed or grouped
      number is a valid index too. */
  lemma ParseMatchSigned()
    ensures ParseMatch("A+3" + "-" + "B4") == Ok(Match(2, 3, true))
  {
    ParseIntSigned();
    ParseNatToString(4);
    assert NatToString(4) == "4";
    assert Tail("A+3") == "+3" && Tail("B4") == "4";
    ParseJoined("A+3", "B4", 2, 3, true);
  }

  lemma ParseMatchGrouped()
    ensures ParseMatch("A1_0" + "-" + "B2") == Ok(Match(9, 1, true))
  {
    ParseIntGrouped();
    ParseNatToString(2);
    assert NatToString(2) == "2";
    assert Tail("A1_0") == "1_0" && Tail("B2") == "2";
    ParseJoined("A1_0", "B2", 9, 1, true);
  }

  /** Once s splits into its two tokens, parse_match reads the two numbers
      and takes the orientation from the left token's letter. */
  lemma ParseParts(s: string, left: string, right: string, i: nat, j: nat, aFirst: bool)
    requires SplitOn(s, '-') == [left, right]
    requires left != [] && (left[0] == 'A' <==> aFirst)
    requires ParseInt(Tail(left)) == Ok(if aFirst then i + 1 else j + 1)
    requires ParseInt(Tail(right)) == Ok(if aFirst then j + 1 else i + 1)
    ensures ParseMatch(s) == Ok(Match(i, j, aFirst))
  {
    var parts := SplitOn(s, '-');
    assert parts[0] == left && parts[1] == right;
    assert ParseMatch(s) == ReadMatch(left, right);
  }

  /** "A<k>" or "B<k>": no '-', and the number after the letter reads back as k. */
  lemma MatchToken(tag: char, k: nat)
    requires tag != '-' && !IsDigit(tag)
    ensures '-' !in [tag] + NatToString(k)
    ensures ParseInt(Tail([tag] + NatToString(k))) == Ok(k)
  {
    ParseNatToString(k);
    assert Tail([tag] + NatToString(k)) == NatToString(k);
  }

  /** A "left-right" match string splits into its two tokens. */
  lemma ParseSides(left: string, right: string)
    requires '-' !in left && '-' !in right
    ensures SplitOn(left + "-" + right, '-') == [left, right]
  {
    SplitOnNoSep(right, '-');
    SplitOnPiece(left, '-', [right], right);
  }

  // ----- round lines -----

  /** "第{r+1}轮" */
  function RoundLabel(r: int): (s: string)
    ensures IsToken(s) && s[0] == '\U{7B2C}'
  {
    var s := "\U{7B2C}" + IntToString(r + 1) + "\U{8F6E}";
    assert forall k :: 0 <= k < |s| ==> s[k] in s;
    assert forall k :: 0 <= k < |s| ==> s[k] in "\U{7B2C}\U{8F6E}" || s[k] in IntToString(r + 1);
    s
  }

  /** f"第{r+1}轮 {' '.join(matches)}" for round r of pairing row lrow and colour row frow. */
  function RoundLine(r: int, lrow: seq<int>, frow: seq<int>): string
    requires |lrow| == |frow|
  {
    RoundLabel(r) + " " + Join(RoundMatches(lrow, frow))
  }

  /** The round's match strings, in player order A_1..A_n. */
  function RoundMatches(lrow: seq<int>, frow: seq<int>): (ms: seq<string>)
    requires |lrow| == |frow|
    ensures |ms| == |lrow|
  {
    seq(|lrow|, i requires 0 <= i < |lrow| => FormatMatch(i, lrow[i], frow[i] == 1))
  }

  /** The matches a reader should recover from round r. */
  function RoundOf(lrow: seq<int>, frow: seq<int>): (rd: seq<Match>)
    requires |lrow| == |frow|
    ensures |rd| == |lrow|
  {
    seq(|lrow|, i requires 0 <= i < |lrow| => Match(i, lrow[i], frow[i] == 1))
  }

  lemma RoundMatchesAreTokens(lrow: seq<int>, frow: seq<int>)
    requires |lrow| == |frow|
    ensures forall k :: 0 <= k < |lrow| ==> IsToken(RoundMatches(lrow, frow)[k])
  {
    forall k | 0 <= k < |lrow| ensures IsToken(RoundMatches(lrow, frow)[k]) {
      FormattedMatchIsToken(k, lrow[k], frow[k] == 1);
    }
  }

  /** Splitting a round line on whitespace gives its label, then its match strings. */
  lemma RoundLineWords(r: int, lrow: seq<int>, frow: seq<int>)
    requires |lrow| == |frow|
    ensures Words(RoundLine(r, lrow, frow)) == [RoundLabel(r)] + RoundMatches(lrow, frow)
  {
    var ms := RoundMatches(lrow, frow);
    RoundMatchesAreTokens(lrow, frow);
    assert IsToken(RoundLabel(r));
    WordsToken(RoundLabel(r), Join(ms));
    WordsJoin(ms);
  }

  /** A round line with at least one match has no surrounding whitespace,
      so strip() keeps it whole. */
  lemma RoundLineUnpadded(r: int, lrow: seq<int>, frow: seq<int>)
    requires |lrow| == |frow| && |lrow| > 0
    ensures Strip(RoundLine(r, lrow, frow)) == RoundLine(r, lrow, frow)
    ensures RoundLine(r, lrow, frow)[0] == '\U{7B2C}'
  {
    var s := RoundLine(r, lrow, frow);
    var ms := RoundMatches(lrow, frow);
    RoundMatchesAreTokens(lrow, frow);
    JoinTokensUnpadded(ms);
    var j := Join(ms);
    assert s == (RoundLabel(r) + " ") + j;
    assert s[|s| - 1] == j[|j| - 1];
    StripUnpadded(s);
  }
}
