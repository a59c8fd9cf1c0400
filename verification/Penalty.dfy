/** The four mask penalty rules: a declarative score, the loops that compute it, its symmetries. */
module Penalty {
  import opened Arithmetic
  import opened Sums

  type Grid = seq<seq<bool>>

  ghost predicate IsSquare(m: Grid) {
    forall r :: 0 <= r < |m| ==> |m[r]| == |m|
  }

  predicate Dark(m: Grid, r: int, c: int) {
    0 <= r < |m| && 0 <= c < |m[r]| && m[r][c]
  }

  function RowLine(m: Grid, i: int): (line: seq<bool>)
    ensures |line| == |m|
  {
    seq(|m|, j => Dark(m, i, j))
  }

  function ColumnLine(m: Grid, i: int): (line: seq<bool>)
    ensures |line| == |m|
  {
    seq(|m|, j => Dark(m, j, i))
  }

  // ----- rule 1: maximal runs -----

  /** Positions a to b - 1 have one colour and cannot be extended. */
  ghost predicate MaximalRun(line: seq<bool>, a: int, b: int) {
    && 0 <= a < b <= |line|
    && (forall k :: a <= k < b ==> line[k] == line[a])
    && (a > 0 ==> line[a - 1] != line[a])
    && (b < |line| ==> line[b] != line[a])
  }

  function RunValue(length: int): nat {
    if length >= 5 then 3 + (length - 5) else 0
  }

  ghost function RunAt(line: seq<bool>, a: int, b: int): nat {
    if MaximalRun(line, a, b) then RunValue(b - a) else 0
  }

  ghost function RunsFrom(line: seq<bool>, a: int): nat {
    Sum(b => RunAt(line, a, b), |line| + 1)
  }

  ghost function RunStarts(line: seq<bool>): int -> nat {
    a => RunsFrom(line, a)
  }

  /** The values of all maximal runs of a line. */
  ghost function LineRuns(line: seq<bool>): nat {
    Sum(RunStarts(line), |line| + 1)
  }

  ghost function RunScores(m: Grid): int -> nat {
    i => LineRuns(RowLine(m, i)) + LineRuns(ColumnLine(m, i))
  }

  // ----- rule 2: blocks of one colour -----

  predicate Block(m: Grid, r: int, c: int) {
    Dark(m, r, c) == Dark(m, r, c + 1) == Dark(m, r + 1, c) == Dark(m, r + 1, c + 1)
  }

  function BlocksInRow(m: Grid, r: int): int -> nat {
    c => if Block(m, r, c) then 1 else 0
  }

  function BlockRows(m: Grid): int -> nat {
    r => Sum(BlocksInRow(m, r), if |m| > 0 then |m| - 1 else 0)
  }

  // ----- rule 3: finder-like patterns -----

  const FORWARD: seq<bool> := [true, false, true, true, true, false, true, false, false, false, false]
  const BACKWARD: seq<bool> := [false, false, false, false, true, false, true, true, true, false, true]

  function Windows(n: nat): nat {
    if n >= 11 then n - 10 else 0
  }

  predicate HasPattern(line: seq<bool>, j: int, want: seq<bool>) {
    0 <= j && j + |want| <= |line| && line[j..j + |want|] == want
  }

  function PatternsAt(line: seq<bool>): int -> nat {
    j => (if HasPattern(line, j, FORWARD) then 1 else 0) + (if HasPattern(line, j, BACKWARD) then 1 else 0)
  }

  function LinePatterns(line: seq<bool>): nat {
    Sum(PatternsAt(line), Windows(|line|))
  }

  function PatternCounts(m: Grid): int -> nat {
    i => LinePatterns(RowLine(m, i)) + LinePatterns(ColumnLine(m, i))
  }

  // ----- rule 4: the share of dark modules -----

  function DarkInRow(m: Grid, r: int): int -> nat {
    c => if Dark(m, r, c) then 1 else 0
  }

  function DarkRows(m: Grid): int -> nat {
    r => Sum(DarkInRow(m, r), |m|)
  }

  /** Whole steps of five per cent by which the dark share of the area differs from one half. */
  function Balance(dark: nat, area: nat): nat {
    if area == 0 then 0 else Quotient(Abs(100 * dark - 50 * area), 5 * area)
  }

  function Quotient(x: nat, d: nat): (q: nat)
    requires d > 0
    ensures q * d <= x < q * d + d
  {
    var q := x / d;
    assert x == q * d + x % d;
    q
  }

  function Area(n: nat): nat {
    n * n
  }

  /** The score of the standard, as sums over runs, blocks, windows and modules. */
  ghost function PenaltyScore(m: Grid): nat
    requires |m| > 0
  {
    var n := |m|;
    Sum(RunScores(m), n) + 3 * Sum(BlockRows(m), n - 1) + 40 * Sum(PatternCounts(m), n)
      + 10 * Balance(Sum(DarkRows(m), n), Area(n))
  }

  // ----- scores as numbers -----

  /** Ten for each whole five per cent of deviation from one half. */
  lemma BalanceSteps(dark: nat, area: nat)
    requires area > 0
    ensures var k := Balance(dark, area);
      k * (5 * area) <= Abs(100 * dark - 50 * area) < k * (5 * area) + 5 * area
  {
  }

  /** A window counts for each of the two patterns that it shows. */
  lemma WindowPatterns(line: seq<bool>, j: nat)
    requires j + 11 <= |line|
    ensures PatternsAt(line)(j)
         == (if line[j..j + 11] == [true, false, true, true, true, false, true, false, false, false, false] then 1 else 0)
          + (if line[j..j + 11] == [false, false, false, false, true, false, true, true, true, false, true] then 1 else 0)
  {
  }

  lemma {:induction false} SumConstant(f: int -> nat, k: nat, n: nat)
    requires forall i :: 0 <= i < n ==> f(i) == k
    ensures Sum(f, n) == n * k
  {
    if n > 0 {
      SumConstant(f, k, n - 1);
      ProductSum(n - 1, 1, k);
    }
  }

  lemma OneColourWindow(line: seq<bool>, dark: bool, j: nat)
    requires j + 11 <= |line| && forall i :: 0 <= i < |line| ==> line[i] == dark
    ensures PatternsAt(line)(j) == 0
  {
    var w := line[j..j + 11];
    assert forall i :: 0 <= i < 11 ==> w[i] == line[j + i];
    assert FORWARD[0] && !FORWARD[1] && BACKWARD[4] && !BACKWARD[3];
    WindowPatterns(line, j);
    assert w[0] == w[1] == dark && w[3] == w[4] == dark;
  }

  /** A line of one colour is one run, which scores two less than its length from five modules on. */
  lemma OneColourLine(line: seq<bool>, dark: bool)
    requires |line| > 0 && forall i :: 0 <= i < |line| ==> line[i] == dark
    ensures LineRuns(line) == if |line| >= 5 then |line| - 2 else 0
    ensures LinePatterns(line) == 0
  {
    RunComplete(line, 0, |line|);
    NoStarts(line);
    LastStart(line);
    hide LineRuns, RunStarts;
    forall j | 0 <= j < Windows(|line|)
      ensures PatternsAt(line)(j) == 0
    {
      OneColourWindow(line, dark, j);
    }
    SumZero(PatternsAt(line), Windows(|line|));
  }

  ghost predicate OneColour(m: Grid, dark: bool) {
    IsSquare(m) && forall r, c :: 0 <= r < |m| && 0 <= c < |m| ==> m[r][c] == dark
  }

  /** A matrix of one colour, dark or light: every line one run, every two by two block, no pattern, and ten
      steps of imbalance. */
  lemma OneColourScore(m: Grid, dark: bool)
    requires |m| >= 5 && OneColour(m, dark)
    ensures PenaltyScore(m) == |m| * (2 * (|m| - 2)) + 3 * ((|m| - 1) * (|m| - 1)) + 100
  {
    hide PenaltyScore, LineRuns, LinePatterns, Block, Balance;
    var n := |m|;
    OneColourRuns(m, dark);
    OneColourBlocks(m, dark);
    OneColourPatterns(m, dark);
    OneColourBalance(m, dark);
    ScoreParts(m);
  }

  lemma ScoreParts(m: Grid)
    requires |m| > 0
    ensures PenaltyScore(m) == Sum(RunScores(m), |m|) + 3 * Sum(BlockRows(m), |m| - 1)
      + 40 * Sum(PatternCounts(m), |m|) + 10 * Balance(Sum(DarkRows(m), |m|), Area(|m|))
  {
  }

  lemma OneColourRuns(m: Grid, dark: bool)
    requires |m| >= 5 && OneColour(m, dark)
    ensures Sum(RunScores(m), |m|) == |m| * (2 * (|m| - 2))
  {
    hide LineRuns, LinePatterns;
    forall i | 0 <= i < |m|
      ensures RunScores(m)(i) == 2 * (|m| - 2)
    {
      OneColourLine(RowLine(m, i), dark);
      OneColourLine(ColumnLine(m, i), dark);
    }
    SumConstant(RunScores(m), 2 * (|m| - 2), |m|);
  }

  lemma OneColourPatterns(m: Grid, dark: bool)
    requires |m| >= 5 && OneColour(m, dark)
    ensures Sum(PatternCounts(m), |m|) == 0
  {
    hide LineRuns, LinePatterns;
    forall i | 0 <= i < |m|
      ensures PatternCounts(m)(i) == 0
    {
      OneColourLine(RowLine(m, i), dark);
      OneColourLine(ColumnLine(m, i), dark);
    }
    SumZero(PatternCounts(m), |m|);
  }

  lemma OneColourBlocks(m: Grid, dark: bool)
    requires |m| >= 5 && OneColour(m, dark)
    ensures Sum(BlockRows(m), |m| - 1) == (|m| - 1) * (|m| - 1)
  {
    forall r | 0 <= r < |m| - 1
      ensures BlockRows(m)(r) == |m| - 1
    {
      SumConstant(BlocksInRow(m, r), 1, |m| - 1);
    }
    SumConstant(BlockRows(m), |m| - 1, |m| - 1);
  }

  lemma OneColourBalance(m: Grid, dark: bool)
    requires |m| >= 5 && OneColour(m, dark)
    ensures Balance(Sum(DarkRows(m), |m|), Area(|m|)) == 10
  {
    var n := |m|;
    var each := if dark then n else 0;
    forall r | 0 <= r < n
      ensures DarkRows(m)(r) == each
    {
      SumConstant(DarkInRow(m, r), if dark then 1 else 0, n);
    }
    SumConstant(DarkRows(m), each, n);
    HalfOff(n * each, Area(n));
  }

  lemma HalfOff(dark: nat, area: nat)
    requires area > 0 && (dark == area || dark == 0)
    ensures Balance(dark, area) == 10
  {
    BalanceSteps(dark, area);
    hide Balance;
    TenSteps(Balance(dark, area), 5 * area);
  }

  lemma TenSteps(k: nat, d: nat)
    requires d > 0 && k * d <= 10 * d < k * d + d
    ensures k == 10
  {
    if k < 10 {
      MultiplesApart(k, 10, d);
    } else if k > 10 {
      MultiplesApart(10, k, d);
    }
  }

  /** Eleven rows that each show the first finder-like pattern: eleven patterns at forty, eleven columns of
      one colour at nine, fifty blocks at three, and a share of dark modules within five per cent. */
  lemma PatternRowsScore(m: Grid)
    requires |m| == 11
    requires forall r :: 0 <= r < 11 ==>
      m[r] == [true, false, true, true, true, false, true, false, false, false, false]
    ensures PenaltyScore(m) == 11 * 40 + 11 * 9 + 50 * 3 == 689
  {
    hide PenaltyScore, RunScores, PatternCounts, DarkRows, BlockRows, Balance;
    forall i | 0 <= i < 11
      ensures RunScores(m)(i) == 9 && PatternCounts(m)(i) == 1
      ensures DarkRows(m)(i) == 5 && (i < 10 ==> BlockRows(m)(i) == 5)
    {
      PatternRowLines(m, i);
      PatternRowDark(m, i);
      if i < 10 {
        PatternRowBlocks(m, i);
      }
    }
    SumConstant(RunScores(m), 9, 11);
    SumConstant(PatternCounts(m), 1, 11);
    SumConstant(DarkRows(m), 5, 11);
    SumConstant(BlockRows(m), 5, 10);
    WithinFive();
    ScoreParts(m);
  }

  lemma PatternRowLines(m: Grid, i: nat)
    requires |m| == 11 && i < 11
    requires forall r :: 0 <= r < 11 ==>
      m[r] == [true, false, true, true, true, false, true, false, false, false, false]
    ensures RunScores(m)(i) == 9 && PatternCounts(m)(i) == 1
  {
    hide LineRuns, LinePatterns;
    var row := [true, false, true, true, true, false, true, false, false, false, false];
    assert RowLine(m, i) == row;
    PatternRowRuns(row);
    PatternRowWindow(row);
    OneColourLine(ColumnLine(m, i), row[i]);
  }

  lemma WithinFive()
    ensures Balance(55, Area(11)) == 0
  {
  }

  lemma NoLongRun(row: seq<bool>, a: nat, b: nat)
    requires row == [true, false, true, true, true, false, true, false, false, false, false]
    ensures MaximalRun(row, a, b) ==> b - a < 5
  {
    var x := if a == 0 then 1 else if a == 1 then 2 else if a < 5 then 5 else a + 1;
    assert a <= 6 ==> a < x < a + 5 && row[x] != row[a];
  }

  lemma PatternRowRuns(row: seq<bool>)
    requires row == [true, false, true, true, true, false, true, false, false, false, false]
    ensures LineRuns(row) == 0
  {
    forall a | 0 <= a < 12
      ensures RunStarts(row)(a) == 0
    {
      forall b | 0 <= b < 12
        ensures RunAt(row, a, b) == 0
      {
        NoLongRun(row, a, b);
      }
      hide RunAt;
      SumZero(b => RunAt(row, a, b), 12);
    }
    hide RunStarts;
    SumZero(RunStarts(row), 12);
  }

  lemma PatternRowWindow(row: seq<bool>)
    requires row == [true, false, true, true, true, false, true, false, false, false, false]
    ensures LinePatterns(row) == 1
  {
    WindowPatterns(row, 0);
    assert row[0..11] == row;
    hide PatternsAt;
    assert Windows(|row|) == 1;
    assert Sum(PatternsAt(row), 1) == Sum(PatternsAt(row), 0) + PatternsAt(row)(0);
  }

  lemma PatternRowDark(m: Grid, r: int)
    requires |m| == 11 && 0 <= r < 11
    requires m[r] == [true, false, true, true, true, false, true, false, false, false, false]
    ensures DarkRows(m)(r) == 5
  {
    var d := DarkInRow(m, r);
    assert Sum(d, 3) == Sum(d, 2) + 1 && Sum(d, 2) == Sum(d, 1) && Sum(d, 1) == Sum(d, 0) + 1;
    assert Sum(d, 6) == Sum(d, 5) && Sum(d, 5) == Sum(d, 4) + 1 && Sum(d, 4) == Sum(d, 3) + 1;
    assert Sum(d, 9) == Sum(d, 8) && Sum(d, 8) == Sum(d, 7) && Sum(d, 7) == Sum(d, 6) + 1;
    assert Sum(d, 11) == Sum(d, 10) && Sum(d, 10) == Sum(d, 9);
  }

  lemma PatternRowBlocks(m: Grid, r: int)
    requires |m| == 11 && 0 <= r < 10
    requires m[r] == m[r + 1] == [true, false, true, true, true, false, true, false, false, false, false]
    ensures BlockRows(m)(r) == 5
  {
    var b := BlocksInRow(m, r);
    assert Sum(b, 3) == Sum(b, 2) + 1 && Sum(b, 2) == Sum(b, 1) && Sum(b, 1) == Sum(b, 0);
    assert Sum(b, 6) == Sum(b, 5) && Sum(b, 5) == Sum(b, 4) && Sum(b, 4) == Sum(b, 3) + 1;
    assert Sum(b, 9) == Sum(b, 8) + 1 && Sum(b, 8) == Sum(b, 7) + 1 && Sum(b, 7) == Sum(b, 6);
    assert Sum(b, 10) == Sum(b, 9) + 1;
  }

  // ----- the run-counting loop -----

  lemma RunsFromRun(line: seq<bool>, a: nat, j: nat)
    requires MaximalRun(line, a, j)
    ensures RunsFrom(line, a) == RunValue(j - a)
  {
    var f := b => RunAt(line, a, b);
    var n := |line| + 1;
    forall b | 0 <= b < n && b != j
      ensures f(b) == 0
    {
    }
    SingleTerm(f, j, n);
    SumSame(f, b => RunAt(line, a, b), n);
  }

  lemma {:induction false} SingleTerm(f: int -> nat, k: nat, n: nat)
    requires forall b :: 0 <= b < n && b != k ==> f(b) == 0
    ensures Sum(f, n) == if k < n then f(k) else 0
  {
    if n > 0 {
      SingleTerm(f, k, n - 1);
    }
  }

  lemma RunsFromInside(line: seq<bool>, a: nat)
    requires a == |line| || (0 < a < |line| && line[a] == line[a - 1])
    ensures RunsFrom(line, a) == 0
  {
    SumZero(b => RunAt(line, a, b), |line| + 1);
  }

  /** Past the end of a maximal run, its value has been added and nothing else. */
  lemma {:induction false} RunEnds(line: seq<bool>, a: nat, j: nat, k: nat)
    requires MaximalRun(line, a, j) && a < k <= j
    ensures Sum(RunStarts(line), k) == Sum(RunStarts(line), a) + RunValue(j - a)
  {
    if k == a + 1 {
      RunsFromRun(line, a, j);
    } else {
      RunEnds(line, a, j, k - 1);
      RunsFromInside(line, k - 1);
    }
  }

  method CountRuns(line: seq<bool>) returns (score: nat)
    requires |line| > 0
    ensures score == LineRuns(line)
  {
    hide LineRuns, RunStarts;
    score := 0;
    var run := 1;
    NoStarts(line);
    for j := 1 to |line|
      invariant 1 <= run <= j
      invariant forall k :: j - run <= k < j ==> line[k] == line[j - run]
      invariant j - run > 0 ==> line[j - run - 1] != line[j - run]
      invariant score == Sum(RunStarts(line), j - run)
    {
      if line[j] == line[j - 1] {
        run := run + 1;
      } else {
        RunComplete(line, j - run, j);
        if run >= 5 {
          score := score + 3 + (run - 5);
        }
        run := 1;
      }
    }
    RunComplete(line, |line| - run, |line|);
    LastStart(line);
    if run >= 5 {
      score := score + 3 + (run - 5);
    }
  }

  lemma NoStarts(line: seq<bool>)
    ensures Sum(RunStarts(line), 0) == 0
  {
  }

  lemma RunComplete(line: seq<bool>, a: nat, j: nat)
    requires a < j <= |line| && forall k :: a <= k < j ==> line[k] == line[a]
    requires a > 0 ==> line[a - 1] != line[a]
    requires j < |line| ==> line[j] != line[a]
    ensures Sum(RunStarts(line), j) == Sum(RunStarts(line), a) + RunValue(j - a)
  {
    hide RunStarts;
    RunEnds(line, a, j, j);
  }

  lemma LastStart(line: seq<bool>)
    ensures LineRuns(line) == Sum(RunStarts(line), |line|)
  {
    RunsFromInside(line, |line|);
  }

  method RunPenalty(m: Grid) returns (score: nat)
    requires IsSquare(m)
    ensures score == Sum(RunScores(m), |m|)
  {
    hide LineRuns;
    score := 0;
    for i := 0 to |m|
      invariant score == Sum(RunScores(m), i)
    {
      var row := CountRuns(RowLine(m, i));
      var column := CountRuns(ColumnLine(m, i));
      score := score + row + column;
    }
  }

  // ----- the other loops -----

  method BlockPenalty(m: Grid) returns (score: nat)
    requires IsSquare(m) && |m| > 0
    ensures score == 3 * Sum(BlockRows(m), |m| - 1)
  {
    score := 0;
    for row := 0 to |m| - 1
      invariant score == 3 * Sum(BlockRows(m), row)
    {
      for col := 0 to |m| - 1
        invariant score == 3 * Sum(BlockRows(m), row) + 3 * Sum(BlocksInRow(m, row), col)
      {
        var value := m[row][col];
        if m[row][col + 1] == value && m[row + 1][col] == value && m[row + 1][col + 1] == value {
          score := score + 3;
        }
      }
    }
  }

  method Matches(line: seq<bool>, start: nat, want: seq<bool>) returns (b: bool)
    requires start + |want| <= |line|
    ensures b <==> HasPattern(line, start, want)
  {
    for i := 0 to |want|
      invariant line[start..start + i] == want[..i]
    {
      if line[start + i] != want[i] {
        assert line[start..start + |want|][i] != want[i];
        return false;
      }
      assert line[start..start + (i + 1)] == line[start..start + i] + [line[start + i]];
      assert want[..i + 1] == want[..i] + [want[i]];
    }
    return true;
  }

  method CountPatterns(line: seq<bool>) returns (count: nat)
    ensures count == LinePatterns(line)
  {
    hide HasPattern;
    count := 0;
    var j := 0;
    while j + 11 <= |line|
      invariant 0 <= j <= Windows(|line|)
      invariant count == Sum(PatternsAt(line), j)
    {
      var forward := Matches(line, j, FORWARD);
      var backward := Matches(line, j, BACKWARD);
      if forward {
        count := count + 1;
      }
      if backward {
        count := count + 1;
      }
      j := j + 1;
    }
  }

  method PatternPenalty(m: Grid) returns (score: nat)
    requires IsSquare(m)
    ensures score == 40 * Sum(PatternCounts(m), |m|)
  {
    hide LinePatterns;
    score := 0;
    for i := 0 to |m|
      invariant score == 40 * Sum(PatternCounts(m), i)
    {
      var row := CountPatterns(RowLine(m, i));
      var column := CountPatterns(ColumnLine(m, i));
      score := score + 40 * row + 40 * column;
    }
  }

  method BalancePenalty(m: Grid) returns (score: nat)
    requires IsSquare(m) && |m| > 0
    ensures score == 10 * Balance(Sum(DarkRows(m), |m|), Area(|m|))
  {
    var dark := 0;
    for row := 0 to |m|
      invariant dark == Sum(DarkRows(m), row)
    {
      for col := 0 to |m|
        invariant dark == Sum(DarkRows(m), row) + Sum(DarkInRow(m, row), col)
      {
        if m[row][col] {
          dark := dark + 1;
        }
      }
    }
    score := 10 * Balance(dark, Area(|m|));
  }

  method MaskPenalty(m: Grid) returns (score: nat)
    requires IsSquare(m) && |m| > 0
    ensures score == PenaltyScore(m)
  {
    hide RunScores, BlockRows, PatternCounts, DarkRows;
    var runs := RunPenalty(m);
    var blocks := BlockPenalty(m);
    var patterns := PatternPenalty(m);
    var balance := BalancePenalty(m);
    score := runs + blocks + patterns + balance;
  }

  // ----- symmetries -----

  function Transpose(m: Grid): Grid {
    seq(|m|, r => seq(|m|, c => Dark(m, c, r)))
  }

  /** Turned by 180 degrees. */
  function Rotate(m: Grid): Grid {
    seq(|m|, r => seq(|m|, c => Dark(m, |m| - 1 - r, |m| - 1 - c)))
  }

  function Reverse(line: seq<bool>): seq<bool> {
    seq(|line|, j requires 0 <= j < |line| => line[|line| - 1 - j])
  }

  lemma TransposeLines(m: Grid, i: nat)
    requires i < |m|
    ensures RowLine(Transpose(m), i) == ColumnLine(m, i)
    ensures ColumnLine(Transpose(m), i) == RowLine(m, i)
  {
  }

  lemma RotateLines(m: Grid, i: nat)
    requires i < |m|
    ensures RowLine(Rotate(m), i) == Reverse(RowLine(m, |m| - 1 - i))
    ensures ColumnLine(Rotate(m), i) == Reverse(ColumnLine(m, |m| - 1 - i))
  {
  }

  lemma ReversedRun(line: seq<bool>, a: int, b: int)
    ensures RunAt(Reverse(line), a, b) == RunAt(line, |line| - b, |line| - a)
  {
    ReversedMaximal(line, a, b);
    var rev := Reverse(line);
    assert Reverse(rev) == line;
    ReversedMaximal(rev, |line| - b, |line| - a);
  }

  lemma ReversedMaximal(line: seq<bool>, a: int, b: int)
    ensures MaximalRun(Reverse(line), a, b) ==> MaximalRun(line, |line| - b, |line| - a)
  {
    var n, rev := |line|, Reverse(line);
    if MaximalRun(rev, a, b) {
      assert line[n - b] == rev[b - 1] == rev[a];
      forall k | n - b <= k < n - a
        ensures line[k] == line[n - b]
      {
        assert line[k] == rev[n - 1 - k];
      }
      if n - b > 0 {
        assert line[n - b - 1] == rev[b];
      }
      if n - a < n {
        assert line[n - a] == rev[a - 1];
      }
    }
  }

  lemma ReversedLineRuns(line: seq<bool>)
    ensures LineRuns(Reverse(line)) == LineRuns(line)
  {
    var n := |line| + 1;
    var rev := Reverse(line);
    var h := (a: int, b: int) => RunAt(line, a, b);
    var byEnd := (b: int) => Sum(a => h(a, b), n);
    forall a | 0 <= a < n
      ensures RunsFrom(rev, a) == byEnd(n - 1 - a)
    {
      var f := b => RunAt(rev, a, b);
      var g := (x: int) => h(x, n - 1 - a);
      forall b | 0 <= b < n
        ensures f(b) == g(n - 1 - b)
      {
        ReversedRun(line, a, b);
      }
      SumReverse(g, f, n);
      SumSame(f, b => RunAt(rev, a, b), n);
      SumSame(g, x => h(x, n - 1 - a), n);
    }
    SumReverse(byEnd, RunStarts(rev), n);
    forall a | 0 <= a < n
      ensures RunStarts(line)(a) == Sum(b => h(a, b), n)
    {
      SumSame(b => RunAt(line, a, b), b => h(a, b), n);
    }
    SumSwap(RunStarts(line), byEnd, h, n, n);
  }

  lemma ReversedPattern(line: seq<bool>, j: nat, want: seq<bool>)
    requires j + |want| <= |line|
    ensures HasPattern(Reverse(line), j, Reverse(want)) <==> HasPattern(line, |line| - |want| - j, want)
  {
    var rev, start := Reverse(line), |line| - |want| - j;
    if HasPattern(rev, j, Reverse(want)) {
      forall k | 0 <= k < |want|
        ensures line[start + k] == want[k]
      {
        assert rev[j..j + |want|][|want| - 1 - k] == Reverse(want)[|want| - 1 - k];
      }
      assert line[start..start + |want|] == want;
    }
    if HasPattern(line, start, want) {
      forall k | 0 <= k < |want|
        ensures rev[j + k] == Reverse(want)[k]
      {
        assert line[start..start + |want|][|want| - 1 - k] == want[|want| - 1 - k];
      }
      assert rev[j..j + |want|] == Reverse(want);
    }
  }

  lemma ReversedLinePatterns(line: seq<bool>)
    ensures LinePatterns(Reverse(line)) == LinePatterns(line)
  {
    hide HasPattern;
    var rev, n := Reverse(line), Windows(|line|);
    assert Reverse(FORWARD) == BACKWARD && Reverse(BACKWARD) == FORWARD;
    forall j | 0 <= j < n
      ensures PatternsAt(rev)(j) == PatternsAt(line)(n - 1 - j)
    {
      ReversedPattern(line, j, FORWARD);
      ReversedPattern(line, j, BACKWARD);
    }
    SumReverse(PatternsAt(line), PatternsAt(rev), n);
  }

  lemma TransposedDark(m: Grid, r: int, c: int)
    requires 0 <= r < |m| && 0 <= c < |m|
    ensures Dark(Transpose(m), r, c) == Dark(m, c, r)
  {
  }

  lemma RotatedDark(m: Grid, r: int, c: int)
    requires 0 <= r < |m| && 0 <= c < |m|
    ensures Dark(Rotate(m), r, c) == Dark(m, |m| - 1 - r, |m| - 1 - c)
  {
  }

  lemma TransposedBlock(m: Grid, r: int, c: int)
    requires 0 <= r < |m| - 1 && 0 <= c < |m| - 1
    ensures Block(Transpose(m), r, c) == Block(m, c, r)
  {
    hide Dark, Transpose;
    TransposedDark(m, r, c);
    TransposedDark(m, r + 1, c);
    TransposedDark(m, r, c + 1);
    TransposedDark(m, r + 1, c + 1);
  }

  lemma RotatedBlock(m: Grid, r: int, c: int)
    requires 0 <= r < |m| - 1 && 0 <= c < |m| - 1
    ensures Block(Rotate(m), r, c) == Block(m, |m| - 2 - r, |m| - 2 - c)
  {
    hide Dark, Rotate;
    RotatedDark(m, r, c);
    RotatedDark(m, r + 1, c);
    RotatedDark(m, r, c + 1);
    RotatedDark(m, r + 1, c + 1);
  }

  /** A table of numbers by rows and by columns. */
  lemma TableSums(byRow: int -> nat, byColumn: int -> nat, row: int -> int -> nat, column: int -> int -> nat, n: nat)
    requires forall r :: 0 <= r < n ==> byRow(r) == Sum(row(r), n)
    requires forall c :: 0 <= c < n ==> byColumn(c) == Sum(column(c), n)
    requires forall r, c :: 0 <= r < n && 0 <= c < n ==> row(r)(c) == column(c)(r)
    ensures Sum(byRow, n) == Sum(byColumn, n)
  {
    var h := (r: int, c: int) => row(r)(c);
    forall r | 0 <= r < n
      ensures byRow(r) == Sum(c => h(r, c), n)
    {
      SumSame(row(r), c => h(r, c), n);
    }
    forall c | 0 <= c < n
      ensures byColumn(c) == Sum(r => h(r, c), n)
    {
      SumSame(column(c), r => h(r, c), n);
    }
    SumSwap(byRow, byColumn, h, n, n);
  }

  lemma TransposeBlocks(m: Grid)
    requires |m| > 0
    ensures Sum(BlockRows(Transpose(m)), |m| - 1) == Sum(BlockRows(m), |m| - 1)
  {
    hide Block, Transpose, Sum;
    var n, t := |m| - 1, Transpose(m);
    TransposeSize(m);
    forall r, c | 0 <= r < n && 0 <= c < n
      ensures BlocksInRow(t, r)(c) == BlocksInRow(m, c)(r)
    {
      TransposedBlock(m, r, c);
    }
    TableSums(BlockRows(t), BlockRows(m), r => BlocksInRow(t, r), r => BlocksInRow(m, r), n);
  }

  lemma TransposeSize(m: Grid)
    ensures |Transpose(m)| == |m| == |Rotate(m)|
  {
  }

  lemma TransposeDark(m: Grid)
    ensures Sum(DarkRows(Transpose(m)), |m|) == Sum(DarkRows(m), |m|)
  {
    hide Dark, Transpose, Sum;
    var n, t := |m|, Transpose(m);
    TransposeSize(m);
    forall r, c | 0 <= r < n && 0 <= c < n
      ensures DarkInRow(t, r)(c) == DarkInRow(m, c)(r)
    {
      TransposedDark(m, r, c);
    }
    TableSums(DarkRows(t), DarkRows(m), r => DarkInRow(t, r), r => DarkInRow(m, r), n);
  }

  lemma RotateBlocks(m: Grid)
    requires |m| > 0
    ensures Sum(BlockRows(Rotate(m)), |m| - 1) == Sum(BlockRows(m), |m| - 1)
  {
    hide Block, Rotate, Sum;
    var n, t := |m| - 1, Rotate(m);
    TransposeSize(m);
    forall r | 0 <= r < n
      ensures BlockRows(t)(r) == BlockRows(m)(n - 1 - r)
    {
      forall c | 0 <= c < n
        ensures BlocksInRow(t, r)(c) == BlocksInRow(m, n - 1 - r)(n - 1 - c)
      {
        RotatedBlock(m, r, c);
      }
      SumReverse(BlocksInRow(m, n - 1 - r), BlocksInRow(t, r), n);
    }
    SumReverse(BlockRows(m), BlockRows(t), n);
  }

  lemma RotateDark(m: Grid)
    ensures Sum(DarkRows(Rotate(m)), |m|) == Sum(DarkRows(m), |m|)
  {
    hide Dark, Rotate, Sum;
    var n, t := |m|, Rotate(m);
    TransposeSize(m);
    forall r | 0 <= r < n
      ensures DarkRows(t)(r) == DarkRows(m)(n - 1 - r)
    {
      forall c | 0 <= c < n
        ensures DarkInRow(t, r)(c) == DarkInRow(m, n - 1 - r)(n - 1 - c)
      {
        RotatedDark(m, r, c);
      }
      SumReverse(DarkInRow(m, n - 1 - r), DarkInRow(t, r), n);
    }
    SumReverse(DarkRows(m), DarkRows(t), n);
  }

  /** The score does not change when rows and columns are exchanged. */
  lemma PenaltyTranspose(m: Grid)
    requires |m| > 0
    ensures PenaltyScore(Transpose(m)) == PenaltyScore(m)
  {
    hide LineRuns, LinePatterns, BlockRows, DarkRows, Balance;
    var n, t := |m|, Transpose(m);
    forall i | 0 <= i < n
      ensures RunScores(t)(i) == RunScores(m)(i) && PatternCounts(t)(i) == PatternCounts(m)(i)
    {
      TransposeLines(m, i);
    }
    SumSame(RunScores(t), RunScores(m), n);
    SumSame(PatternCounts(t), PatternCounts(m), n);
    TransposeBlocks(m);
    TransposeDark(m);
  }

  /** The score does not change when the symbol is turned upside down. */
  lemma PenaltyRotate(m: Grid)
    requires |m| > 0
    ensures PenaltyScore(Rotate(m)) == PenaltyScore(m)
  {
    hide LineRuns, LinePatterns, BlockRows, DarkRows, Balance;
    var n, t := |m|, Rotate(m);
    forall i | 0 <= i < n
      ensures RunScores(t)(i) == RunScores(m)(n - 1 - i) && PatternCounts(t)(i) == PatternCounts(m)(n - 1 - i)
    {
      RotateLines(m, i);
      ReversedLineRuns(RowLine(m, n - 1 - i));
      ReversedLineRuns(ColumnLine(m, n - 1 - i));
      ReversedLinePatterns(RowLine(m, n - 1 - i));
      ReversedLinePatterns(ColumnLine(m, n - 1 - i));
    }
    SumReverse(RunScores(m), RunScores(t), n);
    SumReverse(PatternCounts(m), PatternCounts(t), n);
    RotateBlocks(m);
    RotateDark(m);
  }
}
