/** The number of data modules of each version: exactly its codeword bits and remainder bits. */
module Capacity {
  import opened Arithmetic
  import opened Versions
  import opened Layout
  import opened Zigzag

  // ----- the reserved rows of one column, as intervals -----

  /** Rows lo to hi - 1. */
  datatype Rows = Rows(lo: int, hi: int)

  predicate InRows(x: Rows, r: int) {
    x.lo <= r < x.hi
  }

  predicate NearMid(v: nat, c: int) {
    v >= 7 && Abs(c - (2 * v + 8)) <= 2
  }

  predicate NearLast(v: nat, c: int) {
    v >= 2 && Abs(c - (4 * v + 10)) <= 2
  }

  function Top(v: nat, c: int): Rows {
    var n := Size(v);
    if c < 9 || c >= n - 8 then Rows(0, 9)
    else if v >= 7 && c >= n - 11 then Rows(0, 7)
    else if NearMid(v, c) then Rows(4, 9)
    else Rows(6, 7)
  }

  function Middle(v: nat, c: int): Rows {
    var m := 2 * v + 8;
    if v >= 7 && (Abs(c - 6) <= 2 || NearMid(v, c) || NearLast(v, c)) then Rows(m - 2, m + 3) else Rows(9, 9)
  }

  function Lower(v: nat, c: int): Rows {
    var a := 4 * v + 10;
    if NearLast(v, c) || NearMid(v, c) then Rows(a - 2, a + 3)
    else Rows(Middle(v, c).hi, Middle(v, c).hi)
  }

  function Bottom(v: nat, c: int): Rows {
    var n := Size(v);
    if c >= 9 then Rows(n, n) else if v >= 7 && c < 6 then Rows(n - 11, n) else Rows(n - 8, n)
  }

  lemma ReservedRows(v: nat, r: int, c: int)
    requires 1 <= v <= 10 && InGrid(Size(v), r, c) && c != 6
    ensures Reserved(v, r, c) <==>
      InRows(Top(v, c), r) || InRows(Middle(v, c), r) || InRows(Lower(v, c), r) || InRows(Bottom(v, c), r)
    ensures Top(v, c).hi <= Middle(v, c).lo <= Middle(v, c).hi <= Lower(v, c).lo <= Lower(v, c).hi <= Bottom(v, c).lo
  {
  }

  /** Rows of x below k. */
  function Covered(x: Rows, k: int): int {
    if k <= x.lo then 0 else if k >= x.hi then x.hi - x.lo else k - x.lo
  }

  /** Data modules of column c in the first k rows. */
  function FreeAbove(v: nat, c: int, k: nat): nat {
    if k == 0 then 0 else FreeAbove(v, c, k - 1) + Free(v, k - 1, c)
  }

  lemma {:induction false} CountFree(v: nat, c: int, k: nat)
    requires 1 <= v <= 10 && 0 <= c < Size(v) && c != 6 && k <= Size(v)
    ensures FreeAbove(v, c, k)
         == k - Covered(Top(v, c), k) - Covered(Middle(v, c), k) - Covered(Lower(v, c), k) - Covered(Bottom(v, c), k)
  {
    hide Reserved, Top, Middle, Lower, Bottom;
    TopStart(v, c);
    if k == 0 {
      ReservedRows(v, 0, c);
    } else {
      CountFree(v, c, k - 1);
      ReservedRows(v, k - 1, c);
    }
  }

  lemma TopStart(v: nat, c: int)
    ensures 0 <= Top(v, c).lo <= Top(v, c).hi && Bottom(v, c).lo <= Bottom(v, c).hi
  {
  }

  /** Data modules of a whole column. */
  function FreeInColumn(v: nat, c: int): int {
    var n := Size(v);
    n - (Top(v, c).hi - Top(v, c).lo) - (Middle(v, c).hi - Middle(v, c).lo)
      - (Lower(v, c).hi - Lower(v, c).lo) - (Bottom(v, c).hi - Bottom(v, c).lo)
  }

  lemma ColumnTotal(v: nat, c: int)
    requires 1 <= v <= 10 && 0 <= c < Size(v) && c != 6
    ensures FreeAbove(v, c, Size(v)) == FreeInColumn(v, c)
  {
    hide Reserved, FreeAbove;
    CountFree(v, c, Size(v));
  }

  // ----- counting by pairs of columns -----

  /** Going up or down a pair of columns meets the same modules. */
  lemma {:induction false} StepsCount(v: nat, pair: nat, step: nat)
    requires pair < PairCount(Size(v)) && step <= Size(v)
    ensures var c, n := PairColumn(Size(v), pair), Size(v);
      StepRank(v, pair, step) ==
        if pair % 2 == 0 then FreeAbove(v, c, n) - FreeAbove(v, c, n - step)
                              + FreeAbove(v, c - 1, n) - FreeAbove(v, c - 1, n - step)
        else FreeAbove(v, c, step) + FreeAbove(v, c - 1, step)
  {
    hide Free, FreeVisit, FreeAbove, PairColumn, PairCount, Size;
    if step == 0 {
      NoneAbove(v, PairColumn(Size(v), pair));
      NoneAbove(v, PairColumn(Size(v), pair) - 1);
    } else {
      StepsCount(v, pair, step - 1);
      StepFree(v, pair, step - 1);
    }
  }

  /** One step counts one more row of both columns, from below in even pairs and from above in odd ones. */
  lemma StepFree(v: nat, pair: nat, s: nat)
    requires s < Size(v)
    ensures var c, n := PairColumn(Size(v), pair), Size(v);
      var row := if pair % 2 == 0 then n - 1 - s else s;
      && FreeVisit(v, Visit(pair, s, 0)) == FreeAbove(v, c, row + 1) - FreeAbove(v, c, row)
      && FreeVisit(v, Visit(pair, s, 1)) == FreeAbove(v, c - 1, row + 1) - FreeAbove(v, c - 1, row)
  {
    hide Free, Size, PairColumn;
  }

  function PairFree(v: nat, pair: nat): int {
    FreeInColumn(v, PairColumn(Size(v), pair)) + FreeInColumn(v, PairColumn(Size(v), pair) - 1)
  }

  lemma PairTotal(v: nat, pair: nat)
    requires 1 <= v <= 10 && pair < PairCount(Size(v))
    ensures StepRank(v, pair, Size(v)) == PairFree(v, pair)
  {
    hide StepRank, FreeAbove, FreeInColumn;
    StepsCount(v, pair, Size(v));
    NoneAbove(v, PairColumn(Size(v), pair));
    NoneAbove(v, PairColumn(Size(v), pair) - 1);
    ColumnTotal(v, PairColumn(Size(v), pair));
    ColumnTotal(v, PairColumn(Size(v), pair) - 1);
  }

  lemma NoneAbove(v: nat, c: int)
    ensures FreeAbove(v, c, 0) == 0
  {
  }

  /** A run of column pairs with the same count. */
  lemma {:induction false} Run(v: nat, from: nat, to: nat, each: nat)
    requires 1 <= v <= 10 && from <= to <= PairCount(Size(v))
    requires forall pair :: from <= pair < to ==> PairFree(v, pair) == each
    ensures PairRank(v, to) == PairRank(v, from) + (to - from) * each
  {
    hide PairFree, StepRank;
    if from < to {
      Run(v, from, to - 1, each);
      PairTotal(v, to - 1);
      assert (to - from) * each == (to - 1 - from) * each + each;
    }
  }

  /** Data modules per column with one alignment pattern. */
  function FreeColumn2To6(v: nat, c: int): int {
    var n := Size(v);
    if c >= n - 4 then n - 9
    else if c >= n - 8 then n - 14
    else if c >= n - 9 then n - 6
    else if c >= 9 then n - 1
    else n - 17
  }

  lemma ColumnClasses2To6(v: nat, c: int)
    requires 2 <= v <= 6 && 0 <= c < Size(v) && c != 6
    ensures FreeInColumn(v, c) == FreeColumn2To6(v, c)
  {
  }

  lemma Run2To6(v: nat, from: nat, to: nat, each: nat)
    requires 2 <= v <= 6 && from <= to <= PairCount(Size(v))
    requires forall pair :: from <= pair < to ==>
      FreeColumn2To6(v, PairColumn(Size(v), pair)) + FreeColumn2To6(v, PairColumn(Size(v), pair) - 1) == each
    ensures PairRank(v, to) == PairRank(v, from) + (to - from) * each
  {
    hide FreeInColumn, PairRank, FreeColumn2To6;
    forall pair | from <= pair < to
      ensures PairFree(v, pair) == each
    {
      ColumnClasses2To6(v, PairColumn(Size(v), pair));
      ColumnClasses2To6(v, PairColumn(Size(v), pair) - 1);
    }
    Run(v, from, to, each);
  }

  lemma OneAlignment(v: nat)
    requires 2 <= v <= 6
    ensures DataModules(v) == 8 * TOTAL_CODEWORDS[v - 1] + REMAINDER_BITS[v - 1]
  {
    RankStart(v);
    hide PairRank;
    var n := Size(v);
    Run2To6(v, 0, 2, 2 * n - 18);
    Run2To6(v, 2, 4, 2 * n - 28);
    Run2To6(v, 4, 5, 2 * n - 7);
    Run2To6(v, 5, 2 * v + 4, 2 * n - 2);
    Run2To6(v, 2 * v + 4, 2 * v + 8, 2 * n - 34);
    assert v == 2 || v == 3 || v == 4 || v == 5 || v == 6;
  }

  lemma RankStart(v: nat)
    ensures PairRank(v, 0) == 0
  {
  }

  lemma NoAlignment()
    ensures DataModules(1) == 8 * TOTAL_CODEWORDS[0] + REMAINDER_BITS[0]
  {
    hide StepRank, Reserved;
    Run(1, 0, 4, 24);
    Run(1, 4, 6, 40);
    Run(1, 6, 10, 8);
  }

  /** Data modules per column with six alignment patterns and version information. */
  function FreeColumn7To10(v: nat, c: int): int {
    var n, m := Size(v), 2 * v + 8;
    if c >= n - 4 then n - 9
    else if c >= n - 8 then n - 19
    else if c >= n - 9 then n - 17
    else if c >= n - 11 then n - 7
    else if m - 2 <= c <= m + 2 then n - 15
    else if c >= 9 then n - 1
    else if c >= 6 then n - 22
    else if c >= 4 then n - 25
    else n - 20
  }

  lemma ColumnClasses7To10(v: nat, c: int)
    requires 7 <= v <= 10 && 0 <= c < Size(v) && c != 6
    ensures FreeInColumn(v, c) == FreeColumn7To10(v, c)
  {
  }

  lemma Run7To10(v: nat, from: nat, to: nat, each: nat)
    requires 7 <= v <= 10 && from <= to <= PairCount(Size(v))
    requires forall pair :: from <= pair < to ==>
      FreeColumn7To10(v, PairColumn(Size(v), pair)) + FreeColumn7To10(v, PairColumn(Size(v), pair) - 1) == each
    ensures PairRank(v, to) == PairRank(v, from) + (to - from) * each
  {
    hide FreeInColumn, PairRank, FreeColumn7To10;
    forall pair | from <= pair < to
      ensures PairFree(v, pair) == each
    {
      ColumnClasses7To10(v, PairColumn(Size(v), pair));
      ColumnClasses7To10(v, PairColumn(Size(v), pair) - 1);
    }
    Run(v, from, to, each);
  }

  lemma RightPairs(v: nat)
    requires 7 <= v <= 10
    ensures PairRank(v, v + 3) == 12 * Size(v) - 144 + (v - 3) * (2 * Size(v) - 2)
  {
    RankStart(v);
    hide PairRank;
    var n := Size(v);
    Run7To10(v, 0, 2, 2 * n - 18);
    Run7To10(v, 2, 4, 2 * n - 38);
    Run7To10(v, 4, 5, 2 * n - 24);
    Run7To10(v, 5, 6, 2 * n - 8);
    Run7To10(v, 6, v + 3, 2 * n - 2);
  }

  lemma MiddlePairs(v: nat)
    requires 7 <= v <= 10
    ensures PairRank(v, 2 * v + 4) == PairRank(v, v + 3) + 6 * Size(v) - 76 + (v - 2) * (2 * Size(v) - 2)
  {
    hide PairRank;
    var n := Size(v);
    Run7To10(v, v + 3, v + 5, 2 * n - 30);
    Run7To10(v, v + 5, v + 6, 2 * n - 16);
    Run7To10(v, v + 6, 2 * v + 4, 2 * n - 2);
  }

  lemma LeftPairs(v: nat)
    requires 7 <= v <= 10
    ensures PairRank(v, 2 * v + 8) == PairRank(v, 2 * v + 4) + 8 * Size(v) - 174
  {
    hide PairRank;
    var n := Size(v);
    Run7To10(v, 2 * v + 4, 2 * v + 5, 2 * n - 44);
    Run7To10(v, 2 * v + 5, 2 * v + 6, 2 * n - 50);
    Run7To10(v, 2 * v + 6, 2 * v + 8, 2 * n - 40);
  }

  lemma SixAlignments(v: nat)
    requires 7 <= v <= 10
    ensures DataModules(v) == 8 * TOTAL_CODEWORDS[v - 1] + REMAINDER_BITS[v - 1]
  {
    hide PairRank;
    RightPairs(v);
    MiddlePairs(v);
    LeftPairs(v);
    assert v == 7 || v == 8 || v == 9 || v == 10;
  }

  /** The data modules of a version hold its codewords and remainder bits exactly. */
  lemma DataModulesExact(v: nat)
    requires 1 <= v <= 10
    ensures DataModules(v) == 8 * TOTAL_CODEWORDS[v - 1] + REMAINDER_BITS[v - 1]
  {
    if v == 1 {
      NoAlignment();
    } else if v < 7 {
      OneAlignment(v);
    } else {
      SixAlignments(v);
    }
  }

  /** Every codeword bit and every remainder bit lands on its own data module, and those are all of them. */
  lemma EveryBitLands(v: nat, k: nat) returns (r: nat, c: nat)
    requires 1 <= v <= 10 && k < 8 * TOTAL_CODEWORDS[v - 1] + REMAINDER_BITS[v - 1]
    ensures r < Size(v) && c < Size(v) && c != 6 && !Reserved(v, r, c) && BitIndex(v, r, c) == k
    ensures forall r': nat, c': nat ::
      r' < Size(v) && c' < Size(v) && c' != 6 && !Reserved(v, r', c') && BitIndex(v, r', c') == k ==> r' == r && c' == c
  {
    hide Reserved, BitIndex, DataModules;
    DataModulesExact(v);
    r, c := BitLands(v, k);
    forall r': nat, c': nat
      | r' < Size(v) && c' < Size(v) && c' != 6 && !Reserved(v, r', c') && BitIndex(v, r', c') == k
      ensures r' == r && c' == c
    {
      BitIndexInjective(v, r', c', r, c);
    }
  }
}
