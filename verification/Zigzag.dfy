/** The two-column walk that places the data bits, and the bit that each module receives. */
module Zigzag {
  import opened Layout

  /** Sizes for which the column-6 detour leaves no column out. */
  predicate WalkSize(n: nat) {
    n >= 7 && n % 2 == 1
  }

  function PairCount(n: nat): nat
    requires WalkSize(n)
  {
    (n - 1) / 2
  }

  /** A visit: the pair of columns, the step along it, and right or left column. */
  datatype Visit = Visit(pair: nat, step: nat, left: nat)

  predicate IsVisit(n: nat, w: Visit)
    requires WalkSize(n)
  {
    w.pair < PairCount(n) && w.step < n && w.left < 2
  }

  /** The right column of a pair; the pairs left of column 6 are moved one column on. */
  function PairColumn(n: nat, pair: nat): int {
    var col := n - 1 - 2 * pair;
    if col <= 6 then col - 1 else col
  }

  function RowOf(n: nat, w: Visit): int {
    if w.pair % 2 == 0 then n - 1 - w.step else w.step
  }

  function ColOf(n: nat, w: Visit): int {
    PairColumn(n, w.pair) - w.left
  }

  /** When the walk reaches a module. */
  function VisitOf(n: nat, r: nat, c: nat): Visit
    requires n >= 7 && r < n && c < n && c != 6
  {
    var d := if c > 6 then n - 1 - c else n - 2 - c;
    Visit(d / 2, if d / 2 % 2 == 0 then n - 1 - r else r, d % 2)
  }

  /** Every visit is to a module outside column 6, and is the only visit to it. */
  lemma WalkVisitsOnce(n: nat, w: Visit)
    requires WalkSize(n) && IsVisit(n, w)
    ensures InGrid(n, RowOf(n, w), ColOf(n, w)) && ColOf(n, w) != 6
    ensures VisitOf(n, RowOf(n, w), ColOf(n, w)) == w
  {
  }

  /** Every module outside column 6 is visited. */
  lemma WalkVisitsAll(n: nat, r: nat, c: nat)
    requires WalkSize(n) && r < n && c < n && c != 6
    ensures IsVisit(n, VisitOf(n, r, c))
    ensures RowOf(n, VisitOf(n, r, c)) == r && ColOf(n, VisitOf(n, r, c)) == c
  {
  }

  // ----- the rank of a data module -----

  function Free(v: nat, r: int, c: int): nat {
    if Reserved(v, r, c) then 0 else 1
  }

  function FreeVisit(v: nat, w: Visit): nat {
    Free(v, RowOf(Size(v), w), ColOf(Size(v), w))
  }

  /** Data modules in the first steps of a pair. */
  function StepRank(v: nat, pair: nat, step: nat): nat {
    if step == 0 then 0
    else StepRank(v, pair, step - 1) + FreeVisit(v, Visit(pair, step - 1, 0)) + FreeVisit(v, Visit(pair, step - 1, 1))
  }

  /** Data modules in the first pairs. */
  function PairRank(v: nat, pair: nat): nat {
    if pair == 0 then 0 else PairRank(v, pair - 1) + StepRank(v, pair - 1, Size(v))
  }

  /** Data modules visited before w, where left may also be 2, just after both columns. */
  function Rank(v: nat, w: Visit): nat {
    PairRank(v, w.pair) + StepRank(v, w.pair, w.step)
      + (if w.left >= 1 then FreeVisit(v, Visit(w.pair, w.step, 0)) else 0)
      + (if w.left >= 2 then FreeVisit(v, Visit(w.pair, w.step, 1)) else 0)
  }

  /** The bit index that lands on a data module. */
  function BitIndex(v: nat, r: nat, c: nat): nat
    requires r < Size(v) && c < Size(v) && c != 6
  {
    Rank(v, VisitOf(Size(v), r, c))
  }

  /** All data modules. */
  function DataModules(v: nat): nat {
    PairRank(v, PairCount(Size(v)))
  }

  predicate Before(a: Visit, b: Visit) {
    a.pair < b.pair || (a.pair == b.pair && (a.step < b.step || (a.step == b.step && a.left < b.left)))
  }

  lemma {:induction false} StepRankMonotone(v: nat, pair: nat, s: nat, t: nat)
    requires s <= t
    ensures StepRank(v, pair, s) <= StepRank(v, pair, t)
  {
    if s < t {
      StepRankMonotone(v, pair, s, t - 1);
    }
  }

  lemma {:induction false} PairRankMonotone(v: nat, p: nat, q: nat)
    requires p <= q
    ensures PairRank(v, p) <= PairRank(v, q)
  {
    hide StepRank;
    if p < q {
      PairRankMonotone(v, p, q - 1);
    }
  }

  /** After a data module the rank has moved on. */
  lemma RankAdvances(v: nat, a: Visit, b: Visit)
    requires IsVisit(Size(v), a) && IsVisit(Size(v), b) && Before(a, b)
    ensures Rank(v, a) + FreeVisit(v, a) <= Rank(v, b)
  {
    hide FreeVisit;
    if a.pair < b.pair {
      StepRankMonotone(v, a.pair, a.step + 1, Size(v));
      PairRankMonotone(v, a.pair + 1, b.pair);
    } else if a.step < b.step {
      StepRankMonotone(v, a.pair, a.step + 1, b.step);
    }
  }

  /** Two data modules never show the same bit. */
  lemma BitIndexInjective(v: nat, r: nat, c: nat, r': nat, c': nat)
    requires r < Size(v) && c < Size(v) && !Reserved(v, r, c) && c != 6
    requires r' < Size(v) && c' < Size(v) && !Reserved(v, r', c') && c' != 6
    requires BitIndex(v, r, c) == BitIndex(v, r', c')
    ensures r == r' && c == c'
  {
    hide Reserved, Rank;
    var n := Size(v);
    var a, b := VisitOf(n, r, c), VisitOf(n, r', c');
    WalkVisitsAll(n, r, c);
    WalkVisitsAll(n, r', c');
    if Before(a, b) {
      RankAdvances(v, a, b);
    } else if Before(b, a) {
      RankAdvances(v, b, a);
    }
  }

  lemma BitIndexBound(v: nat, r: nat, c: nat)
    requires r < Size(v) && c < Size(v) && c != 6 && !Reserved(v, r, c)
    ensures BitIndex(v, r, c) < DataModules(v)
  {
    hide Reserved, FreeVisit;
    var w := VisitOf(Size(v), r, c);
    WalkVisitsAll(Size(v), r, c);
    FreeVisitIs(v, w);
    StepRankMonotone(v, w.pair, w.step + 1, Size(v));
    PairRankMonotone(v, w.pair + 1, PairCount(Size(v)));
  }

  lemma FreeVisitIs(v: nat, w: Visit)
    ensures FreeVisit(v, w) == if Reserved(v, RowOf(Size(v), w), ColOf(Size(v), w)) then 0 else 1
  {
  }

  lemma {:induction false} StepOfRank(v: nat, pair: nat, step: nat, k: nat) returns (w: Visit)
    requires WalkSize(Size(v)) && pair < PairCount(Size(v)) && step <= Size(v) && k < StepRank(v, pair, step)
    ensures IsVisit(Size(v), w) && FreeVisit(v, w) == 1 && Rank(v, w) == PairRank(v, pair) + k
  {
    hide PairRank, Reserved;
    var s := step - 1;
    if k < StepRank(v, pair, s) {
      w := StepOfRank(v, pair, s, k);
    } else if k == StepRank(v, pair, s) && FreeVisit(v, Visit(pair, s, 0)) == 1 {
      w := Visit(pair, s, 0);
    } else {
      w := Visit(pair, s, 1);
    }
  }

  /** Every bit index below the number of data modules lands somewhere. */
  lemma {:induction false} VisitOfRank(v: nat, pair: nat, k: nat) returns (w: Visit)
    requires WalkSize(Size(v)) && pair <= PairCount(Size(v)) && k < PairRank(v, pair)
    ensures IsVisit(Size(v), w) && FreeVisit(v, w) == 1 && Rank(v, w) == k
  {
    hide FreeVisit, StepRank, Rank, IsVisit, WalkSize, PairCount, Size;
    if k < PairRank(v, pair - 1) {
      w := VisitOfRank(v, pair - 1, k);
    } else {
      w := StepOfRank(v, pair - 1, Size(v), k - PairRank(v, pair - 1));
    }
  }

  lemma BitLands(v: nat, k: nat) returns (r: nat, c: nat)
    requires k < DataModules(v)
    ensures r < Size(v) && c < Size(v) && c != 6 && !Reserved(v, r, c) && BitIndex(v, r, c) == k
  {
    hide Reserved, Rank;
    var w := VisitOfRank(v, PairCount(Size(v)), k);
    WalkVisitsOnce(Size(v), w);
    r, c := RowOf(Size(v), w), ColOf(Size(v), w);
  }

  // ----- reading the data modules back -----

  /** The bit at one visit, if it is to a data module. */
  function ReadVisit(v: nat, grid: (int, int) -> bool, w: Visit): seq<bool> {
    var r, c := RowOf(Size(v), w), ColOf(Size(v), w);
    if Reserved(v, r, c) then [] else [grid(r, c)]
  }

  function ReadSteps(v: nat, grid: (int, int) -> bool, pair: nat, step: nat): seq<bool> {
    if step == 0 then []
    else
      ReadSteps(v, grid, pair, step - 1)
      + ReadVisit(v, grid, Visit(pair, step - 1, 0)) + ReadVisit(v, grid, Visit(pair, step - 1, 1))
  }

  function ReadPairs(v: nat, grid: (int, int) -> bool, pair: nat): seq<bool> {
    if pair == 0 then [] else ReadPairs(v, grid, pair - 1) + ReadSteps(v, grid, pair - 1, Size(v))
  }

  /** Every data module shows the bit of its index. */
  ghost predicate ShowsBits(v: nat, grid: (int, int) -> bool, bits: seq<bool>) {
    forall r: nat, c: nat :: r < Size(v) && c < Size(v) && c != 6 && !Reserved(v, r, c) ==>
      BitIndex(v, r, c) < |bits| && grid(r, c) == bits[BitIndex(v, r, c)]
  }

  lemma ShownAtVisit(v: nat, grid: (int, int) -> bool, bits: seq<bool>, w: Visit)
    requires WalkSize(Size(v)) && IsVisit(Size(v), w) && ShowsBits(v, grid, bits)
    ensures FreeVisit(v, w) == 1 ==> Rank(v, w) < |bits| && ReadVisit(v, grid, w) == [bits[Rank(v, w)]]
    ensures FreeVisit(v, w) == 0 ==> ReadVisit(v, grid, w) == []
  {
    hide Reserved, Rank;
    WalkVisitsOnce(Size(v), w);
    if FreeVisit(v, w) == 1 {
      var r: nat, c: nat := RowOf(Size(v), w), ColOf(Size(v), w);
      assert BitIndex(v, r, c) == Rank(v, w);
    }
  }

  /** The n bits from start on. */
  ghost predicate Slice(bits: seq<bool>, start: nat, n: nat, s: seq<bool>) {
    |s| == n && (n > 0 ==> start + n <= |bits|) && forall i :: 0 <= i < n ==> s[i] == bits[start + i]
  }

  lemma SliceGrows(v: nat, grid: (int, int) -> bool, bits: seq<bool>, w: Visit, start: nat, n: nat, s: seq<bool>)
    requires WalkSize(Size(v)) && IsVisit(Size(v), w) && ShowsBits(v, grid, bits)
    requires Rank(v, w) == start + n && Slice(bits, start, n, s)
    ensures Slice(bits, start, n + FreeVisit(v, w), s + ReadVisit(v, grid, w))
  {
    hide ShowsBits, FreeVisit, ReadVisit, Rank;
    ShownAtVisit(v, grid, bits, w);
    FreeIsBit(v, w);
  }

  lemma StepRanks(v: nat, pair: nat, step: nat)
    requires step > 0
    ensures Rank(v, Visit(pair, step - 1, 0)) == PairRank(v, pair) + StepRank(v, pair, step - 1)
    ensures Rank(v, Visit(pair, step - 1, 1))
         == PairRank(v, pair) + (StepRank(v, pair, step - 1) + FreeVisit(v, Visit(pair, step - 1, 0)))
    ensures StepRank(v, pair, step) == StepRank(v, pair, step - 1)
      + FreeVisit(v, Visit(pair, step - 1, 0)) + FreeVisit(v, Visit(pair, step - 1, 1))
  {
    hide FreeVisit, PairRank;
  }

  lemma {:induction false} ReadStepsShown(v: nat, grid: (int, int) -> bool, bits: seq<bool>, pair: nat, step: nat)
    requires WalkSize(Size(v)) && pair < PairCount(Size(v)) && step <= Size(v) && ShowsBits(v, grid, bits)
    ensures Slice(bits, PairRank(v, pair), StepRank(v, pair, step), ReadSteps(v, grid, pair, step))
  {
    hide *;
    if step == 0 {
      NoSteps(v, grid, bits, pair);
    } else {
      ReadStepsShown(v, grid, bits, pair, step - 1);
      StepShown(v, grid, bits, pair, step);
    }
  }

  lemma NoSteps(v: nat, grid: (int, int) -> bool, bits: seq<bool>, pair: nat)
    ensures Slice(bits, PairRank(v, pair), StepRank(v, pair, 0), ReadSteps(v, grid, pair, 0))
  {
    hide PairRank;
  }

  lemma ReadStepsLast(v: nat, grid: (int, int) -> bool, pair: nat, step: nat)
    requires step > 0
    ensures ReadSteps(v, grid, pair, step) == ReadSteps(v, grid, pair, step - 1)
      + ReadVisit(v, grid, Visit(pair, step - 1, 0)) + ReadVisit(v, grid, Visit(pair, step - 1, 1))
  {
    hide ReadVisit;
  }

  lemma StepShown(v: nat, grid: (int, int) -> bool, bits: seq<bool>, pair: nat, step: nat)
    requires WalkSize(Size(v)) && pair < PairCount(Size(v)) && 0 < step <= Size(v) && ShowsBits(v, grid, bits)
    requires Slice(bits, PairRank(v, pair), StepRank(v, pair, step - 1), ReadSteps(v, grid, pair, step - 1))
    ensures Slice(bits, PairRank(v, pair), StepRank(v, pair, step), ReadSteps(v, grid, pair, step))
  {
    hide ShowsBits, FreeVisit, ReadVisit, PairRank, Slice, StepRank, Rank, ReadSteps, PairCount, Size, WalkSize;
    StepRanks(v, pair, step);
    ReadStepsLast(v, grid, pair, step);
    var a, b := Visit(pair, step - 1, 0), Visit(pair, step - 1, 1);
    var start, n, s := PairRank(v, pair), StepRank(v, pair, step - 1), ReadSteps(v, grid, pair, step - 1);
    SliceGrows(v, grid, bits, a, start, n, s);
    SliceGrows(v, grid, bits, b, start, n + FreeVisit(v, a), s + ReadVisit(v, grid, a));
  }

  lemma FreeIsBit(v: nat, w: Visit)
    ensures FreeVisit(v, w) == 0 || FreeVisit(v, w) == 1
  {
  }

  /** The walk reads the shown bits in order. */
  lemma {:induction false} ReadPairsShown(v: nat, grid: (int, int) -> bool, bits: seq<bool>, pair: nat)
    requires WalkSize(Size(v)) && pair <= PairCount(Size(v)) && ShowsBits(v, grid, bits)
    ensures PairRank(v, pair) <= |bits|
    ensures ReadPairs(v, grid, pair) == bits[..PairRank(v, pair)]
  {
    hide ShowsBits, StepRank, ReadSteps;
    if pair > 0 {
      ReadPairsShown(v, grid, bits, pair - 1);
      ReadStepsShown(v, grid, bits, pair - 1, Size(v));
    }
  }
}
