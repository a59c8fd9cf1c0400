/** The function patterns of a symbol in closed form: which modules are reserved, and their colours. */
module Layout {
  import opened Arithmetic
  import opened Versions

  const ALIGNMENT_CENTRES: seq<seq<int>> := [
    [], [6, 18], [6, 22], [6, 26], [6, 30], [6, 34], [6, 22, 38], [6, 24, 42], [6, 26, 46], [6, 28, 50]]

  function Size(v: nat): (n: nat)
    ensures n >= 17 && n % 2 == 1
  {
    OddNumber(2 * v + 8);
    ModuleCount(v)
  }

  lemma OddNumber(k: nat)
    ensures (2 * k + 1) % 2 == 1
  {
  }

  predicate InGrid(n: nat, r: int, c: int) {
    0 <= r < n && 0 <= c < n
  }

  /** The three finder patterns with their light separators. */
  predicate Finder(n: nat, r: int, c: int) {
    (r < 8 && (c < 8 || c >= n - 8)) || (r >= n - 8 && c < 8)
  }

  /** Ring and core of a finder, from its top left corner. */
  predicate FinderShape(r: int, c: int) {
    || (0 <= r <= 6 && (c == 0 || c == 6))
    || (0 <= c <= 6 && (r == 0 || r == 6))
    || (2 <= r <= 4 && 2 <= c <= 4)
  }

  predicate FinderDark(n: nat, r: int, c: int) {
    FinderShape(if r < 8 then r else r - (n - 7), if c < 8 then c else c - (n - 7))
  }

  /** The alignment centre within two modules of x, or -1. */
  function NearCentre(v: nat, x: int): int {
    if v < 2 then -1
    else if Abs(x - 6) <= 2 then 6
    else if v >= 7 && Abs(x - (2 * v + 8)) <= 2 then 2 * v + 8
    else if Abs(x - (4 * v + 10)) <= 2 then 4 * v + 10
    else -1
  }

  predicate NearFinder(n: nat, row: int, col: int) {
    || (row == 6 && col == 6)
    || (row == 6 && col == n - 7)
    || (row == n - 7 && col == 6)
  }

  predicate Alignment(v: nat, r: int, c: int) {
    var row, col := NearCentre(v, r), NearCentre(v, c);
    row >= 0 && col >= 0 && !NearFinder(Size(v), row, col)
  }

  predicate AlignmentDark(v: nat, r: int, c: int) {
    Max(Abs(r - NearCentre(v, r)), Abs(c - NearCentre(v, c))) != 1
  }

  predicate Timing(n: nat, r: int, c: int) {
    (r == 6 && 8 <= c < n - 8) || (c == 6 && 8 <= r < n - 8)
  }

  predicate TimingDark(r: int, c: int) {
    (if r == 6 then c else r) % 2 == 0
  }

  /** Both copies of the format information and the dark module. */
  predicate FormatArea(n: nat, r: int, c: int) {
    (r == 8 && (c < 9 || c >= n - 8)) || (c == 8 && (r < 9 || r >= n - 8))
  }

  predicate DarkModule(n: nat, r: int, c: int) {
    r == n - 8 && c == 8
  }

  predicate VersionArea(v: nat, r: int, c: int) {
    var n := Size(v);
    v >= 7 && ((r < 6 && n - 11 <= c < n - 8) || (c < 6 && n - 11 <= r < n - 8))
  }

  /** Patterns whose colour depends on the version alone. */
  predicate FixedPattern(v: nat, r: int, c: int) {
    var n := Size(v);
    Alignment(v, r, c) || Finder(n, r, c) || Timing(n, r, c) || DarkModule(n, r, c)
  }

  predicate FixedDark(v: nat, r: int, c: int) {
    var n := Size(v);
    if Alignment(v, r, c) then AlignmentDark(v, r, c)
    else if Finder(n, r, c) then FinderDark(n, r, c)
    else if Timing(n, r, c) then TimingDark(r, c)
    else true
  }

  predicate Reserved(v: nat, r: int, c: int) {
    FixedPattern(v, r, c) || FormatArea(Size(v), r, c) || VersionArea(v, r, c)
  }

  /** The centres of the table, and the closed form of the nearest one. */
  lemma CentreTable(v: nat)
    requires 1 <= v <= 10
    ensures ALIGNMENT_CENTRES[v - 1]
         == if v == 1 then [] else if v < 7 then [6, 4 * v + 10] else [6, 2 * v + 8, 4 * v + 10]
  {
  }

  /** The data never uses column 6. */
  lemma ColumnSixReserved(v: nat, r: int)
    requires 1 <= v <= 10 && 0 <= r < Size(v)
    ensures Reserved(v, r, 6)
  {
  }

  // ----- the places of the format bits -----

  /** The format bit shown at a module, or -1. */
  function FormatIndex(n: nat, r: int, c: int): int {
    if c == 8 && 0 <= r < 6 then r
    else if c == 8 && (r == 7 || r == 8) then r - 1
    else if c == 8 && n - 7 <= r < n then r - n + 15
    else if r == 8 && n - 8 <= c < n then n - 1 - c
    else if r == 8 && c == 7 then 8
    else if r == 8 && 0 <= c < 6 then 14 - c
    else -1
  }

  /** Bit i of the copy around the top left finder, and of the copy split between the other two. */
  function FirstCopy(n: nat, i: nat): (int, int) {
    if i < 6 then (i, 8) else if i < 8 then (i + 1, 8) else if i < 9 then (8, 15 - i) else (8, 14 - i)
  }

  function SecondCopy(n: nat, i: nat): (int, int) {
    if i < 8 then (8, n - 1 - i) else (n - 15 + i, 8)
  }

  lemma FormatCopies(n: nat, i: nat)
    requires n >= 21 && i < 15
    ensures var (r, c) := FirstCopy(n, i); InGrid(n, r, c) && FormatIndex(n, r, c) == i
    ensures var (r, c) := SecondCopy(n, i); InGrid(n, r, c) && FormatIndex(n, r, c) == i
  {
  }

  /** The version bit shown at a module, or -1. */
  function VersionIndex(v: nat, r: int, c: int): int {
    var n := Size(v);
    if !VersionArea(v, r, c) || r < 0 || c < 0 then -1
    else if r < 6 then 3 * r + (c - (n - 11))
    else 3 * c + (r - (n - 11))
  }

  // ----- the eight masks -----

  /** Whether the mask inverts the module. */
  predicate MaskBit(mask: nat, r: nat, c: nat) {
    if mask == 0 then (r + c) % 2 == 0
    else if mask == 1 then r % 2 == 0
    else if mask == 2 then c % 3 == 0
    else if mask == 3 then (r + c) % 3 == 0
    else if mask == 4 then (r / 2 + c / 3) % 2 == 0
    else if mask == 5 then (r * c) % 2 + (r * c) % 3 == 0
    else if mask == 6 then ((r * c) % 2 + (r * c) % 3) % 2 == 0
    else ((r + c) % 2 + (r * c) % 3) % 2 == 0
  }
}
