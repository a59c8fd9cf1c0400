/** What every finished symbol shows, module by module, in coordinates and numbers. */
module Conformance {
  import opened Arithmetic
  import opened Bits
  import opened Gf256
  import opened Bch
  import opened Words
  import opened Versions
  import opened Codewords
  import opened Interleave
  import opened Layout
  import opened Zigzag
  import opened CanvasModule
  import opened Placement
  import opened Symbol
  import opened Encoder

  /** A module of an encoding, in closed form. */
  lemma ModuleOf(q: QrMatrix, bytes: seq<Byte>, r: nat, c: nat)
    requires IsEncoding(q, bytes) && r < q.size && c < q.size
    ensures 1 <= q.version <= 10 && q.size == 4 * q.version + 17 && q.mask < 8
    ensures |q.modules| == q.size && |q.modules[r]| == q.size
    ensures q.modules[r][c]
         == SymbolDark(q.version, q.mask, StreamOf(bytes, q.version), VersionWord(q.version), r, c)
  {
    hide SymbolDark, StreamOf, VersionWord, Fits;
  }

  lemma EncodingShape(q: QrMatrix, bytes: seq<Byte>)
    requires IsEncoding(q, bytes)
    ensures 1 <= q.version <= 10 && q.size == 4 * q.version + 17 && q.mask < 8 && |q.modules| == q.size
    ensures forall r :: 0 <= r < q.size ==> |q.modules[r]| == q.size
  {
    hide SymbolDark, StreamOf, VersionWord, Fits;
  }

  lemma FixedModule(q: QrMatrix, bytes: seq<Byte>, r: nat, c: nat)
    requires IsEncoding(q, bytes) && r < q.size && c < q.size && FixedPattern(q.version, r, c)
    ensures |q.modules| == q.size && |q.modules[r]| == q.size
    ensures q.modules[r][c] == FixedDark(q.version, r, c)
  {
    hide IsEncoding, FixedPattern, FixedDark;
    PatternsIntact(q, bytes, r, c);
  }

  // ----- function patterns -----

  /** Each corner but the last has a ring and a core of three by three, with a light separator. */
  lemma Finders(q: QrMatrix, bytes: seq<Byte>, r: nat, c: nat)
    requires IsEncoding(q, bytes) && r < 8 && c < 8
    ensures |q.modules| == q.size >= 21 && forall i :: 0 <= i < q.size ==> |q.modules[i]| == q.size
    ensures var dark := r < 7 && c < 7 && (r == 0 || r == 6 || c == 0 || c == 6 || (2 <= r <= 4 && 2 <= c <= 4));
      q.modules[r][c] == q.modules[r][q.size - 1 - c] == q.modules[q.size - 1 - r][c] == dark
  {
    hide IsEncoding, FixedPattern, FixedDark;
    EncodingShape(q, bytes);
    FinderColours(q.version, r, c);
    FixedModule(q, bytes, r, c);
    FixedModule(q, bytes, r, q.size - 1 - c);
    FixedModule(q, bytes, q.size - 1 - r, c);
  }

  lemma FinderColours(v: nat, r: nat, c: nat)
    requires 1 <= v <= 10 && r < 8 && c < 8
    ensures var n := 4 * v + 17;
      var dark := r < 7 && c < 7 && (r == 0 || r == 6 || c == 0 || c == 6 || (2 <= r <= 4 && 2 <= c <= 4));
      && FixedPattern(v, r, c) && FixedDark(v, r, c) == dark
      && FixedPattern(v, r, n - 1 - c) && FixedDark(v, r, n - 1 - c) == dark
      && FixedPattern(v, n - 1 - r, c) && FixedDark(v, n - 1 - r, c) == dark
  {
  }

  /** Row and column 6 alternate between the finders, through the alignment patterns, dark at even places. */
  lemma TimingLines(q: QrMatrix, bytes: seq<Byte>, k: nat)
    requires IsEncoding(q, bytes) && 8 <= k < q.size - 8
    ensures |q.modules| == q.size && |q.modules[6]| == q.size && |q.modules[k]| == q.size
    ensures q.modules[6][k] == q.modules[k][6] == (k % 2 == 0)
  {
    hide IsEncoding, FixedPattern, FixedDark;
    EncodingShape(q, bytes);
    TimingColours(q.version, k);
    FixedModule(q, bytes, 6, k);
    FixedModule(q, bytes, k, 6);
  }

  lemma TimingColours(v: nat, k: nat)
    requires 1 <= v <= 10 && 8 <= k < 4 * v + 9
    ensures FixedPattern(v, 6, k) && FixedDark(v, 6, k) == (k % 2 == 0)
    ensures FixedPattern(v, k, 6) && FixedDark(v, k, 6) == (k % 2 == 0)
  {
  }

  /** The rows and columns of the alignment centres. */
  predicate Centre(v: nat, x: nat) {
    v >= 2 && (x == 6 || x == 4 * v + 10 || (v >= 7 && x == 2 * v + 8))
  }

  /** Around every pair of centres but those of the finders: a ring of five by five and a core of one. */
  lemma AlignmentPatterns(q: QrMatrix, bytes: seq<Byte>, row: nat, col: nat, i: nat, j: nat)
    requires IsEncoding(q, bytes) && Centre(q.version, row) && Centre(q.version, col) && i < 5 && j < 5
    requires !(row == 6 && col == 6) && !(row == 6 && col == q.size - 7) && !(row == q.size - 7 && col == 6)
    ensures row + i - 2 < |q.modules| && col + j - 2 < |q.modules[row + i - 2]|
    ensures q.modules[row + i - 2][col + j - 2] == (i == 0 || i == 4 || j == 0 || j == 4 || (i == 2 && j == 2))
  {
    hide IsEncoding, FixedPattern, FixedDark;
    EncodingShape(q, bytes);
    AlignmentColours(q.version, row, col, i, j);
    FixedModule(q, bytes, row + i - 2, col + j - 2);
  }

  lemma AlignmentColours(v: nat, row: nat, col: nat, i: nat, j: nat)
    requires 1 <= v <= 10 && Centre(v, row) && Centre(v, col) && i < 5 && j < 5
    requires var n := 4 * v + 17;
      !(row == 6 && col == 6) && !(row == 6 && col == n - 7) && !(row == n - 7 && col == 6)
    ensures FixedPattern(v, row + i - 2, col + j - 2)
    ensures FixedDark(v, row + i - 2, col + j - 2) == (i == 0 || i == 4 || j == 0 || j == 4 || (i == 2 && j == 2))
  {
    CentreNear(v, row, i);
    CentreNear(v, col, j);
    hide NearCentre;
  }

  lemma CentreNear(v: nat, x: nat, i: nat)
    requires 1 <= v <= 10 && Centre(v, x) && i < 5
    ensures NearCentre(v, x + i - 2) == x
  {
  }

  lemma DarkModuleShown(q: QrMatrix, bytes: seq<Byte>)
    requires IsEncoding(q, bytes)
    ensures |q.modules| == q.size >= 21 && |q.modules[q.size - 8]| == q.size && q.modules[q.size - 8][8]
  {
    hide IsEncoding, FixedPattern, FixedDark;
    EncodingShape(q, bytes);
    DarkModuleColour(q.version);
    FixedModule(q, bytes, q.size - 8, 8);
  }

  lemma DarkModuleColour(v: nat)
    requires 1 <= v <= 10
    ensures FixedPattern(v, 4 * v + 9, 8) && FixedDark(v, 4 * v + 9, 8)
  {
  }

  // ----- format and version words -----

  predicate WordBit(word: nat, i: nat) {
    (word / Pow2(i)) % 2 == 1
  }

  /** The row of format bit i in column 8, and its column in row 8. */
  function FormatRow(n: nat, i: nat): (r: nat)
    requires n >= 21 && i < 15
    ensures r < n
  {
    if i < 6 then i else if i < 8 then i + 1 else n - 15 + i
  }

  function FormatColumn(n: nat, i: nat): (c: nat)
    requires n >= 21 && i < 15
    ensures c < n
  {
    if i < 8 then n - 1 - i else if i == 8 then 7 else 14 - i
  }

  function FormatNumber(mask: nat): nat
    requires mask < 8
  {
    [0x5412, 0x5125, 0x5E7C, 0x5B4B, 0x45F9, 0x40CE, 0x4F97, 0x4AA0][mask]
  }

  function VersionNumber(version: nat): nat
    requires 7 <= version <= 10
  {
    [0x7C94, 0x85BC, 0x9A99, 0xA4D3][version - 7]
  }

  /** Both copies of the format word. */
  lemma FormatModules(q: QrMatrix, bytes: seq<Byte>, i: nat)
    requires IsEncoding(q, bytes) && i < 15
    ensures q.mask < 8 && |q.modules| == q.size >= 21 && forall r :: 0 <= r < q.size ==> |q.modules[r]| == q.size
    ensures q.modules[FormatRow(q.size, i)][8] == WordBit(FormatNumber(q.mask), i)
    ensures q.modules[8][FormatColumn(q.size, i)] == WordBit(FormatNumber(q.mask), i)
  {
    hide IsEncoding, SymbolDark, FormatWord, VersionWord, Pow2, StreamOf, FormatRow, FormatColumn;
    EncodingShape(q, bytes);
    WordNumbers(q.mask);
    FormatPlace(q.version, q.mask, StreamOf(bytes, q.version), VersionWord(q.version), i);
    ModuleOf(q, bytes, FormatRow(q.size, i), 8);
    ModuleOf(q, bytes, 8, FormatColumn(q.size, i));
    BitIsShift(FormatWord(q.mask), i);
  }

  lemma FormatPlace(v: nat, mask: nat, stream: seq<Byte>, versionWord: nat, i: nat)
    requires 1 <= v <= 10 && i < 15
    ensures Size(v) == 4 * v + 17
    ensures SymbolDark(v, mask, stream, versionWord, FormatRow(Size(v), i), 8) == Bit(FormatWord(mask), i)
    ensures SymbolDark(v, mask, stream, versionWord, 8, FormatColumn(Size(v), i)) == Bit(FormatWord(mask), i)
  {
    hide Bit, FormatWord, FixedPattern, Reserved, VersionArea;
  }

  /** Bit i of the version word is the i-th module of a block of six by three, row by row. */
  function VersionRow(i: nat): (r: nat)
    requires i < 18
    ensures r < 6
  {
    i / 3
  }

  function VersionColumn(n: nat, i: nat): (c: nat)
    requires n >= 21
    ensures c < n
  {
    n - 11 + i % 3
  }

  /** The version word left of the top right finder and, with rows and columns exchanged, above the bottom left. */
  lemma VersionModules(q: QrMatrix, bytes: seq<Byte>, i: nat)
    requires IsEncoding(q, bytes) && q.version >= 7 && i < 18
    ensures q.version <= 10 && |q.modules| == q.size >= 21
    ensures forall r :: 0 <= r < q.size ==> |q.modules[r]| == q.size
    ensures q.modules[VersionRow(i)][VersionColumn(q.size, i)] == WordBit(VersionNumber(q.version), i)
    ensures q.modules[VersionColumn(q.size, i)][VersionRow(i)] == WordBit(VersionNumber(q.version), i)
  {
    hide IsEncoding, SymbolDark, VersionWord, Pow2, StreamOf, VersionRow, VersionColumn;
    EncodingShape(q, bytes);
    WordNumbers(q.version);
    VersionShown(q.version, q.mask, StreamOf(bytes, q.version), VersionWord(q.version), i);
    ModuleOf(q, bytes, VersionRow(i), VersionColumn(q.size, i));
    ModuleOf(q, bytes, VersionColumn(q.size, i), VersionRow(i));
    BitIsShift(VersionWord(q.version), i);
  }

  lemma VersionShown(v: nat, mask: nat, stream: seq<Byte>, versionWord: nat, i: nat)
    requires 7 <= v <= 10 && i < 18
    ensures Size(v) == 4 * v + 17
    ensures var (a, b) := (VersionRow(i), VersionColumn(Size(v), i));
      && SymbolDark(v, mask, stream, versionWord, a, b) == Bit(versionWord, i)
      && SymbolDark(v, mask, stream, versionWord, b, a) == Bit(versionWord, i)
  {
    VersionPlace(v, i);
    hide Bit, FormatIndex, FixedPattern, VersionArea, VersionIndex, Reserved, SymbolDark;
    VersionCell(v, mask, stream, versionWord, VersionRow(i), VersionColumn(Size(v), i));
    VersionCell(v, mask, stream, versionWord, VersionColumn(Size(v), i), VersionRow(i));
  }

  lemma VersionCell(v: nat, mask: nat, stream: seq<Byte>, versionWord: nat, r: nat, c: nat)
    requires 1 <= v <= 10 && r < Size(v) && c < Size(v)
    requires VersionArea(v, r, c) && FormatIndex(Size(v), r, c) < 0 && !FixedPattern(v, r, c)
    requires VersionIndex(v, r, c) >= 0
    ensures SymbolDark(v, mask, stream, versionWord, r, c) == Bit(versionWord, VersionIndex(v, r, c))
  {
    hide Bit, FormatIndex, FixedPattern, VersionArea, VersionIndex, Reserved;
  }

  // ----- the data modules -----

  /** The two-column strip of a column, counted from the right; column 6 is left out. */
  function Strip(n: nat, c: nat): int {
    (if c > 6 then n - 1 - c else n - 2 - c) / 2
  }

  /** In strips from the right, upwards and downwards in turn, the right module of a row first. */
  predicate ComesBefore(n: nat, r: nat, c: nat, r': nat, c': nat) {
    || Strip(n, c) < Strip(n, c')
    || (Strip(n, c) == Strip(n, c') && if Strip(n, c) % 2 == 0 then r > r' else r < r')
    || (Strip(n, c) == Strip(n, c') && r == r' && c > c')
  }

  /** Bits are placed in this order. */
  lemma PlacedInOrder(v: nat, r: nat, c: nat, r': nat, c': nat)
    requires 1 <= v <= 10 && r < Size(v) && c < Size(v) && c != 6 && !Reserved(v, r, c)
    requires r' < Size(v) && c' < Size(v) && c' != 6 && !Reserved(v, r', c')
    ensures BitIndex(v, r, c) < BitIndex(v, r', c') <==> ComesBefore(Size(v), r, c, r', c')
  {
    var a, b := VisitOf(Size(v), r, c), VisitOf(Size(v), r', c');
    OrderIsVisit(Size(v), r, c, r', c');
    OrderIsVisit(Size(v), r', c', r, c);
    hide Reserved, Rank, ComesBefore, VisitOf;
    WalkVisitsAll(Size(v), r, c);
    WalkVisitsAll(Size(v), r', c');
    FreeVisitIs(v, a);
    FreeVisitIs(v, b);
    if Before(a, b) {
      RankAdvances(v, a, b);
    } else if Before(b, a) {
      RankAdvances(v, b, a);
    }
  }

  lemma OrderIsVisit(n: nat, r: nat, c: nat, r': nat, c': nat)
    requires WalkSize(n) && r < n && c < n && c != 6 && r' < n && c' < n && c' != 6
    ensures Before(VisitOf(n, r, c), VisitOf(n, r', c')) <==> ComesBefore(n, r, c, r', c')
  {
  }

  /** A data module shows its bit of the codewords, most significant bit first, inverted where the mask says;
      the remainder bits are light before masking. */
  lemma DataModules(q: QrMatrix, bytes: seq<Byte>, r: nat, c: nat)
    requires IsEncoding(q, bytes) && r < q.size && c < q.size && !Reserved(q.version, r, c)
    ensures c != 6 && r < |q.modules| && c < |q.modules[r]|
    ensures var stream, k := StreamOf(bytes, q.version), BitIndex(q.version, r, c);
      q.modules[r][c] == ((k < 8 * |stream| && WordBit(stream[k / 8], 7 - k % 8)) != Inverted(q.mask, r, c))
  {
    hide IsEncoding, SymbolDark, StreamOf, VersionWord, Reserved, BitIndex, Inverted, Pow2, SymbolBit;
    EncodingShape(q, bytes);
    ColumnSixReserved(q.version, r);
    ModuleOf(q, bytes, r, c);
    DataShown(q.version, q.mask, StreamOf(bytes, q.version), VersionWord(q.version), r, c);
    var stream, k := StreamOf(bytes, q.version), BitIndex(q.version, r, c);
    if k < 8 * |stream| {
      ShiftedBit(stream, k);
    } else {
      NoBit(stream, k);
    }
  }

  lemma NoBit(stream: seq<Byte>, k: nat)
    requires k >= 8 * |stream|
    ensures !SymbolBit(stream, k)
  {
  }

  lemma DataShown(v: nat, mask: nat, stream: seq<Byte>, versionWord: nat, r: nat, c: nat)
    requires 1 <= v <= 10 && r < Size(v) && c < Size(v) && c != 6 && !Reserved(v, r, c)
    ensures SymbolDark(v, mask, stream, versionWord, r, c)
         == (SymbolBit(stream, BitIndex(v, r, c)) != Inverted(mask, r, c))
  {
    FreeOfPatterns(v, r, c);
    MaskInverts(Module(0, false), mask, r, c);
    hide Reserved, FormatIndex, FixedPattern, VersionArea, SymbolBit, BitIndex, MaskBit;
  }
}
