/** Placing the codeword bits along the zigzag walk, and applying a mask. */
module Placement {
  import opened Arithmetic
  import opened Bits
  import opened Gf256
  import opened Codewords
  import opened Layout
  import opened CanvasModule
  import opened Patterns
  import opened Zigzag

  /** Bit k of the symbol: a codeword bit, or a light remainder bit. */
  predicate SymbolBit(codewords: seq<Byte>, k: nat) {
    k < 8 * |codewords| && BitsOfBytes(codewords)[k]
  }

  function DataModule(codewords: seq<Byte>, k: nat): Module {
    Module(if SymbolBit(codewords, k) then 1 else 0, false)
  }

  lemma ShiftedBit(codewords: seq<Byte>, k: nat)
    requires k < 8 * |codewords|
    ensures (codewords[k / 8] / Pow2(7 - k % 8)) % 2 == 1 <==> SymbolBit(codewords, k)
  {
    hide BitsOf, Pow2, Bit;
    BitsOfAt(codewords[k / 8], 8, k % 8);
    BitIsShift(codewords[k / 8], 7 - k % 8);
  }

  /** What a module shows once the walk has come to visit w, starting from the template. */
  function Placed(v: nat, codewords: seq<Byte>, w: Visit, r: int, c: int): Module
    requires InGrid(Size(v), r, c)
  {
    if c != 6 && !Reserved(v, r, c) && Before(VisitOf(Size(v), r, c), w) then DataModule(codewords, BitIndex(v, r, c))
    else Template(v, r, c)
  }

  /** The canvas when the walk has come to visit w. */
  ghost predicate PlacedUpTo(canvas: Canvas, v: nat, codewords: seq<Byte>, w: Visit)
    requires canvas.Valid() && canvas.size == Size(v)
    reads canvas.cells, canvas.reserved
  {
    forall r, c :: InGrid(canvas.size, r, c) ==> canvas.At(r, c) == Placed(v, codewords, w, r, c)
  }

  /** Moving on by one visit places exactly the visited module. */
  lemma PlacedStep(v: nat, codewords: seq<Byte>, w: Visit, r: int, c: int)
    requires 1 <= v <= 10 && IsVisit(Size(v), w) && InGrid(Size(v), r, c)
    ensures Placed(v, codewords, w.(left := w.left + 1), r, c) ==
      if r == RowOf(Size(v), w) && c == ColOf(Size(v), w) && !Reserved(v, r, c)
      then DataModule(codewords, Rank(v, w)) else Placed(v, codewords, w, r, c)
  {
    hide Reserved, Rank, DataModule, Template;
    WalkVisitsOnce(Size(v), w);
    if c != 6 {
      WalkVisitsAll(Size(v), r, c);
    }
  }

  /** The next column, step or pair of the walk begins where the last one ends. */
  lemma PlacedBoundary(v: nat, codewords: seq<Byte>, pair: nat, step: nat, r: int, c: int)
    requires 1 <= v <= 10 && InGrid(Size(v), r, c)
    ensures Placed(v, codewords, Visit(pair, step, 2), r, c) == Placed(v, codewords, Visit(pair, step + 1, 0), r, c)
    ensures Placed(v, codewords, Visit(pair, Size(v), 0), r, c) == Placed(v, codewords, Visit(pair + 1, 0, 0), r, c)
    ensures Placed(v, codewords, Visit(0, 0, 0), r, c) == Template(v, r, c)
    ensures !Reserved(v, r, c) ==>
      c != 6 && Placed(v, codewords, Visit(PairCount(Size(v)), 0, 0), r, c) == DataModule(codewords, BitIndex(v, r, c))
    ensures Reserved(v, r, c) ==> Placed(v, codewords, Visit(pair, step, 0), r, c) == Template(v, r, c)
  {
    ColumnSixReserved(v, r);
    hide Reserved, Rank, DataModule, Template;
    if c != 6 {
      WalkVisitsAll(Size(v), r, c);
    }
  }

  lemma RankBoundary(v: nat, pair: nat, step: nat)
    ensures Rank(v, Visit(pair, step, 2)) == Rank(v, Visit(pair, step + 1, 0))
    ensures Rank(v, Visit(pair, Size(v), 0)) == Rank(v, Visit(pair + 1, 0, 0))
    ensures Rank(v, Visit(0, 0, 0)) == 0
  {
    hide FreeVisit;
  }

  lemma TemplateFlags(v: nat, codewords: seq<Byte>, w: Visit, r: int, c: int)
    requires InGrid(Size(v), r, c)
    ensures Placed(v, codewords, w, r, c).reserved <==> Reserved(v, r, c)
  {
  }

  lemma RankStep(v: nat, w: Visit)
    requires w.left < 2
    ensures Rank(v, w.(left := w.left + 1)) == Rank(v, w) + FreeVisit(v, w)
  {
    hide FreeVisit, StepRank, PairRank;
    assert w == Visit(w.pair, w.step, w.left);
  }

  /** One module of the walk. */
  method PlaceModule(canvas: Canvas, v: nat, codewords: seq<Byte>, totalBits: nat, row: int, column: int, bitIndex: nat,
                     ghost w: Visit)
    returns (next: nat)
    requires canvas.Valid() && canvas.size == Size(v) && 1 <= v <= 10 && IsVisit(Size(v), w)
    requires row == RowOf(Size(v), w) && column == ColOf(Size(v), w)
    requires PlacedUpTo(canvas, v, codewords, w) && bitIndex == Rank(v, w) && totalBits >= 8 * |codewords|
    modifies canvas.cells, canvas.reserved
    ensures PlacedUpTo(canvas, v, codewords, w.(left := w.left + 1)) && next == Rank(v, w.(left := w.left + 1))
  {
    hide Index, Reserved, BitsOfBytes, Rank, Placed;
    WalkVisitsOnce(Size(v), w);
    RankStep(v, w);
    TemplateFlags(v, codewords, w, row, column);
    next := bitIndex;
    var taken := canvas.IsReserved(row, column);
    if !taken {
      var dark := false;
      if bitIndex < totalBits && bitIndex < 8 * |codewords| {
        ShiftedBit(codewords, bitIndex);
        dark := (codewords[bitIndex / 8] / Pow2(7 - bitIndex % 8)) % 2 == 1;
      }
      next := bitIndex + 1;
      canvas.SetModule(row, column, dark, false);
    }
    forall r, c | InGrid(canvas.size, r, c)
      ensures canvas.At(r, c) == Placed(v, codewords, w.(left := w.left + 1), r, c)
    {
      PlacedStep(v, codewords, w, r, c);
    }
  }

  /** One pair of columns, upwards or downwards. */
  method PlacePair(canvas: Canvas, v: nat, codewords: seq<Byte>, totalBits: nat, ghost pair: nat, col: nat, upward: bool,
                   start: nat)
    returns (bitIndex: nat)
    requires canvas.Valid() && canvas.size == Size(v) && 1 <= v <= 10 && pair < PairCount(Size(v))
    requires col == PairColumn(Size(v), pair) && (upward <==> pair % 2 == 0)
    requires PlacedUpTo(canvas, v, codewords, Visit(pair, 0, 0)) && start == Rank(v, Visit(pair, 0, 0))
    requires totalBits >= 8 * |codewords|
    modifies canvas.cells, canvas.reserved
    ensures PlacedUpTo(canvas, v, codewords, Visit(pair + 1, 0, 0)) && bitIndex == Rank(v, Visit(pair + 1, 0, 0))
  {
    hide Index, Rank, Placed;
    bitIndex := start;
    for step := 0 to canvas.size
      invariant PlacedUpTo(canvas, v, codewords, Visit(pair, step, 0)) && bitIndex == Rank(v, Visit(pair, step, 0))
    {
      var row := if upward then canvas.size - 1 - step else step;
      for c := 0 to 2
        invariant PlacedUpTo(canvas, v, codewords, Visit(pair, step, c)) && bitIndex == Rank(v, Visit(pair, step, c))
      {
        bitIndex := PlaceModule(canvas, v, codewords, totalBits, row, col - c, bitIndex, Visit(pair, step, c));
      }
      RankBoundary(v, pair, step);
      forall r, c | InGrid(canvas.size, r, c)
        ensures canvas.At(r, c) == Placed(v, codewords, Visit(pair, step + 1, 0), r, c)
      {
        PlacedBoundary(v, codewords, pair, step, r, c);
      }
    }
    RankBoundary(v, pair, 0);
    forall r, c | InGrid(canvas.size, r, c)
      ensures canvas.At(r, c) == Placed(v, codewords, Visit(pair + 1, 0, 0), r, c)
    {
      PlacedBoundary(v, codewords, pair, 0, r, c);
    }
  }

  method PlaceData(canvas: Canvas, v: nat, codewords: seq<Byte>, remainderBits: nat)
    requires canvas.Valid() && canvas.size == Size(v) && 1 <= v <= 10
    requires forall r, c :: InGrid(canvas.size, r, c) ==> canvas.At(r, c) == Template(v, r, c)
    modifies canvas.cells, canvas.reserved
    ensures forall r, c :: InGrid(canvas.size, r, c) ==>
      canvas.At(r, c) == (if Reserved(v, r, c) then Template(v, r, c)
                          else (ColumnSixReserved(v, r); DataModule(codewords, BitIndex(v, r, c))))
  {
    hide Index, Reserved, DataModule, Rank, Placed, Template;
    var size := canvas.size;
    var totalBits := 8 * |codewords| + remainderBits;
    var bitIndex := 0;
    var upward := true;
    ghost var pair := 0;
    RankBoundary(v, 0, 0);
    forall r, c | InGrid(size, r, c)
      ensures Placed(v, codewords, Visit(0, 0, 0), r, c) == Template(v, r, c)
    {
      PlacedBoundary(v, codewords, 0, 0, r, c);
    }
    var col := size - 1;
    while col > 0
      invariant 0 <= pair <= PairCount(size)
      invariant col == (if size - 1 - 2 * pair >= 6 then size - 1 - 2 * pair else size - 2 - 2 * pair)
      invariant upward <==> pair % 2 == 0
      invariant PlacedUpTo(canvas, v, codewords, Visit(pair, 0, 0)) && bitIndex == Rank(v, Visit(pair, 0, 0))
      decreases col
    {
      if col == 6 {
        col := col - 1;
      }
      bitIndex := PlacePair(canvas, v, codewords, totalBits, pair, col, upward, bitIndex);
      upward := !upward;
      col := col - 2;
      pair := pair + 1;
    }
    forall r, c | InGrid(size, r, c)
      ensures canvas.At(r, c) == (if Reserved(v, r, c) then Template(v, r, c)
                                  else (ColumnSixReserved(v, r); DataModule(codewords, BitIndex(v, r, c))))
    {
      PlacedBoundary(v, codewords, PairCount(size), 0, r, c);
    }
  }

  // ----- masking -----

  /** The colour a module has after masking. */
  predicate Masked(m: Module, mask: nat, r: nat, c: nat) {
    if m.reserved then m.value == 1 else (m.value == 1) != MaskBit(mask, r, c)
  }

  ghost predicate IsMatrix(modules: seq<seq<bool>>, n: nat) {
    |modules| == n && forall r :: 0 <= r < n ==> |modules[r]| == n
  }

  /** Whether a light data module comes out dark. */
  predicate Inverted(mask: nat, r: nat, c: nat) {
    Masked(Module(0, false), mask, r, c)
  }

  /** Every data module is inverted or kept alike, and no reserved module is. */
  lemma MaskInverts(m: Module, mask: nat, r: nat, c: nat)
    ensures Masked(m, mask, r, c) == if m.reserved then m.value == 1 else (m.value == 1) != Inverted(mask, r, c)
  {
  }

  lemma AllInvertOrigin(mask: nat)
    ensures Inverted(mask, 0, 0)
  {
  }

  lemma StripeFormulas(r: nat, c: nat)
    ensures Inverted(0, r, c) <==> (r + c) % 2 == 0
    ensures Inverted(1, r, c) <==> r % 2 == 0
    ensures Inverted(2, r, c) <==> c % 3 == 0
    ensures Inverted(3, r, c) <==> (r + c) % 3 == 0
  {
  }

  lemma TileFormula(r: nat, c: nat)
    ensures Inverted(4, r, c) <==> (r / 2 + c / 3) % 2 == 0
  {
  }

  lemma ProductFormulas(r: nat, c: nat)
    ensures Inverted(5, r, c) <==> (r * c) % 2 + (r * c) % 3 == 0
    ensures Inverted(6, r, c) <==> ((r * c) % 2 + (r * c) % 3) % 2 == 0
    ensures Inverted(7, r, c) <==> ((r + c) % 2 + (r * c) % 3) % 2 == 0
  {
  }

  lemma ParityChanges(x: int)
    ensures (x + 1) % 2 == 0 <==> x % 2 != 0
  {
  }

  /** Mask 0 is a chequerboard, mask 1 inverts every other row, mask 2 every third column and mask 3 every
      third diagonal. */
  lemma StripeMasks(r: nat, c: nat)
    ensures Inverted(0, r + 1, c) == !Inverted(0, r, c) && Inverted(0, r, c + 1) == !Inverted(0, r, c)
    ensures Inverted(1, r + 1, c) == !Inverted(1, r, c) && Inverted(1, r, c + 1) == Inverted(1, r, c)
    ensures Inverted(2, r, c) <==> c % 3 == 0
    ensures Inverted(3, r, c) <==> (r + c) % 3 == 0
  {
    hide *;
    StripeFormulas(r, c);
    StripeFormulas(r + 1, c);
    StripeFormulas(r, c + 1);
    ParityChanges(r + c);
    ParityChanges(r);
  }

  lemma TileOf(i: nat, y: nat, n: nat)
    requires y < n
    ensures (n * i + y) / n == i
  {
    DivUnique(n * i + y, n, i, y);
  }

  /** Mask 4 inverts alternate tiles of two rows by three columns. */
  lemma TileMask(i: nat, j: nat, y: nat, x: nat)
    requires y < 2 && x < 3
    ensures Inverted(4, 2 * i + y, 3 * j + x) <==> Inverted(4, 2 * i, 3 * j)
    ensures Inverted(4, 2 * (i + 1), 3 * j) == !Inverted(4, 2 * i, 3 * j)
    ensures Inverted(4, 2 * i, 3 * (j + 1)) == !Inverted(4, 2 * i, 3 * j)
  {
    hide *;
    TileParity(i, j, y, x);
    TileParity(i, j, 0, 0);
    TileParity(i + 1, j, 0, 0);
    TileParity(i, j + 1, 0, 0);
    ParityChanges(i + j);
  }

  lemma TileParity(i: nat, j: nat, y: nat, x: nat)
    requires y < 2 && x < 3
    ensures Inverted(4, 2 * i + y, 3 * j + x) <==> (i + j) % 2 == 0
  {
    hide *;
    TileFormula(2 * i + y, 3 * j + x);
    TileOf(i, y, 2);
    TileOf(j, x, 3);
  }

  /** Masks 5 and 6 go by row times column modulo six, mask 7 by its remainder modulo three against the
      parity of row plus column. */
  lemma ProductMasks(r: nat, c: nat)
    ensures Inverted(5, r, c) <==> r * c % 6 == 0
    ensures Inverted(6, r, c) <==> r * c % 6 < 3
    ensures Inverted(7, r, c) <==> ((r + c) % 2 == 1 <==> r * c % 3 == 1)
  {
    hide *;
    ProductFormulas(r, c);
    ProductNonNegative(r, c);
    ModuloSix(r * c);
    ModuloThree((r + c) % 2, r * c);
  }

  /** Both remainders follow from the one modulo six. */
  lemma ModuloSix(p: nat)
    ensures p % 2 + p % 3 == 0 <==> p % 6 == 0
    ensures (p % 2 + p % 3) % 2 == 0 <==> p % 6 < 3
  {
    var q, r := p / 6, p % 6;
    DivUnique(p, 2, 3 * q + r / 2, r % 2);
    DivUnique(p, 3, 2 * q + r / 3, r % 3);
  }

  lemma ModuloThree(b: int, p: nat)
    requires 0 <= b < 2
    ensures (b + p % 3) % 2 == 0 <==> (b == 1 <==> p % 3 == 1)
  {
  }

  method ApplyMask(canvas: Canvas, mask: nat) returns (modules: seq<seq<bool>>)
    requires canvas.Valid()
    ensures IsMatrix(modules, canvas.size)
    ensures forall r, c :: InGrid(canvas.size, r, c) ==> modules[r][c] == Masked(canvas.At(r, c), mask, r, c)
  {
    hide Index, MaskBit;
    modules := [];
    for row := 0 to canvas.size
      invariant |modules| == row
      invariant forall r :: 0 <= r < row ==> |modules[r]| == canvas.size
      invariant forall r, c :: 0 <= r < row && 0 <= c < canvas.size ==>
        modules[r][c] == Masked(canvas.At(r, c), mask, r, c)
    {
      var line := [];
      for col := 0 to canvas.size
        invariant |line| == col
        invariant forall c :: 0 <= c < col ==> line[c] == Masked(canvas.At(row, c), mask, row, c)
      {
        var value := canvas.At(row, col).value == 1;
        var reserved := canvas.IsReserved(row, col);
        var masked := if reserved then value else value != MaskBit(mask, row, col);
        line := line + [masked];
      }
      modules := modules + [line];
    }
  }
}
