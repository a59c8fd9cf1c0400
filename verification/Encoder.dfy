/** The encoder: draws the canvas, chooses a mask, returns the matrix. */
module Encoder {
  import opened Bits
  import opened Gf256
  import opened Bch
  import opened Versions
  import opened Wrappers
  import opened Codewords
  import opened Interleave
  import opened Layout
  import opened Zigzag
  import opened CanvasModule
  import opened Patterns
  import opened Placement
  import opened Symbol
  import Penalty

  datatype QrMatrix = QrMatrix(version: nat, size: nat, mask: nat, modules: seq<seq<bool>>)

  /** The canvas once the data is placed, showing the given format and version words. */
  function Drawn(v: nat, stream: seq<Byte>, formatWord: nat, versionWord: nat, r: int, c: int): Module
    requires 1 <= v <= 10 && InGrid(Size(v), r, c)
  {
    if FormatIndex(Size(v), r, c) >= 0 then Painted(Bit(formatWord, FormatIndex(Size(v), r, c)))
    else if FixedPattern(v, r, c) then Painted(FixedDark(v, r, c))
    else if VersionArea(v, r, c) then Painted(Bit(versionWord, VersionIndex(v, r, c)))
    else if Reserved(v, r, c) then Painted(false)
    else
      ColumnSixReserved(v, r);
      DataModule(stream, BitIndex(v, r, c))
  }

  ghost predicate Shows(canvas: Canvas, v: nat, stream: seq<Byte>, formatWord: nat, versionWord: nat)
    requires 1 <= v <= 10
    reads canvas.cells, canvas.reserved
  {
    && canvas.Valid() && canvas.size == Size(v)
    && forall r, c :: InGrid(Size(v), r, c) ==> canvas.At(r, c) == Drawn(v, stream, formatWord, versionWord, r, c)
  }

  /** The matrix of a symbol. */
  function Matrix(v: nat, mask: nat, stream: seq<Byte>, versionWord: nat): seq<seq<bool>>
    requires 1 <= v <= 10
  {
    seq(Size(v), r requires 0 <= r < Size(v) =>
      seq(Size(v), c requires 0 <= c < Size(v) => SymbolDark(v, mask, stream, versionWord, r, c)))
  }

  lemma MatrixIsSymbol(modules: seq<seq<bool>>, v: nat, mask: nat, stream: seq<Byte>, versionWord: nat)
    requires 1 <= v <= 10
    ensures IsSymbol(modules, v, mask, stream, versionWord) <==> modules == Matrix(v, mask, stream, versionWord)
  {
    hide SymbolDark;
    var m := Matrix(v, mask, stream, versionWord);
    if IsSymbol(modules, v, mask, stream, versionWord) {
      forall r | 0 <= r < Size(v)
        ensures modules[r] == m[r]
      {
        forall c | 0 <= c < Size(v)
          ensures modules[r][c] == m[r][c]
        {
        }
      }
    }
  }

  /** What a mask scores. The version word is not yet on the canvas when masks are scored. */
  ghost function Score(v: nat, mask: nat, stream: seq<Byte>): nat
    requires 1 <= v <= 10
  {
    Penalty.PenaltyScore(Matrix(v, mask, stream, 0))
  }

  /** Below version 7 the scored matrix is the finished one. */
  lemma ScoredIsFinal(v: nat, mask: nat, stream: seq<Byte>)
    requires 1 <= v <= 6
    ensures Matrix(v, mask, stream, 0) == Matrix(v, mask, stream, VersionWord(v))
  {
    hide FixedPattern, FixedDark, Reserved, SymbolBit, MaskBit, VersionWord, Bit, BitIndex;
    var m, f := Matrix(v, mask, stream, 0), Matrix(v, mask, stream, VersionWord(v));
    forall r | 0 <= r < Size(v)
      ensures m[r] == f[r]
    {
      forall c | 0 <= c < Size(v)
        ensures m[r][c] == f[r][c]
      {
      }
    }
  }

  method DrawCanvas(v: nat, stream: seq<Byte>) returns (canvas: Canvas)
    requires 1 <= v <= 10
    ensures fresh(canvas) && fresh(canvas.cells) && fresh(canvas.reserved)
    ensures Shows(canvas, v, stream, 0, 0)
  {
    hide Reserved, DataModule, Template, Index;
    canvas := PlacePatterns(v);
    PlaceData(canvas, v, stream, REMAINDER_BITS[v - 1]);
    forall r, c | InGrid(Size(v), r, c)
      ensures canvas.At(r, c) == Drawn(v, stream, 0, 0, r, c)
    {
      TemplateDrawn(v, stream, r, c);
    }
  }

  lemma TemplateDrawn(v: nat, stream: seq<Byte>, r: int, c: int)
    requires 1 <= v <= 10 && InGrid(Size(v), r, c)
    ensures Reserved(v, r, c) ==> Template(v, r, c) == Drawn(v, stream, 0, 0, r, c)
    ensures !Reserved(v, r, c) ==> c != 6 && DataModule(stream, BitIndex(v, r, c)) == Drawn(v, stream, 0, 0, r, c)
  {
    ColumnSixReserved(v, r);
    if FormatIndex(Size(v), r, c) >= 0 {
      ZeroBits(FormatIndex(Size(v), r, c));
    } else if VersionArea(v, r, c) {
      ZeroBits(VersionIndex(v, r, c));
    }
    hide DataModule, BitIndex, FixedDark;
    FormatOutsidePatterns(v, r, c);
  }

  lemma FormatOutsidePatterns(v: nat, r: int, c: int)
    requires 1 <= v <= 10 && InGrid(Size(v), r, c)
    ensures FormatIndex(Size(v), r, c) >= 0 ==> Reserved(v, r, c) && !FixedPattern(v, r, c) && !VersionArea(v, r, c)
    ensures VersionArea(v, r, c) ==> !FixedPattern(v, r, c)
    ensures DarkModule(Size(v), r, c) ==> FixedPattern(v, r, c) && FixedDark(v, r, c)
  {
  }

  method DrawFormat(canvas: Canvas, mask: nat, ghost v: nat, ghost stream: seq<Byte>, ghost formatWord: nat)
    requires 1 <= v <= 10 && mask < 8 && Shows(canvas, v, stream, formatWord, 0)
    modifies canvas.cells, canvas.reserved
    ensures Shows(canvas, v, stream, FormatWord(mask), 0)
  {
    hide Reserved, DataModule, Index, FormatWord, FixedPattern, FixedDark, Bit, VersionArea, FormatIndex;
    WriteFormatInfo(canvas, mask);
    forall r, c | InGrid(Size(v), r, c)
      ensures canvas.At(r, c) == Drawn(v, stream, FormatWord(mask), 0, r, c)
    {
      FormatOutsidePatterns(v, r, c);
    }
  }

  method DrawVersion(canvas: Canvas, v: nat, ghost stream: seq<Byte>, ghost formatWord: nat)
    requires 1 <= v <= 10 && Shows(canvas, v, stream, formatWord, 0)
    modifies canvas.cells, canvas.reserved
    ensures Shows(canvas, v, stream, formatWord, VersionWord(v))
  {
    hide Reserved, DataModule, Index, VersionWord, FixedPattern, FixedDark, Bit, VersionArea, FormatIndex;
    WriteVersionInfo(canvas, v);
    forall r, c | InGrid(Size(v), r, c)
      ensures canvas.At(r, c) == Drawn(v, stream, formatWord, VersionWord(v), r, c)
    {
      FormatOutsidePatterns(v, r, c);
    }
  }

  /** Masking a drawn canvas gives the symbol. */
  method MaskedMatrix(canvas: Canvas, mask: nat, ghost v: nat, ghost stream: seq<Byte>, ghost versionWord: nat)
    returns (modules: seq<seq<bool>>)
    requires 1 <= v <= 10 && mask < 8 && Shows(canvas, v, stream, FormatWord(mask), versionWord)
    ensures modules == Matrix(v, mask, stream, versionWord)
  {
    hide Reserved, Index, FormatWord, FixedPattern, FixedDark, Bit, VersionArea, FormatIndex, BitIndex, SymbolBit,
      MaskBit, Matrix;
    modules := ApplyMask(canvas, mask);
    MatrixIsSymbol(modules, v, mask, stream, versionWord);
  }

  /** Scores all eight masks; the first of the best wins. */
  method ChooseMask(canvas: Canvas, v: nat, ghost stream: seq<Byte>) returns (chosen: nat, ghost formatWord: nat)
    requires 1 <= v <= 10 && Shows(canvas, v, stream, 0, 0)
    modifies canvas.cells, canvas.reserved
    ensures chosen < 8 && Shows(canvas, v, stream, formatWord, 0)
    ensures forall k: nat :: k < 8 ==> Score(v, chosen, stream) <= Score(v, k, stream)
    ensures forall k: nat :: k < chosen ==> Score(v, chosen, stream) < Score(v, k, stream)
  {
    hide Shows, Matrix, Index, FormatWord, Score, Penalty.PenaltyScore, Penalty.IsSquare;
    var best: Option<nat> := None;
    chosen, formatWord := 0, 0;
    for mask := 0 to 8
      invariant Shows(canvas, v, stream, formatWord, 0)
      invariant best.None? <==> mask == 0
      invariant best.Some? ==> chosen < mask && best.value == Score(v, chosen, stream)
      invariant forall k: nat :: k < mask ==> Score(v, chosen, stream) <= Score(v, k, stream)
      invariant forall k: nat :: k < chosen ==> Score(v, chosen, stream) < Score(v, k, stream)
    {
      DrawFormat(canvas, mask, v, stream, formatWord);
      formatWord := FormatWord(mask);
      var modules := MaskedMatrix(canvas, mask, v, stream, 0);
      MatrixSquare(v, mask, stream);
      var penalty := Penalty.MaskPenalty(modules);
      if best.None? || penalty < best.value {
        best := Some(penalty);
        chosen := mask;
      }
    }
  }

  lemma MatrixSquare(v: nat, mask: nat, stream: seq<Byte>)
    requires 1 <= v <= 10
    ensures var m := Matrix(v, mask, stream, 0);
      |m| == Size(v) && Penalty.IsSquare(m) && Penalty.PenaltyScore(m) == Score(v, mask, stream)
  {
    hide SymbolDark, Penalty.PenaltyScore;
  }

  // ----- reading a finished matrix -----

  /** The reader recovers every payload from its symbol, in every version that fits it, with every mask and
      whatever word the version areas show. */
  lemma RoundTrip(bytes: seq<Byte>, v: nat, mask: nat, versionWord: nat)
    requires 1 <= v <= 10 && mask < 8 && Fits(|bytes|, SpecOf(v))
    ensures Decode(Matrix(v, mask, StreamOf(bytes, v), versionWord)) == Some(bytes)
  {
    hide Decode, Matrix, StreamOf, IsSymbol, SpecOf;
    var m := Matrix(v, mask, StreamOf(bytes, v), versionWord);
    MatrixIsSymbol(m, v, mask, StreamOf(bytes, v), versionWord);
    DecodeSymbol(m, bytes, v, mask, versionWord);
  }

  /** Both copies of the format word and of the version word can be read off the matrix. */
  lemma WordsShown(v: nat, mask: nat, stream: seq<Byte>, first: bool)
    requires 1 <= v <= 10 && mask < 8
    ensures ReadFormatWord(Matrix(v, mask, stream, VersionWord(v)), first) == FormatWord(mask)
    ensures v >= 7 ==>
      && ReadVersionWord(Matrix(v, mask, stream, VersionWord(v)), first) == VersionWord(v)
      && VersionWord(v) / Pow2(12) == v
  {
    hide Matrix, IsSymbol, VersionWord, FormatWord, ReadFormatWord, ReadVersionWord, Pow2;
    var m := Matrix(v, mask, stream, VersionWord(v));
    MatrixIsSymbol(m, v, mask, stream, VersionWord(v));
    FormatWordRead(m, v, mask, stream, VersionWord(v), first);
    if v >= 7 {
      VersionWordRead(m, v, mask, stream, first);
    }
  }

  /** A matrix shows one payload, one version and one mask. */
  lemma EncodingInjective(a: seq<Byte>, v: nat, mask: nat, b: seq<Byte>, w: nat, mask': nat)
    requires 1 <= v <= 10 && mask < 8 && Fits(|a|, SpecOf(v))
    requires 1 <= w <= 10 && mask' < 8 && Fits(|b|, SpecOf(w))
    ensures Matrix(v, mask, StreamOf(a, v), VersionWord(v)) == Matrix(w, mask', StreamOf(b, w), VersionWord(w))
       <==> a == b && v == w && mask == mask'
  {
    hide Decode, StreamOf, SpecOf, VersionWord, FormatWord, ReadFormatWord, ReadVersionWord, Pow2, SymbolDark, Matrix;
    RoundTrip(a, v, mask, VersionWord(v));
    RoundTrip(b, w, mask', VersionWord(w));
    WordsShown(v, mask, StreamOf(a, v), true);
    WordsShown(w, mask', StreamOf(b, w), true);
    FormatWordFacts(mask);
    FormatWordFacts(mask');
    MatrixRows(v, mask, StreamOf(a, v), VersionWord(v));
    MatrixRows(w, mask', StreamOf(b, w), VersionWord(w));
  }

  lemma MatrixRows(v: nat, mask: nat, stream: seq<Byte>, versionWord: nat)
    requires 1 <= v <= 10
    ensures |Matrix(v, mask, stream, versionWord)| == 4 * v + 17
  {
    hide SymbolDark;
  }

  /** The smallest version that fits, its size, and exactly the modules of that symbol. */
  ghost predicate IsEncoding(q: QrMatrix, bytes: seq<Byte>) {
    && 1 <= q.version <= 10 && q.size == Size(q.version) && q.mask < 8
    && Fits(|bytes|, SpecOf(q.version))
    && (forall i :: 0 <= i < q.version - 1 ==> !Fits(|bytes|, VERSIONS_M[i]))
    && q.modules == Matrix(q.version, q.mask, StreamOf(bytes, q.version), VersionWord(q.version))
  }

  /** The first of the masks with the least score. */
  ghost predicate IsBestMask(v: nat, mask: nat, bytes: seq<Byte>)
    requires 1 <= v <= 10
  {
    var stream := StreamOf(bytes, v);
    && (forall k: nat :: k < 8 ==> Score(v, mask, stream) <= Score(v, k, stream))
    && (forall k: nat :: k < mask ==> Score(v, mask, stream) < Score(v, k, stream))
  }

  /** Encodes the UTF-8 bytes of a text, with a forced mask or the best of the eight. */
  method EncodeQr(gf: Tables, bytes: seq<Byte>, forced: Option<int>) returns (result: Result<QrMatrix>)
    requires gf.Valid()
    ensures result.Err? ==>
      result.error == (if bytes == [] then EmptyPayload else if |bytes| > 213 then PayloadTooLong else InvalidMask)
    ensures result.Err? <==> bytes == [] || |bytes| > 213 || (forced.Some? && !(0 <= forced.value < 8))
    ensures result.Ok? ==> IsEncoding(result.value, bytes)
    ensures result.Ok? ==> Decode(result.value.modules) == Some(bytes)
    ensures result.Ok? && forced.Some? ==> result.value.mask == forced.value
    ensures result.Ok? && forced.None? ==> IsBestMask(result.value.version, result.value.mask, bytes)
  {
    hide Shows, Matrix, Index, FormatWord, VersionWord, Score, Alpha, DataCodewords, FinalCodewords, DataCodewordCount,
      Decode;
    if bytes == [] {
      return Err(EmptyPayload);
    }
    var choice := ChooseVersion(|bytes|);
    if choice.Err? {
      return Err(choice.error);
    }
    var spec := choice.value;
    var v := spec.version;
    var data := BuildDataCodewords(bytes, spec);
    var stream := InterleaveCodewords(gf, data, spec);
    var canvas := DrawCanvas(v, stream);

    var mask: nat := 0;
    ghost var formatWord := 0;
    if forced.Some? {
      if forced.value < 0 || forced.value > 7 {
        return Err(InvalidMask);
      }
      mask := forced.value;
    } else {
      mask, formatWord := ChooseMask(canvas, v, stream);
    }
    DrawFormat(canvas, mask, v, stream, formatWord);
    DrawVersion(canvas, v, stream, FormatWord(mask));
    var modules := MaskedMatrix(canvas, mask, v, stream, VersionWord(v));
    RoundTrip(bytes, v, mask, VersionWord(v));
    result := Ok(QrMatrix(v, Size(v), mask, modules));
  }

  /** Below version 7 the chosen mask is the best for the finished matrix too. */
  lemma BestForFinalMatrix(v: nat, mask: nat, bytes: seq<Byte>, k: nat)
    requires 1 <= v <= 6 && IsBestMask(v, mask, bytes) && k < 8
    ensures var stream, word := StreamOf(bytes, v), VersionWord(v);
      Penalty.PenaltyScore(Matrix(v, mask, stream, word)) <= Penalty.PenaltyScore(Matrix(v, k, stream, word))
  {
    hide Matrix, StreamOf, VersionWord, Penalty.PenaltyScore;
    ScoredIsFinal(v, mask, StreamOf(bytes, v));
    ScoredIsFinal(v, k, StreamOf(bytes, v));
    MatrixSquare(v, mask, StreamOf(bytes, v));
    MatrixSquare(v, k, StreamOf(bytes, v));
  }

  /** Finder, alignment, timing and dark modules keep the colour they were placed with. */
  lemma PatternsIntact(q: QrMatrix, bytes: seq<Byte>, r: nat, c: nat)
    requires IsEncoding(q, bytes) && r < q.size && c < q.size && FixedPattern(q.version, r, c)
    ensures |q.modules| == q.size && |q.modules[r]| == q.size
    ensures q.modules[r][c] == FixedDark(q.version, r, c)
  {
    hide FixedPattern, FixedDark, Reserved, Bit, StreamOf, VersionWord, Fits;
    FormatOutsidePatterns(q.version, r, c);
  }

  /** The codewords that two matrices show under a mask are close, block by block. */
  ghost predicate ShowsClose(m: seq<seq<bool>>, damaged: seq<seq<bool>>, v: nat, mask: nat)
    requires 1 <= v <= 10
  {
    BlocksClose(ReadStream(m, v, mask), ReadStream(damaged, v, mask), v)
  }

  /** A matrix that shows at most half as many wrong codewords in each block of a symbol as the block has
      check symbols still determines the payload. */
  lemma DamagedMatrix(damaged: seq<seq<bool>>, v: nat, mask: nat, a: seq<Byte>, b: seq<Byte>)
    requires 1 <= v <= 10 && mask < 8 && Fits(|a|, SpecOf(v)) && Fits(|b|, SpecOf(v))
    requires ShowsClose(Matrix(v, mask, StreamOf(a, v), VersionWord(v)), damaged, v, mask)
    requires ShowsClose(Matrix(v, mask, StreamOf(b, v), VersionWord(v)), damaged, v, mask)
    ensures a == b
  {
    hide StreamOf, SpecOf, VersionWord, Matrix, Fits, BlocksClose, ReadStream;
    MatrixShowsStream(a, v, mask);
    MatrixShowsStream(b, v, mask);
    DamagedStream(ReadStream(damaged, v, mask), v, a, b);
  }

  lemma MatrixShowsStream(bytes: seq<Byte>, v: nat, mask: nat)
    requires 1 <= v <= 10 && mask < 8
    ensures |StreamOf(bytes, v)| == TOTAL_CODEWORDS[v - 1]
    ensures ReadStream(Matrix(v, mask, StreamOf(bytes, v), VersionWord(v)), v, mask) == StreamOf(bytes, v)
  {
    hide StreamOf, VersionWord, Matrix, IsSymbol, ReadStream;
    StreamOfLength(bytes, v);
    var m := Matrix(v, mask, StreamOf(bytes, v), VersionWord(v));
    MatrixIsSymbol(m, v, mask, StreamOf(bytes, v), VersionWord(v));
    StreamRead(m, v, mask, StreamOf(bytes, v), VersionWord(v));
  }
}
