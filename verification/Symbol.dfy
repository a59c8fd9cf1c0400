/** The finished symbol in closed form, and a reader that recovers the payload from its modules. */
module Symbol {
  import opened Bits
  import opened Gf256
  import opened Bch
  import opened Versions
  import opened Wrappers
  import opened Codewords
  import opened ReedSolomon
  import opened Interleave
  import opened Layout
  import opened Zigzag
  import opened Capacity
  import opened Placement
  import Penalty

  function SpecOf(v: nat): VersionSpec
    requires 1 <= v <= 10
  {
    VERSIONS_M[v - 1]
  }

  /** The codewords of a payload in a version, in their final order. */
  function StreamOf(bytes: seq<Byte>, v: nat): seq<Byte>
    requires 1 <= v <= 10
  {
    FinalCodewords(DataCodewords(bytes, SpecOf(v)), SpecOf(v))
  }

  /** The colour of a module; the version areas show the given word. */
  predicate SymbolDark(v: nat, mask: nat, stream: seq<Byte>, versionWord: nat, r: nat, c: nat)
    requires 1 <= v <= 10 && r < Size(v) && c < Size(v)
  {
    if FormatIndex(Size(v), r, c) >= 0 then Bit(FormatWord(mask), FormatIndex(Size(v), r, c))
    else if FixedPattern(v, r, c) then FixedDark(v, r, c)
    else if VersionArea(v, r, c) then Bit(versionWord, VersionIndex(v, r, c))
    else if Reserved(v, r, c) then false
    else
      ColumnSixReserved(v, r);
      SymbolBit(stream, BitIndex(v, r, c)) != MaskBit(mask, r, c)
  }

  /** The matrix is the symbol with this mask and stream. */
  ghost predicate IsSymbol(modules: seq<seq<bool>>, v: nat, mask: nat, stream: seq<Byte>, versionWord: nat)
    requires 1 <= v <= 10
  {
    && IsMatrix(modules, Size(v))
    && forall r: nat, c: nat :: r < Size(v) && c < Size(v) ==>
         modules[r][c] == SymbolDark(v, mask, stream, versionWord, r, c)
  }

  // ----- the reader -----

  /** The format word shown by one of its copies. */
  function ReadFormatWord(modules: seq<seq<bool>>, first: bool): nat {
    ValueOf(seq(15, k requires 0 <= k < 15 => FormatBitAt(modules, first, 14 - k)))
  }

  predicate FormatBitAt(modules: seq<seq<bool>>, first: bool, i: nat) {
    var (r, c) := if first then FirstCopy(|modules|, i) else SecondCopy(|modules|, i);
    Penalty.Dark(modules, r, c)
  }

  /** The modules with the mask taken off. */
  function Unmasked(modules: seq<seq<bool>>, mask: nat): (int, int) -> bool {
    (r, c) => r >= 0 && c >= 0 && Penalty.Dark(modules, r, c) != MaskBit(mask, r, c)
  }

  /** The final codewords shown by the data modules. */
  function ReadStream(modules: seq<seq<bool>>, v: nat, mask: nat): (stream: seq<Byte>)
    requires 1 <= v <= 10
    ensures |stream| == TOTAL_CODEWORDS[v - 1]
  {
    BytesOfBits(ReadPairs(v, Unmasked(modules, mask), PairCount(Size(v))), TOTAL_CODEWORDS[v - 1])
  }

  lemma StreamLength(v: nat)
    requires 1 <= v <= 10
    ensures DataCodewordCount(SpecOf(v)) + |BlockSizes(SpecOf(v))| * SpecOf(v).ecPerBlock == TOTAL_CODEWORDS[v - 1]
  {
    InTableAt(v - 1);
    BlocksFillSymbol(SpecOf(v));
  }

  /** Size, format word, mask, zigzag walk, blocks, payload. */
  function Decode(modules: seq<seq<bool>>): Option<seq<Byte>> {
    var n := |modules|;
    if n < 21 || n > 57 || (n - 17) % 4 != 0 then None
    else
      var v := (n - 17) / 4;
      var mask := Xor(ReadFormatWord(modules, true), FORMAT_MASK) / Pow2(10);
      var stream := ReadStream(modules, v, mask);
      StreamLength(v);
      ReadPayload(Join(ReadBlocks(stream, SpecOf(v)).0), v)
  }

  // ----- reading a symbol -----

  lemma FormatWordRead(modules: seq<seq<bool>>, v: nat, mask: nat, stream: seq<Byte>, versionWord: nat, first: bool)
    requires 1 <= v <= 10 && mask < 8 && IsSymbol(modules, v, mask, stream, versionWord)
    ensures ReadFormatWord(modules, first) == FormatWord(mask)
  {
    hide BitsOf, ValueOf, Bit, FormatWord, Pow2, IsSymbol, FormatBitAt;
    var word := FormatWord(mask);
    var shown := seq(15, k requires 0 <= k < 15 => FormatBitAt(modules, first, 14 - k));
    forall k | 0 <= k < 15
      ensures shown[k] == BitsOf(word, 15)[k]
    {
      FormatModule(modules, v, mask, stream, versionWord, first, 14 - k);
      BitsOfAt(word, 15, k);
    }
    assert shown == BitsOf(word, 15);
    FormatWordFacts(mask);
    ValueOfBits(word, 15);
  }

  lemma FormatModule(modules: seq<seq<bool>>, v: nat, mask: nat, stream: seq<Byte>, versionWord: nat,
                     first: bool, i: nat)
    requires 1 <= v <= 10 && mask < 8 && i < 15 && IsSymbol(modules, v, mask, stream, versionWord)
    ensures FormatBitAt(modules, first, i) == Bit(FormatWord(mask), i)
  {
    hide Bit, FormatWord, FixedPattern, Reserved, FormatIndex, FirstCopy, SecondCopy, VersionArea;
    FormatCopies(Size(v), i);
  }

  /** Bit i of the version word, at the top right or at the bottom left. */
  predicate VersionBitAt(modules: seq<seq<bool>>, right: bool, i: nat) {
    var (a, b) := (i / 3, i % 3 + |modules| - 11);
    if right then Penalty.Dark(modules, a, b) else Penalty.Dark(modules, b, a)
  }

  function ReadVersionWord(modules: seq<seq<bool>>, right: bool): nat {
    ValueOf(seq(18, k requires 0 <= k < 18 => VersionBitAt(modules, right, 17 - k)))
  }

  lemma VersionWordRead(modules: seq<seq<bool>>, v: nat, mask: nat, stream: seq<Byte>, right: bool)
    requires 7 <= v <= 10 && mask < 8 && IsSymbol(modules, v, mask, stream, VersionWord(v))
    ensures ReadVersionWord(modules, right) == VersionWord(v) && ReadVersionWord(modules, right) / Pow2(12) == v
  {
    hide BitsOf, ValueOf, Bit, VersionWord, Pow2, IsSymbol, VersionBitAt;
    var word := VersionWord(v);
    var shown := seq(18, k requires 0 <= k < 18 => VersionBitAt(modules, right, 17 - k));
    forall k | 0 <= k < 18
      ensures shown[k] == BitsOf(word, 18)[k]
    {
      VersionModule(modules, v, mask, stream, right, 17 - k);
      BitsOfAt(word, 18, k);
    }
    assert shown == BitsOf(word, 18);
    VersionWordFacts(v);
    ValueOfBits(word, 18);
  }

  lemma VersionModule(modules: seq<seq<bool>>, v: nat, mask: nat, stream: seq<Byte>, right: bool, i: nat)
    requires 7 <= v <= 10 && i < 18 && IsSymbol(modules, v, mask, stream, VersionWord(v))
    ensures VersionBitAt(modules, right, i) == Bit(VersionWord(v), i)
  {
    hide Bit, VersionWord, VersionArea, VersionIndex, FixedPattern, FormatIndex, Reserved;
    VersionPlace(v, i);
  }

  lemma VersionPlace(v: nat, i: nat)
    requires 7 <= v <= 10 && i < 18
    ensures var (a, b) := (i / 3, i % 3 + Size(v) - 11);
      && InGrid(Size(v), a, b) && VersionArea(v, a, b) && VersionArea(v, b, a)
      && VersionIndex(v, a, b) == i && VersionIndex(v, b, a) == i
      && FormatIndex(Size(v), a, b) < 0 && FormatIndex(Size(v), b, a) < 0
      && !FixedPattern(v, a, b) && !FixedPattern(v, b, a)
  {
  }

  /** The bits that the data modules of a version show. */
  function ShownBits(v: nat, stream: seq<Byte>): seq<bool> {
    seq(DataModules(v), k requires 0 <= k < DataModules(v) => SymbolBit(stream, k))
  }

  lemma SymbolShows(modules: seq<seq<bool>>, v: nat, mask: nat, stream: seq<Byte>, versionWord: nat)
    requires 1 <= v <= 10 && IsSymbol(modules, v, mask, stream, versionWord)
    ensures ShowsBits(v, Unmasked(modules, mask), ShownBits(v, stream))
  {
    hide Reserved, FixedPattern, BitIndex, SymbolBit, MaskBit, DataModules, FormatIndex;
    forall r: nat, c: nat | r < Size(v) && c < Size(v) && c != 6 && !Reserved(v, r, c)
      ensures BitIndex(v, r, c) < DataModules(v)
      ensures Unmasked(modules, mask)(r, c) == SymbolBit(stream, BitIndex(v, r, c))
    {
      BitIndexBound(v, r, c);
      FreeOfPatterns(v, r, c);
    }
  }

  lemma FreeOfPatterns(v: nat, r: nat, c: nat)
    requires 1 <= v <= 10 && r < Size(v) && c < Size(v) && !Reserved(v, r, c)
    ensures FormatIndex(Size(v), r, c) < 0 && !FixedPattern(v, r, c) && !VersionArea(v, r, c)
  {
  }

  lemma StreamRead(modules: seq<seq<bool>>, v: nat, mask: nat, stream: seq<Byte>, versionWord: nat)
    requires 1 <= v <= 10 && |stream| == TOTAL_CODEWORDS[v - 1] && IsSymbol(modules, v, mask, stream, versionWord)
    ensures ReadStream(modules, v, mask) == stream
  {
    hide IsSymbol, ShownBits, BytesOfBits, ReadPairs, Size, PairCount, Unmasked, TOTAL_CODEWORDS;
    BitsRead(modules, v, mask, stream, versionWord);
    DataModulesExact(v);
    ShownBytes(v, stream);
  }

  lemma BitsRead(modules: seq<seq<bool>>, v: nat, mask: nat, stream: seq<Byte>, versionWord: nat)
    requires 1 <= v <= 10 && IsSymbol(modules, v, mask, stream, versionWord)
    ensures ReadPairs(v, Unmasked(modules, mask), PairCount(Size(v))) == ShownBits(v, stream)
  {
    hide IsSymbol, ShowsBits, DataModules, ReadPairs, Size, PairCount, Unmasked, SymbolBit;
    var bits := ShownBits(v, stream);
    SymbolShows(modules, v, mask, stream, versionWord);
    TableSize(v);
    ReadPairsShown(v, Unmasked(modules, mask), bits, PairCount(Size(v)));
    ShownRank(v);
  }

  lemma TableSize(v: nat)
    requires 1 <= v <= 10
    ensures WalkSize(Size(v))
  {
  }

  lemma ShownBytes(v: nat, stream: seq<Byte>)
    requires DataModules(v) >= 8 * |stream|
    ensures BytesOfBits(ShownBits(v, stream), |stream|) == stream
  {
    hide DataModules, ByteAt, SymbolBit;
    var bits := ShownBits(v, stream);
    forall k | 0 <= k < |stream|
      ensures ByteAt(bits, k) == ByteAt(BitsOfBytes(stream), k)
    {
      SameWindow(bits, stream, k);
    }
    BytesRoundTrip(stream);
  }

  lemma ShownRank(v: nat)
    ensures DataModules(v) == PairRank(v, PairCount(Size(v)))
  {
  }

  lemma SameWindow(bits: seq<bool>, stream: seq<Byte>, k: nat)
    requires k < |stream| && |bits| >= 8 * |stream|
    requires forall i :: 0 <= i < 8 * |stream| ==> bits[i] == SymbolBit(stream, i)
    ensures ByteAt(bits, k) == ByteAt(BitsOfBytes(stream), k)
  {
    hide BitsOf, ValueOf;
    assert Window(bits, k) == Window(BitsOfBytes(stream), k);
  }

  /** The reader recovers the payload from any symbol, whichever mask it carries. */
  lemma DecodeSymbol(modules: seq<seq<bool>>, bytes: seq<Byte>, v: nat, mask: nat, versionWord: nat)
    requires 1 <= v <= 10 && mask < 8 && Fits(|bytes|, SpecOf(v))
    requires IsSymbol(modules, v, mask, StreamOf(bytes, v), versionWord)
    ensures Decode(modules) == Some(bytes)
  {
    hide FormatWord, Xor, Pow2, ReadStream, DataCodewords, FinalCodewords, ReadPayload, Join, ReadBlocks;
    var spec, stream := SpecOf(v), StreamOf(bytes, v);
    FormatWordRead(modules, v, mask, stream, versionWord, true);
    FormatWordFacts(mask);
    StreamLength(v);
    FinalCodewordsRoundTrip(DataCodewords(bytes, spec), spec);
    StreamRead(modules, v, mask, stream, versionWord);
    InTableAt(v - 1);
    PayloadRoundTrip(bytes, spec);
  }

  /** Every block of the stream with its check symbols is a codeword of the Reed-Solomon code. */
  lemma BlocksAreCodewords(bytes: seq<Byte>, v: nat, b: nat)
    requires 1 <= v <= 10 && b < |BlockSizes(SpecOf(v))|
    ensures var ec := SpecOf(v).ecPerBlock;
      |StreamOf(bytes, v)| == DataCodewordCount(SpecOf(v)) + |BlockSizes(SpecOf(v))| * ec
    ensures var (blocks, checks) := ReadBlocks(StreamOf(bytes, v), SpecOf(v));
      b < |blocks| && b < |checks| && IsCodeword(blocks[b] + checks[b], SpecOf(v).ecPerBlock)
  {
    hide FinalCodewords, DataCodewords, DataCodewordCount, BlockSizes, ReadBlocks, Join, CheckSymbols, IsCodeword;
    var spec := SpecOf(v);
    FinalCodewordsRoundTrip(DataCodewords(bytes, spec), spec);
    var (blocks, checks) := ReadBlocks(StreamOf(bytes, v), spec);
    assert |blocks| == |Sizes(blocks)|;
    CodewordVanishes(blocks[b], spec.ecPerBlock);
  }

  // ----- damaged symbols -----

  /** A data block of the codewords with its check block. */
  function BlockWord(stream: seq<Byte>, v: nat, b: nat): (word: seq<Byte>)
    requires 1 <= v <= 10 && |stream| == TOTAL_CODEWORDS[v - 1] && b < |BlockSizes(SpecOf(v))|
    ensures |word| == BlockSizes(SpecOf(v))[b] + SpecOf(v).ecPerBlock
  {
    StreamLength(v);
    var (blocks, checks) := ReadBlocks(stream, SpecOf(v));
    blocks[b] + checks[b]
  }

  /** Each block differs in at most half as many codewords as it has check symbols. */
  ghost predicate BlocksClose(stream: seq<Byte>, read: seq<Byte>, v: nat)
    requires 1 <= v <= 10 && |stream| == |read| == TOTAL_CODEWORDS[v - 1]
  {
    forall b: nat :: b < |BlockSizes(SpecOf(v))| ==>
      2 * Distance(BlockWord(stream, v, b), BlockWord(read, v, b)) <= SpecOf(v).ecPerBlock
  }

  lemma StreamOfLength(bytes: seq<Byte>, v: nat)
    requires 1 <= v <= 10
    ensures |StreamOf(bytes, v)| == TOTAL_CODEWORDS[v - 1]
  {
    hide FinalCodewords, DataCodewords, DataCodewordCount, BlockSizes;
    StreamLength(v);
    FinalCodewordsRoundTrip(DataCodewords(bytes, SpecOf(v)), SpecOf(v));
  }

  /** The data blocks of a payload. */
  function DataBlocks(bytes: seq<Byte>, v: nat): seq<seq<Byte>>
    requires 1 <= v <= 10
  {
    StreamOfLength(bytes, v);
    StreamLength(v);
    ReadBlocks(StreamOf(bytes, v), SpecOf(v)).0
  }

  lemma DataBlockFacts(bytes: seq<Byte>, v: nat, b: nat)
    requires 1 <= v <= 10 && b < |BlockSizes(SpecOf(v))|
    ensures |StreamOf(bytes, v)| == TOTAL_CODEWORDS[v - 1]
    ensures |DataBlocks(bytes, v)| == |BlockSizes(SpecOf(v))|
    ensures |DataBlocks(bytes, v)[b]| == BlockSizes(SpecOf(v))[b]
    ensures BlockWord(StreamOf(bytes, v), v, b) == Codeword(DataBlocks(bytes, v)[b], SpecOf(v).ecPerBlock)
  {
    hide FinalCodewords, DataCodewords, DataCodewordCount, BlockSizes, ReadBlocks, Join, CheckSymbols;
    var spec := SpecOf(v);
    StreamOfLength(bytes, v);
    StreamLength(v);
    FinalCodewordsRoundTrip(DataCodewords(bytes, spec), spec);
    var blocks := DataBlocks(bytes, v);
    assert Sizes(blocks) == BlockSizes(spec);
    assert |blocks[b]| == Sizes(blocks)[b];
  }

  lemma SmallBlocks(v: nat, b: nat)
    requires 1 <= v <= 10 && b < |BlockSizes(SpecOf(v))|
    ensures BlockSizes(SpecOf(v))[b] + SpecOf(v).ecPerBlock <= 255
  {
  }

  /** The data blocks determine the payload. */
  lemma BlocksDetermine(a: seq<Byte>, b: seq<Byte>, v: nat)
    requires 1 <= v <= 10 && Fits(|a|, SpecOf(v)) && Fits(|b|, SpecOf(v)) && DataBlocks(a, v) == DataBlocks(b, v)
    ensures a == b
  {
    hide FinalCodewords, DataCodewords, DataCodewordCount, BlockSizes, ReadBlocks, Join, ReadPayload, Fits;
    var spec := SpecOf(v);
    FinalCodewordsRoundTrip(DataCodewords(a, spec), spec);
    FinalCodewordsRoundTrip(DataCodewords(b, spec), spec);
    InTableAt(v - 1);
    PayloadRoundTrip(a, spec);
    PayloadRoundTrip(b, spec);
  }

  /** Codewords close to those of two payloads are close to those of one. */
  lemma DamagedStream(read: seq<Byte>, v: nat, a: seq<Byte>, b: seq<Byte>)
    requires 1 <= v <= 10 && Fits(|a|, SpecOf(v)) && Fits(|b|, SpecOf(v))
    requires |read| == |StreamOf(a, v)| == |StreamOf(b, v)| == TOTAL_CODEWORDS[v - 1]
    requires BlocksClose(StreamOf(a, v), read, v) && BlocksClose(StreamOf(b, v), read, v)
    ensures a == b
  {
    hide StreamOf, BlockWord, BlockSizes, Codeword, DataBlocks, SpecOf, Fits;
    SomeBlock(v);
    DataBlockFacts(a, v, 0);
    DataBlockFacts(b, v, 0);
    forall i | 0 <= i < |BlockSizes(SpecOf(v))|
      ensures DataBlocks(a, v)[i] == DataBlocks(b, v)[i]
    {
      DataBlockFacts(a, v, i);
      DataBlockFacts(b, v, i);
      SmallBlocks(v, i);
      CorrectableErrors(DataBlocks(a, v)[i], DataBlocks(b, v)[i], SpecOf(v).ecPerBlock, BlockWord(read, v, i));
    }
    assert DataBlocks(a, v) == DataBlocks(b, v);
    BlocksDetermine(a, b, v);
  }

  lemma SomeBlock(v: nat)
    requires 1 <= v <= 10
    ensures |BlockSizes(SpecOf(v))| > 0
  {
  }
}
