/** Where each data and check codeword goes in the final sequence, in the numbers of the version alone. */
module BlockOrder {
  import opened Arithmetic
  import opened Gf256
  import opened ReedSolomon
  import opened Versions
  import opened Interleave

  function BlockCount(spec: VersionSpec): nat {
    spec.group1Blocks + spec.group2Blocks
  }

  /** The first data codeword of a block: the blocks of the first group come first. */
  function BlockStart(spec: VersionSpec, b: nat): nat
    requires b < BlockCount(spec)
  {
    if b < spec.group1Blocks then b * spec.group1Data
    else spec.group1Blocks * spec.group1Data + (b - spec.group1Blocks) * spec.group2Data
  }

  function BlockLength(spec: VersionSpec, b: nat): nat
    requires b < BlockCount(spec)
  {
    if b < spec.group1Blocks then spec.group1Data else spec.group2Data
  }

  // ----- heights and column starts -----

  lemma {:induction false} HeightRepeat(sizes: seq<nat>, count: nat, size: nat, i: nat)
    ensures Height(sizes + Repeat(count, size), i) == Height(sizes, i) + (if i < size then count else 0)
  {
    if count == 0 {
      assert sizes + Repeat(0, size) == sizes;
    } else {
      HeightRepeat(sizes, count - 1, size, i);
      assert (sizes + Repeat(count, size))[..|sizes| + count - 1] == sizes + Repeat(count - 1, size);
    }
  }

  lemma HeightOfGroups(c1: nat, s1: nat, c2: nat, s2: nat, i: nat)
    ensures Height(Repeat(c1, s1) + Repeat(c2, s2), i) == (if i < s1 then c1 else 0) + (if i < s2 then c2 else 0)
  {
    HeightRepeat(Repeat(c1, s1), c2, s2, i);
    HeightRepeat([], c1, s1, i);
    assert [] + Repeat(c1, s1) == Repeat(c1, s1);
    hide Repeat;
  }

  /** As long as both groups reach the column, every column before it holds one codeword of each block. */
  lemma {:induction false} FullColumns(spec: VersionSpec, i: nat)
    requires spec.group1Blocks == 0 || i <= spec.group1Data
    requires spec.group2Blocks == 0 || i <= spec.group2Data
    ensures ColumnStart(BlockSizes(spec), i) == i * BlockCount(spec)
  {
    if i > 0 {
      FullColumns(spec, i - 1);
      HeightOfGroups(spec.group1Blocks, spec.group1Data, spec.group2Blocks, spec.group2Data, i - 1);
      ProductSum(i - 1, 1, BlockCount(spec));
      hide Repeat, Height;
    }
  }

  /** Beyond the first group's length a column holds one codeword of each block of the second group. */
  lemma {:induction false} LongColumns(spec: VersionSpec, i: nat)
    requires spec.group1Data <= i <= spec.group2Data
    ensures ColumnStart(BlockSizes(spec), i)
         == spec.group1Data * BlockCount(spec) + (i - spec.group1Data) * spec.group2Blocks
  {
    if i == spec.group1Data {
      FullColumns(spec, i);
    } else {
      LongColumns(spec, i - 1);
      HeightOfGroups(spec.group1Blocks, spec.group1Data, spec.group2Blocks, spec.group2Data, i - 1);
      ProductSum(i - 1 - spec.group1Data, 1, spec.group2Blocks);
      hide Repeat, Height;
    }
  }

  /** The blocks before b. */
  lemma SizesBefore(spec: VersionSpec, b: nat)
    requires b <= BlockCount(spec)
    ensures |BlockSizes(spec)| == BlockCount(spec)
    ensures b <= spec.group1Blocks ==>
      BlockSizes(spec)[..b] == Repeat(b, spec.group1Data) + Repeat(0, spec.group2Data)
    ensures b >= spec.group1Blocks ==>
      BlockSizes(spec)[..b]
      == Repeat(spec.group1Blocks, spec.group1Data) + Repeat(b - spec.group1Blocks, spec.group2Data)
  {
  }

  lemma HeightBefore(spec: VersionSpec, b: nat, i: nat)
    requires b <= BlockCount(spec)
    ensures |BlockSizes(spec)| == BlockCount(spec)
    ensures Height(BlockSizes(spec)[..b], i)
         == (if i < spec.group1Data then Min(b, spec.group1Blocks) else 0)
          + (if i < spec.group2Data then Max(b - spec.group1Blocks, 0) else 0)
  {
    SizesBefore(spec, b);
    hide BlockSizes, Height, Repeat;
    if b <= spec.group1Blocks {
      HeightOfGroups(b, spec.group1Data, 0, spec.group2Data, i);
    } else {
      HeightOfGroups(spec.group1Blocks, spec.group1Data, b - spec.group1Blocks, spec.group2Data, i);
    }
  }

  /** No block of the second group is shorter than those of the first. */
  predicate Ordered(spec: VersionSpec) {
    spec.group2Blocks == 0 || spec.group1Data <= spec.group2Data
  }

  /** The place of a data codeword: column by column, and in the last columns the second group alone. */
  function DataPlace(spec: VersionSpec, b: nat, i: nat): int {
    var g := spec.group1Blocks + spec.group2Blocks;
    if i < spec.group1Data then i * g + b
    else spec.group1Data * g + (i - spec.group1Data) * spec.group2Blocks + (b - spec.group1Blocks)
  }

  /** The place of a check symbol: behind all data, column by column. */
  function CheckPlace(spec: VersionSpec, b: nat, i: nat): int {
    DataCodewordCount(spec) + i * (spec.group1Blocks + spec.group2Blocks) + b
  }

  lemma PositionIsPlace(spec: VersionSpec, b: nat, i: nat)
    requires Ordered(spec) && b < BlockCount(spec) && i < BlockLength(spec, b)
    ensures |BlockSizes(spec)| == BlockCount(spec)
    ensures Position(BlockSizes(spec), b, i) == DataPlace(spec, b, i)
  {
    HeightBefore(spec, b, i);
    hide BlockSizes, Height, ColumnStart;
    if i < spec.group1Data {
      FullColumns(spec, i);
    } else {
      LongColumns(spec, i);
    }
  }

  // ----- what the blocks are -----

  lemma {:induction false} SplitAt<T>(data: seq<T>, sizes: seq<nat>, b: nat)
    requires Total(sizes) <= |data| && b < |sizes|
    ensures Total(sizes[..b]) <= Total(sizes[..b + 1]) <= Total(sizes)
    ensures Split(data, sizes)[b] == data[Total(sizes[..b])..Total(sizes[..b + 1])]
  {
    var n := |sizes| - 1;
    if b == n {
      assert sizes[..b + 1] == sizes;
    } else {
      SplitAt(data, sizes[..n], b);
      assert sizes[..n][..b] == sizes[..b] && sizes[..n][..b + 1] == sizes[..b + 1];
    }
  }

  lemma TotalOfGroups(c1: nat, s1: nat, c2: nat, s2: nat)
    ensures Total(Repeat(c1, s1) + Repeat(c2, s2)) == c1 * s1 + c2 * s2
  {
    TotalRepeat(Repeat(c1, s1), c2, s2);
    TotalRepeat([], c1, s1);
    assert [] + Repeat(c1, s1) == Repeat(c1, s1);
    EmptyTotal();
    hide Total, Repeat;
  }

  lemma StartOfBlock(spec: VersionSpec, b: nat)
    requires b <= BlockCount(spec)
    ensures Total(BlockSizes(spec)[..b])
         == if b < BlockCount(spec) then BlockStart(spec, b) else DataCodewordCount(spec)
  {
    SizesBefore(spec, b);
    hide BlockSizes, Total, Repeat;
    if b <= spec.group1Blocks {
      TotalOfGroups(b, spec.group1Data, 0, spec.group2Data);
    } else {
      TotalOfGroups(spec.group1Blocks, spec.group1Data, b - spec.group1Blocks, spec.group2Data);
    }
  }

  lemma NextBlockStart(spec: VersionSpec, b: nat)
    requires b < BlockCount(spec)
    ensures (if b + 1 < BlockCount(spec) then BlockStart(spec, b + 1) else DataCodewordCount(spec))
         == BlockStart(spec, b) + BlockLength(spec, b)
  {
    if b < spec.group1Blocks {
      ProductSum(b, 1, spec.group1Data);
    } else {
      ProductSum(b - spec.group1Blocks, 1, spec.group2Data);
    }
  }

  /** Block b is the slice of its own length at its own start. */
  lemma BlockIsSlice(data: seq<Byte>, spec: VersionSpec, b: nat)
    requires |data| == DataCodewordCount(spec) && b < BlockCount(spec)
    ensures Total(BlockSizes(spec)) == |data| && |BlockSizes(spec)| == BlockCount(spec)
    ensures BlockStart(spec, b) + BlockLength(spec, b) <= |data|
    ensures Split(data, BlockSizes(spec))[b] == data[BlockStart(spec, b)..BlockStart(spec, b) + BlockLength(spec, b)]
  {
    hide *;
    BlockSizesTotal(spec);
    SizesBefore(spec, b);
    SplitAt(data, BlockSizes(spec), b);
    StartOfBlock(spec, b);
    StartOfBlock(spec, b + 1);
    NextBlockStart(spec, b);
  }

  // ----- the final sequence -----

  /** Where every data codeword is found. */
  lemma DataOrder(data: seq<Byte>, spec: VersionSpec, b: nat, i: nat)
    requires |data| == DataCodewordCount(spec) && Ordered(spec) && b < BlockCount(spec) && i < BlockLength(spec, b)
    ensures BlockStart(spec, b) + i < |data| && 0 <= DataPlace(spec, b, i) < |FinalCodewords(data, spec)|
    ensures FinalCodewords(data, spec)[DataPlace(spec, b, i)] == data[BlockStart(spec, b) + i]
  {
    hide *;
    BlockIsSlice(data, spec, b);
    PositionIsPlace(spec, b, i);
    FinalAt(data, spec, b, i);
  }

  lemma FinalAt(data: seq<Byte>, spec: VersionSpec, b: nat, i: nat)
    requires |data| == DataCodewordCount(spec) == Total(BlockSizes(spec)) && b < |BlockSizes(spec)|
    requires i < |Split(data, BlockSizes(spec))[b]|
    ensures Position(BlockSizes(spec), b, i) < |FinalCodewords(data, spec)|
    ensures FinalCodewords(data, spec)[Position(BlockSizes(spec), b, i)] == Split(data, BlockSizes(spec))[b][i]
  {
    hide BlockSizes, Total, Split, DataCodewordCount, Position, Columns, CheckBlocks, MaxOf;
    var sizes := BlockSizes(spec);
    SplitSizes(data, sizes);
    assert sizes[b] == |Split(data, sizes)[b]|;
    ColumnsAt(Split(data, sizes), MaxOf(sizes), b, i);
  }

  /** Where every check symbol is found. */
  lemma CheckOrder(data: seq<Byte>, spec: VersionSpec, b: nat, i: nat)
    requires |data| == DataCodewordCount(spec) && b < BlockCount(spec) && i < spec.ecPerBlock
    ensures BlockStart(spec, b) + BlockLength(spec, b) <= |data|
    ensures 0 <= CheckPlace(spec, b, i) < |FinalCodewords(data, spec)|
    ensures FinalCodewords(data, spec)[CheckPlace(spec, b, i)]
         == CheckSymbols(data[BlockStart(spec, b)..BlockStart(spec, b) + BlockLength(spec, b)], spec.ecPerBlock)[i]
  {
    hide *;
    BlockIsSlice(data, spec, b);
    DataColumnsLength(data, spec);
    CheckColumns(Split(data, BlockSizes(spec)), spec.ecPerBlock, b, i);
    FinalParts(data, spec);
    CheckPlaceIs(spec, b, i);
  }

  lemma CheckPlaceIs(spec: VersionSpec, b: nat, i: nat)
    ensures CheckPlace(spec, b, i) == DataCodewordCount(spec) + EqualPlace(BlockCount(spec), b, i)
  {
  }

  lemma FinalParts(data: seq<Byte>, spec: VersionSpec)
    requires |data| == DataCodewordCount(spec) == Total(BlockSizes(spec))
    ensures var blocks := Split(data, BlockSizes(spec));
      FinalCodewords(data, spec) == Columns(blocks, MaxOf(BlockSizes(spec)))
        + Columns(CheckBlocks(blocks, spec.ecPerBlock), spec.ecPerBlock)
  {
  }

  /** The check symbols of blocks, column by column. */
  lemma CheckColumns(blocks: seq<seq<Byte>>, ecLen: nat, b: nat, i: nat)
    requires b < |blocks| && i < ecLen
    ensures 0 <= EqualPlace(|blocks|, b, i) < |Columns(CheckBlocks(blocks, ecLen), ecLen)|
    ensures Columns(CheckBlocks(blocks, ecLen), ecLen)[EqualPlace(|blocks|, b, i)] == CheckSymbols(blocks[b], ecLen)[i]
  {
    hide Columns, CheckSymbols, Position, EqualPlace;
    var checks := CheckBlocks(blocks, ecLen);
    assert Sizes(checks) == Repeat(|blocks|, ecLen);
    ColumnsAt(checks, ecLen, b, i);
    EqualBlocks(|blocks|, ecLen, b, i);
  }

  lemma DataColumnsLength(data: seq<Byte>, spec: VersionSpec)
    requires |data| == DataCodewordCount(spec) == Total(BlockSizes(spec))
    ensures |Columns(Split(data, BlockSizes(spec)), MaxOf(BlockSizes(spec)))| == |data|
  {
    hide BlockSizes, Total, Split, DataCodewordCount, Columns, MaxOf;
    var sizes := BlockSizes(spec);
    SplitSizes(data, sizes);
    ColumnsAt(Split(data, sizes), MaxOf(sizes), 0, 0);
    ColumnStartTotal(sizes, MaxOf(sizes));
  }

  function EqualPlace(count: nat, b: nat, i: nat): int {
    i * count + b
  }

  /** Blocks of one size: codeword i of block b comes after i full columns and b blocks. */
  lemma EqualBlocks(count: nat, size: nat, b: nat, i: nat)
    requires b < count && i < size
    ensures Position(Repeat(count, size), b, i) == EqualPlace(count, b, i)
  {
    var spec := VersionSpec(0, 0, count, size, 0, 0);
    assert BlockSizes(spec) == Repeat(count, size);
    PositionIsPlace(spec, b, i);
    hide Position, BlockSizes, Repeat;
  }
}
