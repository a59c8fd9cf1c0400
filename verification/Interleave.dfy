/** Splitting the data into blocks and interleaving the data and check codewords of all blocks. */
module Interleave {
  import opened Arithmetic
  import opened Gf256
  import opened ReedSolomon
  import opened Versions

  function Total(sizes: seq<nat>): nat {
    if sizes == [] then 0 else Total(sizes[..|sizes| - 1]) + sizes[|sizes| - 1]
  }

  function MaxOf(sizes: seq<nat>): (m: nat)
    ensures forall b :: 0 <= b < |sizes| ==> sizes[b] <= m
  {
    if sizes == [] then 0
    else
      var m := MaxOf(sizes[..|sizes| - 1]);
      if sizes[|sizes| - 1] > m then sizes[|sizes| - 1] else m
  }

  function Sizes<T>(blocks: seq<seq<T>>): seq<nat> {
    seq(|blocks|, b requires 0 <= b < |blocks| => |blocks[b]|)
  }

  // ----- interleaving -----

  /** The i-th codeword of every block that has one, in block order. */
  function Column<T>(blocks: seq<seq<T>>, i: nat): seq<T> {
    if blocks == [] then []
    else
      var last := blocks[|blocks| - 1];
      Column(blocks[..|blocks| - 1], i) + (if i < |last| then [last[i]] else [])
  }

  /** The first n columns, one after the other. */
  function Columns<T>(blocks: seq<seq<T>>, n: nat): seq<T> {
    if n == 0 then [] else Columns(blocks, n - 1) + Column(blocks, n - 1)
  }

  /** How many blocks reach the i-th column. */
  function Height(sizes: seq<nat>, i: nat): nat {
    if sizes == [] then 0
    else Height(sizes[..|sizes| - 1], i) + (if i < sizes[|sizes| - 1] then 1 else 0)
  }

  /** Where column i starts. */
  function ColumnStart(sizes: seq<nat>, i: nat): nat {
    if i == 0 then 0 else ColumnStart(sizes, i - 1) + Height(sizes, i - 1)
  }

  /** Where codeword i of block b is found in the interleaved stream. */
  function Position(sizes: seq<nat>, b: nat, i: nat): nat
    requires b < |sizes|
  {
    ColumnStart(sizes, i) + Height(sizes[..b], i)
  }

  /** Block b of an interleaved stream. */
  function ReadBlock<T>(stream: seq<T>, sizes: seq<nat>, b: nat): seq<T>
    requires b < |sizes| && |stream| == Total(sizes)
  {
    seq(sizes[b], i requires 0 <= i < sizes[b] =>
      PositionInRange(sizes, b, i); stream[Position(sizes, b, i)])
  }

  function Deinterleave<T>(stream: seq<T>, sizes: seq<nat>): seq<seq<T>>
    requires |stream| == Total(sizes)
  {
    seq(|sizes|, b requires 0 <= b < |sizes| => ReadBlock(stream, sizes, b))
  }

  // ----- every codeword has one place, and every place has one codeword -----

  lemma {:induction false} HeightMonotone(sizes: seq<nat>, b: nat, i: nat)
    requires b <= |sizes|
    ensures Height(sizes[..b], i) <= Height(sizes, i)
    ensures b < |sizes| && i < sizes[b] ==> Height(sizes[..b], i) < Height(sizes, i)
  {
    if b == |sizes| {
      assert sizes[..b] == sizes;
    } else {
      var n := |sizes| - 1;
      assert sizes[..n][..b] == sizes[..b];
      HeightMonotone(sizes[..n], b, i);
    }
  }

  lemma {:induction false} ColumnStartMonotone(sizes: seq<nat>, i: nat, n: nat)
    requires i <= n
    ensures ColumnStart(sizes, i) <= ColumnStart(sizes, n)
  {
    if i == n {
    } else {
      ColumnStartMonotone(sizes, i, n - 1);
    }
  }

  /** Counting by columns or by blocks. */
  lemma {:induction false} ColumnStartAppend(sizes: seq<nat>, size: nat, n: nat)
    ensures ColumnStart(sizes + [size], n) == ColumnStart(sizes, n) + (if size <= n then size else n)
  {
    if n == 0 {
    } else {
      ColumnStartAppend(sizes, size, n - 1);
      assert (sizes + [size])[..|sizes|] == sizes;
    }
  }

  lemma {:induction false} ColumnStartTotal(sizes: seq<nat>, n: nat)
    requires forall b :: 0 <= b < |sizes| ==> sizes[b] <= n
    ensures ColumnStart(sizes, n) == Total(sizes)
  {
    if sizes == [] {
      NoColumns(n);
    } else {
      var init := sizes[..|sizes| - 1];
      ColumnStartTotal(init, n);
      ColumnStartAppend(init, sizes[|sizes| - 1], n);
      assert init + [sizes[|sizes| - 1]] == sizes;
    }
  }

  lemma {:induction false} NoColumns(n: nat)
    ensures ColumnStart([], n) == 0
  {
    if n == 0 {
    } else {
      NoColumns(n - 1);
    }
  }

  lemma PositionInColumn(sizes: seq<nat>, b: nat, i: nat)
    requires b < |sizes| && i < sizes[b]
    ensures ColumnStart(sizes, i) <= Position(sizes, b, i) < ColumnStart(sizes, i + 1)
  {
    HeightMonotone(sizes, b, i);
  }

  lemma PositionInRange(sizes: seq<nat>, b: nat, i: nat)
    requires b < |sizes| && i < sizes[b]
    ensures Position(sizes, b, i) < Total(sizes)
  {
    var n := MaxOf(sizes);
    PositionInColumn(sizes, b, i);
    ColumnStartMonotone(sizes, i + 1, n);
    ColumnStartTotal(sizes, n);
  }

  /** No place is written twice. */
  lemma PositionInjective(sizes: seq<nat>, b: nat, i: nat, c: nat, j: nat)
    requires b < |sizes| && i < sizes[b] && c < |sizes| && j < sizes[c]
    requires Position(sizes, b, i) == Position(sizes, c, j)
    ensures b == c && i == j
  {
    PositionInColumn(sizes, b, i);
    PositionInColumn(sizes, c, j);
    if i < j {
      ColumnStartMonotone(sizes, i + 1, j);
    } else if j < i {
      ColumnStartMonotone(sizes, j + 1, i);
    } else if b < c {
      assert sizes[..c][..b] == sizes[..b];
      HeightMonotone(sizes[..c], b, i);
    } else if c < b {
      assert sizes[..b][..c] == sizes[..c];
      HeightMonotone(sizes[..b], c, i);
    }
  }

  lemma {:induction false} BlockAtHeight(sizes: seq<nat>, i: nat, h: nat) returns (b: nat)
    requires h < Height(sizes, i)
    ensures b < |sizes| && i < sizes[b] && Height(sizes[..b], i) == h
  {
    var n := |sizes| - 1;
    if h < Height(sizes[..n], i) {
      b := BlockAtHeight(sizes[..n], i, h);
      assert sizes[..n][..b] == sizes[..b];
    } else {
      b := n;
    }
  }

  /** No place is left out. */
  lemma {:induction false} PositionOnto(sizes: seq<nat>, n: nat, p: nat) returns (b: nat, i: nat)
    requires p < ColumnStart(sizes, n)
    ensures b < |sizes| && i < sizes[b] && Position(sizes, b, i) == p
  {
    if p < ColumnStart(sizes, n - 1) {
      b, i := PositionOnto(sizes, n - 1, p);
    } else {
      i := n - 1;
      b := BlockAtHeight(sizes, i, p - ColumnStart(sizes, i));
    }
  }

  // ----- the stream holds each codeword at its position -----

  lemma {:induction false} ColumnAt<T>(blocks: seq<seq<T>>, b: nat, i: nat)
    ensures |Column(blocks, i)| == Height(Sizes(blocks), i)
    ensures b < |blocks| && i < |blocks[b]| ==>
      Height(Sizes(blocks)[..b], i) < |Column(blocks, i)|
      && Column(blocks, i)[Height(Sizes(blocks)[..b], i)] == blocks[b][i]
  {
    if blocks == [] {
    } else {
      var n := |blocks| - 1;
      ColumnAt(blocks[..n], b, i);
      assert Sizes(blocks)[..n] == Sizes(blocks[..n]);
      if b < n {
        assert Sizes(blocks)[..b] == Sizes(blocks[..n])[..b];
      }
    }
  }

  lemma {:induction false} ColumnsAt<T>(blocks: seq<seq<T>>, n: nat, b: nat, i: nat)
    ensures |Columns(blocks, n)| == ColumnStart(Sizes(blocks), n)
    ensures b < |blocks| && i < |blocks[b]| && i < n ==>
      Position(Sizes(blocks), b, i) < |Columns(blocks, n)|
      && Columns(blocks, n)[Position(Sizes(blocks), b, i)] == blocks[b][i]
  {
    hide Column, Height;
    if n == 0 {
    } else {
      ColumnsAt(blocks, n - 1, b, i);
      ColumnAt(blocks, b, n - 1);
    }
  }

  /** De-interleaving gives back every block, whatever the block sizes. */
  lemma InterleaveRoundTrip<T>(blocks: seq<seq<T>>, n: nat)
    requires forall b :: 0 <= b < |blocks| ==> |blocks[b]| <= n
    ensures |Columns(blocks, n)| == Total(Sizes(blocks))
    ensures Deinterleave(Columns(blocks, n), Sizes(blocks)) == blocks
  {
    hide Columns, Position, Total;
    var sizes := Sizes(blocks);
    ColumnsAt(blocks, n, 0, 0);
    ColumnStartTotal(sizes, n);
    forall b | 0 <= b < |blocks|
      ensures ReadBlock(Columns(blocks, n), sizes, b) == blocks[b]
    {
      forall i | 0 <= i < |blocks[b]|
        ensures ReadBlock(Columns(blocks, n), sizes, b)[i] == blocks[b][i]
      {
        ColumnsAt(blocks, n, b, i);
      }
    }
  }

  // ----- blocks of a version -----

  function Repeat(count: nat, size: nat): (s: seq<nat>)
    ensures |s| == count
  {
    seq(count, _ => size)
  }

  function BlockSizes(spec: VersionSpec): seq<nat> {
    Repeat(spec.group1Blocks, spec.group1Data) + Repeat(spec.group2Blocks, spec.group2Data)
  }

  lemma {:induction false} TotalRepeat(sizes: seq<nat>, count: nat, size: nat)
    ensures Total(sizes + Repeat(count, size)) == Total(sizes) + count * size
  {
    if count == 0 {
      assert sizes + Repeat(0, size) == sizes;
    } else {
      TotalRepeat(sizes, count - 1, size);
      assert (sizes + Repeat(count, size))[..|sizes| + count - 1] == sizes + Repeat(count - 1, size);
    }
  }

  lemma BlockSizesTotal(spec: VersionSpec)
    ensures Total(BlockSizes(spec)) == DataCodewordCount(spec)
  {
    TotalRepeat([], spec.group1Blocks, spec.group1Data);
    assert [] + Repeat(spec.group1Blocks, spec.group1Data) == Repeat(spec.group1Blocks, spec.group1Data);
    TotalRepeat(Repeat(spec.group1Blocks, spec.group1Data), spec.group2Blocks, spec.group2Data);
  }

  /** Consecutive slices of the given sizes. */
  function Split<T>(data: seq<T>, sizes: seq<nat>): (blocks: seq<seq<T>>)
    requires Total(sizes) <= |data|
    ensures |blocks| == |sizes|
  {
    if sizes == [] then []
    else
      var init := sizes[..|sizes| - 1];
      Split(data, init) + [data[Total(init)..Total(sizes)]]
  }

  function Join<T>(blocks: seq<seq<T>>): seq<T> {
    if blocks == [] then [] else Join(blocks[..|blocks| - 1]) + blocks[|blocks| - 1]
  }

  lemma {:induction false} SplitSizes<T>(data: seq<T>, sizes: seq<nat>)
    requires Total(sizes) <= |data|
    ensures Sizes(Split(data, sizes)) == sizes
  {
    if sizes == [] {
    } else {
      SplitSizes(data, sizes[..|sizes| - 1]);
    }
  }

  lemma {:induction false} JoinSplit<T>(data: seq<T>, sizes: seq<nat>)
    requires Total(sizes) <= |data|
    ensures Join(Split(data, sizes)) == data[..Total(sizes)]
  {
    if sizes == [] {
    } else {
      var init := sizes[..|sizes| - 1];
      JoinSplit(data, init);
      assert Split(data, sizes)[..|init|] == Split(data, init);
    }
  }

  function CheckBlocks(blocks: seq<seq<Byte>>, ecLen: nat): seq<seq<Byte>> {
    seq(|blocks|, b requires 0 <= b < |blocks| => CheckSymbols(blocks[b], ecLen))
  }

  /** The final codeword sequence of the symbol. */
  function FinalCodewords(data: seq<Byte>, spec: VersionSpec): seq<Byte>
    requires |data| == DataCodewordCount(spec)
  {
    BlockSizesTotal(spec);
    var blocks := Split(data, BlockSizes(spec));
    Columns(blocks, MaxOf(BlockSizes(spec))) + Columns(CheckBlocks(blocks, spec.ecPerBlock), spec.ecPerBlock)
  }

  /** The data and check blocks of a final codeword sequence. */
  function ReadBlocks(stream: seq<Byte>, spec: VersionSpec): (seq<seq<Byte>>, seq<seq<Byte>>)
    requires |stream| == DataCodewordCount(spec) + |BlockSizes(spec)| * spec.ecPerBlock
  {
    BlockSizesTotal(spec);
    var checkSizes := Repeat(|BlockSizes(spec)|, spec.ecPerBlock);
    TotalRepeat([], |BlockSizes(spec)|, spec.ecPerBlock);
    assert [] + checkSizes == checkSizes;
    (Deinterleave(stream[..DataCodewordCount(spec)], BlockSizes(spec)),
     Deinterleave(stream[DataCodewordCount(spec)..], checkSizes))
  }

  /** The final sequence has the full length and yields every data block with its check block. */
  lemma FinalCodewordsRoundTrip(data: seq<Byte>, spec: VersionSpec)
    requires |data| == DataCodewordCount(spec)
    ensures |FinalCodewords(data, spec)| == DataCodewordCount(spec) + |BlockSizes(spec)| * spec.ecPerBlock
    ensures var (blocks, checks) := ReadBlocks(FinalCodewords(data, spec), spec);
      Join(blocks) == data && Sizes(blocks) == BlockSizes(spec) && checks == CheckBlocks(blocks, spec.ecPerBlock)
  {
    hide Columns, Deinterleave, DataCodewordCount, BlockSizes, CheckSymbols, Join, Total;
    BlockSizesTotal(spec);
    var sizes := BlockSizes(spec);
    var blocks := Split(data, sizes);
    var checks := CheckBlocks(blocks, spec.ecPerBlock);
    var n := MaxOf(sizes);
    SplitSizes(data, sizes);
    LongestBlock(blocks);
    InterleaveRoundTrip(blocks, n);
    var checkSizes := Repeat(|sizes|, spec.ecPerBlock);
    assert |blocks| == |Sizes(blocks)|;
    assert Sizes(checks) == checkSizes;
    TotalRepeat([], |sizes|, spec.ecPerBlock);
    EmptyTotal();
    assert [] + checkSizes == checkSizes;
    InterleaveRoundTrip(checks, spec.ecPerBlock);
    JoinSplit(data, sizes);
    var stream := FinalCodewords(data, spec);
    assert stream[..|data|] == Columns(blocks, n);
    assert stream[|data|..] == Columns(checks, spec.ecPerBlock);
  }

  lemma EmptyTotal()
    ensures Total([]) == 0
  {
  }

  // ----- the encoder -----

  /** Cuts one block off the data and appends it with its check block. */
  method PushBlock(gf: Tables, data: seq<Byte>, size: nat, ecLen: nat, ghost sizes: seq<nat>,
                   offset: nat, dataBlocks: seq<seq<Byte>>, ecBlocks: seq<seq<Byte>>)
    returns (end: nat, dataBlocks': seq<seq<Byte>>, ecBlocks': seq<seq<Byte>>)
    requires gf.Valid() && ecLen <= 512
    requires offset == Total(sizes) && offset + size <= |data|
    requires dataBlocks == Split(data, sizes) && ecBlocks == CheckBlocks(dataBlocks, ecLen)
    ensures end == offset + size == Total(sizes + [size])
    ensures dataBlocks' == Split(data, sizes + [size])
    ensures ecBlocks' == CheckBlocks(dataBlocks', ecLen)
  {
    hide CheckSymbols, Alpha, Total, Split;
    SplitAppend(data, sizes, size);
    var block := data[offset..offset + size];
    end := offset + size;
    var check := RsEncode(gf, block, ecLen);
    dataBlocks' := dataBlocks + [block];
    ecBlocks' := ecBlocks + [check];
  }

  /** The blocks of one group. */
  method PushGroup(gf: Tables, data: seq<Byte>, count: nat, size: nat, ecLen: nat, ghost sizes: seq<nat>,
                   offset: nat, dataBlocks: seq<seq<Byte>>, ecBlocks: seq<seq<Byte>>)
    returns (end: nat, dataBlocks': seq<seq<Byte>>, ecBlocks': seq<seq<Byte>>)
    requires gf.Valid() && ecLen <= 512
    requires offset == Total(sizes) <= |data| && Total(sizes + Repeat(count, size)) <= |data|
    requires dataBlocks == Split(data, sizes) && ecBlocks == CheckBlocks(dataBlocks, ecLen)
    ensures end == Total(sizes + Repeat(count, size))
    ensures dataBlocks' == Split(data, sizes + Repeat(count, size))
    ensures ecBlocks' == CheckBlocks(dataBlocks', ecLen)
  {
    hide Total, Split, CheckBlocks, Alpha;
    end, dataBlocks', ecBlocks' := offset, dataBlocks, ecBlocks;
    ghost var done := sizes;
    assert sizes + Repeat(0, size) == sizes;
    TotalRepeat(sizes, count, size);
    for i := 0 to count
      invariant done == sizes + Repeat(i, size)
      invariant end == Total(done) == offset + i * size <= |data|
      invariant dataBlocks' == Split(data, done)
      invariant ecBlocks' == CheckBlocks(dataBlocks', ecLen)
    {
      PartialProduct(i, count, size);
      end, dataBlocks', ecBlocks' := PushBlock(gf, data, size, ecLen, done, end, dataBlocks', ecBlocks');
      done := done + [size];
    }
  }

  lemma PartialProduct(i: nat, count: nat, size: nat)
    requires i < count
    ensures (i + 1) * size == i * size + size <= count * size
  {
    ProductSum(i, 1, size);
    MultiplesApart(i, count, size);
  }

  lemma SplitAppend<T>(data: seq<T>, sizes: seq<nat>, size: nat)
    requires Total(sizes) + size <= |data|
    ensures Total(sizes + [size]) == Total(sizes) + size
    ensures Split(data, sizes + [size]) == Split(data, sizes) + [data[Total(sizes)..Total(sizes) + size]]
  {
    hide Total, Split;
    TotalAppend(sizes, size);
    SplitLast(data, sizes + [size]);
    assert (sizes + [size])[..|sizes|] == sizes;
  }

  lemma SplitLast<T>(data: seq<T>, sizes: seq<nat>)
    requires sizes != [] && Total(sizes) <= |data|
    ensures var init := sizes[..|sizes| - 1];
      Total(init) <= Total(sizes) && Split(data, sizes) == Split(data, init) + [data[Total(init)..Total(sizes)]]
  {
  }

  lemma TotalAppend(sizes: seq<nat>, size: nat)
    ensures Total(sizes + [size]) == Total(sizes) + size
  {
    var s := sizes + [size];
    assert s[..|s| - 1] == sizes;
  }

  /** Writes the first n columns of the blocks into the array from cursor on. */
  method WriteColumns(blocks: seq<seq<Byte>>, n: nat, out: array<Byte>, cursor: nat) returns (end: nat)
    requires cursor + |Columns(blocks, n)| <= out.Length
    modifies out
    ensures end == cursor + |Columns(blocks, n)|
    ensures out[..end] == old(out[..cursor]) + Columns(blocks, n)
  {
    hide Column;
    end := cursor;
    for i := 0 to n
      invariant end == cursor + |Columns(blocks, i)| <= out.Length
      invariant out[..end] == old(out[..cursor]) + Columns(blocks, i)
    {
      ColumnsPrefix(blocks, i + 1, n);
      end := WriteColumn(blocks, i, out, end);
    }
  }

  method WriteColumn(blocks: seq<seq<Byte>>, i: nat, out: array<Byte>, cursor: nat) returns (end: nat)
    requires cursor + |Column(blocks, i)| <= out.Length
    modifies out
    ensures end == cursor + |Column(blocks, i)|
    ensures out[..end] == old(out[..cursor]) + Column(blocks, i)
  {
    end := cursor;
    for b := 0 to |blocks|
      invariant end == cursor + |Column(blocks[..b], i)| <= out.Length
      invariant out[..end] == old(out[..cursor]) + Column(blocks[..b], i)
    {
      ColumnPrefix(blocks, b + 1, i);
      assert blocks[..b + 1][..b] == blocks[..b];
      if i < |blocks[b]| {
        out[end] := blocks[b][i];
        end := end + 1;
      }
    }
    assert blocks[..|blocks|] == blocks;
  }

  lemma {:induction false} ColumnsPrefix<T>(blocks: seq<seq<T>>, i: nat, n: nat)
    requires i <= n
    ensures |Columns(blocks, i)| <= |Columns(blocks, n)|
  {
    if i < n {
      ColumnsPrefix(blocks, i, n - 1);
    }
  }

  lemma {:induction false} ColumnPrefix<T>(blocks: seq<seq<T>>, b: nat, i: nat)
    requires b <= |blocks|
    ensures |Column(blocks[..b], i)| <= |Column(blocks, i)|
  {
    if b == |blocks| {
      assert blocks[..b] == blocks;
    } else {
      ColumnPrefix(blocks[..|blocks| - 1], b, i);
      assert blocks[..|blocks| - 1][..b] == blocks[..b];
    }
  }

  /** Both groups of blocks. */
  method PushBlocks(gf: Tables, data: seq<Byte>, spec: VersionSpec)
    returns (dataBlocks: seq<seq<Byte>>, ecBlocks: seq<seq<Byte>>)
    requires gf.Valid() && |data| == Total(BlockSizes(spec)) && spec.ecPerBlock <= 512
    ensures dataBlocks == Split(data, BlockSizes(spec))
    ensures ecBlocks == CheckBlocks(dataBlocks, spec.ecPerBlock)
  {
    EmptyTotal();
    hide CheckSymbols, Alpha, Total;
    ghost var first := Repeat(spec.group1Blocks, spec.group1Data);
    assert [] + first == first;
    TotalRepeat(first, spec.group2Blocks, spec.group2Data);
    var offset;
    offset, dataBlocks, ecBlocks :=
      PushGroup(gf, data, spec.group1Blocks, spec.group1Data, spec.ecPerBlock, [], 0, [], []);
    offset, dataBlocks, ecBlocks :=
      PushGroup(gf, data, spec.group2Blocks, spec.group2Data, spec.ecPerBlock, first, offset, dataBlocks, ecBlocks);
  }

  method InterleaveCodewords(gf: Tables, data: seq<Byte>, spec: VersionSpec) returns (stream: seq<Byte>)
    requires gf.Valid() && |data| == DataCodewordCount(spec) && spec.ecPerBlock <= 512
    ensures stream == FinalCodewords(data, spec)
  {
    hide Columns, Split, Total, BlockSizes, DataCodewordCount, CheckSymbols, FinalCodewords, Alpha, MaxOf;
    BlockSizesTotal(spec);
    var dataBlocks, ecBlocks := PushBlocks(gf, data, spec);
    SplitSizes(data, BlockSizes(spec));
    stream := WriteBlocks(dataBlocks, ecBlocks, spec.ecPerBlock);
    FinalCodewordsParts(data, spec);
  }

  lemma FinalCodewordsParts(data: seq<Byte>, spec: VersionSpec)
    requires |data| == DataCodewordCount(spec) && Total(BlockSizes(spec)) <= |data|
    ensures var blocks := Split(data, BlockSizes(spec));
      FinalCodewords(data, spec)
        == Columns(blocks, MaxOf(BlockSizes(spec))) + Columns(CheckBlocks(blocks, spec.ecPerBlock), spec.ecPerBlock)
  {
  }

  /** All data columns, then all check columns. */
  method WriteBlocks(dataBlocks: seq<seq<Byte>>, ecBlocks: seq<seq<Byte>>, ec: nat) returns (stream: seq<Byte>)
    requires forall b :: 0 <= b < |ecBlocks| ==> |ecBlocks[b]| == ec
    ensures stream == Columns(dataBlocks, MaxOf(Sizes(dataBlocks))) + Columns(ecBlocks, ec)
  {
    hide Columns, Total, MaxOf;
    var longest := MaxOf(Sizes(dataBlocks));
    var total := Total(Sizes(dataBlocks)) + |ecBlocks| * ec;
    LongestBlock(dataBlocks);
    InterleaveRoundTrip(dataBlocks, longest);
    InterleaveRoundTrip(ecBlocks, ec);
    assert Sizes(ecBlocks) == Repeat(|ecBlocks|, ec) == [] + Repeat(|ecBlocks|, ec);
    TotalRepeat([], |ecBlocks|, ec);
    EmptyTotal();
    var out := new Byte[total](_ => 0);
    var cursor := WriteColumns(dataBlocks, longest, out, 0);
    cursor := WriteColumns(ecBlocks, ec, out, cursor);
    stream := out[..];
  }

  lemma LongestBlock<T>(blocks: seq<seq<T>>)
    ensures forall b :: 0 <= b < |blocks| ==> |blocks[b]| <= MaxOf(Sizes(blocks))
  {
    forall b | 0 <= b < |blocks|
      ensures |blocks[b]| <= MaxOf(Sizes(blocks))
    {
      assert |blocks[b]| == Sizes(blocks)[b];
    }
  }
}
