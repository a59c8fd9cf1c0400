/** Splitting a block interval into chunks that a provider will serve. */
module BlockRanges {
  import opened Arithmetic

  const MAX_BLOCK_CHUNK: int := 2000

  datatype BlockRange = BlockRange(fromBlock: int, toBlock: int)

  datatype RangesResult = Ranges(ranges: seq<BlockRange>) | ChunkNotPositive

  /** Contiguous, non-empty ranges that cover from..to and nothing else. */
  predicate Tiles(ranges: seq<BlockRange>, from: int, to: int) {
    if ranges == [] then to < from
    else
      && ranges[0].fromBlock == from
      && from <= ranges[0].toBlock <= to
      && Tiles(ranges[1..], ranges[0].toBlock + 1, to)
  }

  /** Such ranges with all but the last of full chunk size. */
  predicate ChunkedBy(ranges: seq<BlockRange>, from: int, to: int, chunkSize: int) {
    && Tiles(ranges, from, to)
    && (forall k :: 0 <= k < |ranges| ==> ranges[k].toBlock - ranges[k].fromBlock < chunkSize)
    && (forall k :: 0 <= k < |ranges| - 1 ==> ranges[k].toBlock - ranges[k].fromBlock == chunkSize - 1)
  }

  lemma {:induction false} TilesConcat(a: seq<BlockRange>, b: seq<BlockRange>, from: int, mid: int, to: int)
    requires from <= mid + 1 <= to + 1
    requires Tiles(a, from, mid) && Tiles(b, mid + 1, to)
    ensures Tiles(a + b, from, to)
  {
    if a == [] {
      assert a + b == b;
    } else {
      TilesConcat(a[1..], b, a[0].toBlock + 1, mid, to);
      assert (a + b)[1..] == a[1..] + b;
    }
  }

  /** Every block of the interval is in exactly one range, and no other block is in any. */
  lemma {:induction false} TilesPartition(ranges: seq<BlockRange>, from: int, to: int, block: int)
    requires Tiles(ranges, from, to)
    ensures from <= block <= to <==>
      exists k :: 0 <= k < |ranges| && ranges[k].fromBlock <= block <= ranges[k].toBlock
    ensures forall k, l :: 0 <= k < l < |ranges| ==> ranges[k].toBlock < ranges[l].fromBlock
    ensures forall k :: 0 <= k < |ranges| ==> from <= ranges[k].fromBlock <= ranges[k].toBlock <= to
  {
    if ranges == [] {
    } else {
      var rest := ranges[1..];
      TilesPartition(rest, ranges[0].toBlock + 1, to, block);
      forall k | 1 <= k < |ranges|
        ensures ranges[k] == rest[k - 1]
      {
      }
      if ranges[0].toBlock < block <= to {
        var k :| 0 <= k < |rest| && rest[k].fromBlock <= block <= rest[k].toBlock;
        assert ranges[k + 1].fromBlock <= block <= ranges[k + 1].toBlock;
      }
    }
  }

  lemma {:induction false} TilesSnoc(ranges: seq<BlockRange>, from: int, cursor: int, last: BlockRange)
    requires from <= cursor == last.fromBlock <= last.toBlock
    requires Tiles(ranges, from, cursor - 1)
    ensures Tiles(ranges + [last], from, last.toBlock)
  {
    assert Tiles([], last.toBlock + 1, last.toBlock);
    assert [last][1..] == [];
    assert Tiles([last], cursor, last.toBlock);
    TilesConcat(ranges, [last], from, cursor - 1, last.toBlock);
  }

  method BuildBlockRanges(fromBlock: int, toBlock: int, chunkSize: int) returns (r: RangesResult)
    ensures r.ChunkNotPositive? <==> chunkSize <= 0
    ensures r.Ranges? ==> ChunkedBy(r.ranges, fromBlock, toBlock, chunkSize)
  {
    if chunkSize <= 0 {
      return ChunkNotPositive;
    }
    if toBlock < fromBlock {
      return Ranges([]);
    }
    var ranges: seq<BlockRange> := [];
    var cursor := fromBlock;
    while cursor <= toBlock
      invariant fromBlock <= cursor
      invariant Tiles(ranges, fromBlock, if cursor <= toBlock then cursor - 1 else toBlock)
      invariant forall k :: 0 <= k < |ranges| ==> ranges[k].toBlock - ranges[k].fromBlock < chunkSize
      invariant forall k :: 0 <= k < |ranges| && (k < |ranges| - 1 || cursor <= toBlock) ==>
        ranges[k].toBlock - ranges[k].fromBlock == chunkSize - 1
      decreases toBlock - cursor
    {
      var end := cursor + chunkSize - 1;
      var last := BlockRange(cursor, if end > toBlock then toBlock else end);
      TilesSnoc(ranges, fromBlock, cursor, last);
      ranges := ranges + [last];
      cursor := end + 1;
    }
    return Ranges(ranges);
  }

  // ----- the confirmed part and the tail of one scan -----

  const INDEXER_CONFIRMATIONS: int := 3

  /** The newest block that is settled enough to be written down. */
  function ConfirmedHead(currentBlock: int): int {
    if currentBlock - INDEXER_CONFIRMATIONS < 0 then 0 else currentBlock - INDEXER_CONFIRMATIONS
  }

  function TailFrom(fromBlock: int, head: int): int {
    if ConfirmedHead(head) + 1 > fromBlock then ConfirmedHead(head) + 1 else fromBlock
  }

  /** An interval that fits a chunk is one range. */
  lemma OneChunk(ranges: seq<BlockRange>, from: int, to: int, chunkSize: int)
    requires ChunkedBy(ranges, from, to, chunkSize) && to - from < chunkSize
    ensures ranges == if to < from then [] else [BlockRange(from, to)]
  {
    if |ranges| == 1 {
      assert Tiles(ranges[1..], ranges[0].toBlock + 1, to);
    } else if |ranges| > 1 {
      FirstOfMany(ranges, from, to);
    }
  }

  lemma FirstOfMany(ranges: seq<BlockRange>, from: int, to: int)
    requires Tiles(ranges, from, to) && |ranges| > 1
    ensures ranges[0].toBlock < to
  {
    assert Tiles(ranges[1..], ranges[0].toBlock + 1, to);
    assert ranges[1..][0] == ranges[1];
  }

  /** By default a query spans 2000 blocks, the last one no more. */
  lemma DefaultChunks(ranges: seq<BlockRange>, from: int, to: int, k: nat)
    requires ChunkedBy(ranges, from, to, MAX_BLOCK_CHUNK) && k < |ranges|
    ensures ranges[k].toBlock <= ranges[k].fromBlock + 1999
    ensures k + 1 < |ranges| ==> ranges[k].toBlock == ranges[k].fromBlock + 1999
  {
  }

  /** The unconfirmed tail of a scan is at most one log query. */
  lemma TailIsOneQuery(ranges: seq<BlockRange>, fromBlock: int, head: int)
    requires head >= 0 && ChunkedBy(ranges, TailFrom(fromBlock, head), head, MAX_BLOCK_CHUNK)
    ensures ranges == if head < TailFrom(fromBlock, head) then [] else [BlockRange(TailFrom(fromBlock, head), head)]
  {
    OneChunk(ranges, TailFrom(fromBlock, head), head, MAX_BLOCK_CHUNK);
  }

  /** What a call scans: from the block after the cursor or the deploy block, confirmed up to three blocks
      below the head, and the tail above both. */
  lemma ScanBounds(deployBlock: int, cursor: Cursor, head: nat)
    ensures ResumeFrom(deployBlock, cursor) == if cursor.At? then Max(deployBlock, cursor.block + 1) else deployBlock
    ensures ConfirmedHead(head) == Max(0, head - 3)
    ensures TailFrom(ResumeFrom(deployBlock, cursor), head)
         == Max(ResumeFrom(deployBlock, cursor), Max(1, head - 2))
  {
  }

  /** Confirmed ranges followed by tail ranges partition fromBlock..head. */
  lemma PlanPartition(confirmed: seq<BlockRange>, tail: seq<BlockRange>, fromBlock: int, head: int)
    requires head >= 0
    requires Tiles(confirmed, fromBlock, ConfirmedHead(head))
    requires Tiles(tail, TailFrom(fromBlock, head), head)
    ensures Tiles(confirmed + tail, fromBlock, head)
  {
    if ConfirmedHead(head) < fromBlock {
      assert confirmed == [];
      assert confirmed + tail == tail;
    } else {
      TilesConcat(confirmed, tail, fromBlock, ConfirmedHead(head), head);
    }
  }

  // ----- the cursor over a run of polls -----

  datatype Cursor = NoCursor | At(block: int)

  function ResumeFrom(deployBlock: int, cursor: Cursor): int {
    if cursor.NoCursor? then deployBlock
    else if cursor.block + 1 > deployBlock then cursor.block + 1 else deployBlock
  }

  /** The stored cursor after an advance: it only ever moves forward. */
  function Forward(cursor: Cursor, block: int): Cursor {
    if cursor.NoCursor? || block > cursor.block then At(block) else cursor
  }

  /** The cursor after one poll whose writes succeed. */
  function AfterPoll(deployBlock: int, cursor: Cursor, head: int): Cursor {
    if ConfirmedHead(head) >= ResumeFrom(deployBlock, cursor) then Forward(cursor, ConfirmedHead(head)) else cursor
  }

  /** The confirmed intervals scanned by one isolate that sees these heads in turn. */
  function ConfirmedScans(deployBlock: int, cursor: Cursor, heads: seq<int>): seq<BlockRange>
    decreases heads
  {
    if heads == [] then []
    else
      var from := ResumeFrom(deployBlock, cursor);
      (if ConfirmedHead(heads[0]) >= from then [BlockRange(from, ConfirmedHead(heads[0]))] else [])
      + ConfirmedScans(deployBlock, AfterPoll(deployBlock, cursor, heads[0]), heads[1..])
  }

  function FinalCursor(deployBlock: int, cursor: Cursor, heads: seq<int>): Cursor
    decreases heads
  {
    if heads == [] then cursor else FinalCursor(deployBlock, AfterPoll(deployBlock, cursor, heads[0]), heads[1..])
  }

  /** Over any run the confirmed scans follow each other without gap or overlap, for any heads. */
  lemma {:induction false} ScansTelescope(deployBlock: int, cursor: Cursor, heads: seq<int>)
    decreases heads
    ensures ResumeFrom(deployBlock, cursor) <= ResumeFrom(deployBlock, FinalCursor(deployBlock, cursor, heads))
    ensures Tiles(ConfirmedScans(deployBlock, cursor, heads), ResumeFrom(deployBlock, cursor),
                  ResumeFrom(deployBlock, FinalCursor(deployBlock, cursor, heads)) - 1)
  {
    if heads == [] {
    } else {
      var from := ResumeFrom(deployBlock, cursor);
      var next := AfterPoll(deployBlock, cursor, heads[0]);
      ScansTelescope(deployBlock, next, heads[1..]);
      var rest := ConfirmedScans(deployBlock, next, heads[1..]);
      if ConfirmedHead(heads[0]) >= from {
        var first := BlockRange(from, ConfirmedHead(heads[0]));
        assert ConfirmedScans(deployBlock, cursor, heads) == [first] + rest;
        assert ([first] + rest)[1..] == rest;
      } else {
        assert ConfirmedScans(deployBlock, cursor, heads) == rest;
      }
    }
  }

  /** What becomes of the upsert, and whether a re-read after it succeeds. */
  datatype CursorStore = Acknowledged(readable: bool) | AnswerLost | NotApplied

  class CursorRow {
    var cursor: Cursor

    constructor ()
      ensures cursor == NoCursor
    {
      cursor := NoCursor;
    }

    /** One conditional upsert, then a re-read when no row changed. True only when the row names the block
        or a later one; false, whatever the row says, when the answer of the upsert is lost. */
    method Advance(lastBlock: int, store: CursorStore) returns (reached: bool)
      modifies this
      ensures cursor == if lastBlock < 0 || store.NotApplied? then old(cursor) else Forward(old(cursor), lastBlock)
      ensures lastBlock >= 0 && !store.NotApplied? ==>
        cursor == At(if old(cursor).At? then Max(old(cursor).block, lastBlock) else lastBlock)
      ensures old(cursor).At? ==> cursor.At? && cursor.block >= old(cursor).block
      ensures reached ==> cursor.At? && cursor.block >= lastBlock
      ensures reached <==> lastBlock >= 0 && store.Acknowledged? && (cursor != old(cursor) || store.readable)
    {
      if lastBlock < 0 {
        return false;
      }
      if store.NotApplied? {
        return false;
      }
      var changes := 0;
      if cursor.NoCursor? || lastBlock > cursor.block {
        cursor := At(lastBlock);
        changes := 1;
      }
      if store.AnswerLost? {
        return false;
      }
      if changes > 0 {
        return true;
      }
      return store.readable && cursor.At? && cursor.block >= lastBlock;
    }
  }
}
