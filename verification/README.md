# Verified models of the rock web application

Four parts of the application whose correctness is not visible from any single function, modelled in Dafny and
proved.

**The QR encoder** (`web/src/lib/qr.ts`). The field GF(256) with its lookup tables, the Reed-Solomon code, bit
packing, block interleaving, the BCH format and version words, the canvas with its function patterns, the zigzag
walk, the masks and their penalty score. Arrays and classes are updated in place as the source updates them, and
each loop is proved against a closed form. On top of that stands an independent reader (`Symbol.Decode`) and the
theorem that it returns the payload from every symbol the encoder makes. What a foreign reader relies on is stated
apart from it, in numbers and coordinates: the data codewords, the order of blocks, the format and version words,
the masks, and in `Conformance` every module of a finished symbol. Clause numbers of ISO/IEC 18004:2015:
7.4 data encodation, 7.5 error correction, 7.6 final codewords, 7.7 placement, 7.8 masking, 7.9 format
information, 7.10 version information.

**The registry indexer** (`web/src/lib/indexer.ts`, `indexer-cursor.ts`, `block-range.ts`). Any number of isolates
share one cursor row and one mirror table over a growing chain that may reorganise above the confirmed blocks. A
transition system interleaves their reads, chunked scans, single-row inserts, cursor advances and failures. The
invariant says what the cursor promises. Since the tail is a single query, every call has seen one chain up to its
head; the refinement theorem compares each answer with the full scan of that chain from the deploy block.

**The spend and rate ledgers** (`web/src/lib/rock-account.server.ts`, `rate-limit.ts`). The daily cap of the
relayer with its fee bound, over every interleaving of reservations, submissions and releases; the fixed-window
limit over every sequence of clock readings.

**The allowance batches** (`web/src/hooks/useBankRock.ts`, `web/src/lib/rock-account.ts`). The planner of approve
calls, run on a token that refuses to change one non-zero allowance into another, and what ships and top-ups do to
the allowance that all streams share.

Modules, bottom up: `Arithmetic`, `Bits`, `Gf2Poly`, `Gf256`, `ReedSolomon`, `Bch`, `Words`, `Versions`, `Codewords`,
`Interleave`, `BlockOrder`, `Layout`, `Zigzag`, `Capacity`, `CanvasModule`, `Patterns`, `Placement`, `Sums`,
`Penalty`, `Symbol`, `Encoder`, `Conformance`;
`BlockRanges`, `Events`, `Indexer`, `LaggingHead`; `SpendLedger`; `RateLimit`; `Approvals`; `Wrappers` for `Option`.
Verify with `dafny verify dfyconfig.toml`.

## What holds only under a condition

- **Siblings of a topped-up stream.** A top-up sizes its approval for the stream it raises. The push spends part of
  the allowance that all streams of the rock share, so another stream can end up with less allowance than it
  offers: `Approvals.SiblingLosesCover` is an instance and `Approvals.TopUpCover` the exact condition.
- **Approving the reserve.** The comments at `web/src/hooks/useBankRock.ts:708-711` and `959-960` ask for an
  approval of the whole reserve. The code approves the stream's own amounts (`web/src/hooks/useBankRock.ts:742-749`).
  The model follows the code. Because a ship never lowers an allowance, every stream stays covered on its own
  (`Approvals.OperationKeepsCover`). `Approvals.TwoShipsLeaveTheReserveUncovered` is an instance in which the
  allowance covers neither the tokens held nor the streams together; `Approvals.ShipCoversReserve` and
  `Approvals.TopUpCoversReserve` say exactly when it covers the one and the other.
- **Repeated tokens.** Every allowance is read before any call runs, so a token without an allowance that is wanted
  twice gives a batch that fails: `Approvals.RepeatedTokenReverts`, and `Approvals.PlanRuns` for the exact condition.
- **The best mask.** Masks are scored before the version word is written. From version 7 on the chosen mask is the
  best for the scored matrices; about the finished matrix nothing is claimed there.
- **Answers past the head.** A merged answer also holds rows that a faster isolate has mirrored beyond the head
  this call saw. `LaggingHead.AnswerPastTheHead` is a run with such an answer, `Indexer.MergedIsFullScan` the exact
  condition for any run, and `Indexer.UndisturbedAnswer` its reading when nothing was reorganised.

## Model

| member | source | states |
|---|---|---|
| Encoder.EncodeQr | web/src/lib/qr.ts:561-599 | refuses exactly the empty text, more than 213 bytes and a mask outside 0..7; otherwise returns the smallest version that fits, its exact modules, which decode to the payload, and the forced mask or the first best of the eight |
| Encoder.RoundTrip | web/src/lib/qr.ts:561-599 | the independent reader (size, format word, unmask, zigzag walk, de-interleave, header) returns exactly the payload from its matrix, in every version that fits it, with every mask and whatever the version areas show |
| Encoder.EncodingInjective | web/src/lib/qr.ts:561-599 | two finished matrices are equal if and only if payload, version and mask are |
| Encoder.DamagedMatrix | web/src/lib/qr.ts:50-76 | a matrix that shows at most half as many wrong codewords in each block of a symbol as the block has check symbols still determines the payload |
| Encoder.ChooseMask | web/src/lib/qr.ts:580-592 | scores the eight masks one after the other on the same canvas, keeps the first of the best, and leaves data and patterns as they were |
| Encoder.BestForFinalMatrix | web/src/lib/qr.ts:588-598 | below version 7 the chosen mask is also the best for the finished matrix |
| Encoder.ScoredIsFinal | web/src/lib/qr.ts:577-598 | below version 7 the scored matrix is the finished one, because no version word is written after scoring |
| Encoder.PatternsIntact | web/src/lib/qr.ts:334-373 | finder, alignment, timing and dark modules have their own colour in every encoding |
| Conformance.Finders | web/src/lib/qr.ts:334-345 | three corners show the ring, the core and the light separator |
| Conformance.TimingLines | web/src/lib/qr.ts:367-373 | row and column 6 are dark at even places between the finders, through the alignment patterns |
| Conformance.AlignmentPatterns | web/src/lib/qr.ts:347-365 | around every pair of centres but the finders' three: a dark ring, a light ring and a dark core |
| Conformance.DarkModuleShown | web/src/lib/qr.ts:387-388 | the module right of the bottom left separator is dark |
| Conformance.FormatModules | web/src/lib/qr.ts:396-412 | each bit of the format word, by its number, at its coordinates in both copies |
| Conformance.VersionModules | web/src/lib/qr.ts:414-423 | each bit of the version word, by its number, at its coordinates in both copies |
| Conformance.PlacedInOrder | web/src/lib/qr.ts:426-449 | data bits are placed strip by strip from the right, upwards and downwards in turn, the right module of each row first |
| Conformance.DataModules | web/src/lib/qr.ts:426-464 | every data module shows its bit of its codeword, most significant first, inverted where the mask says; remainder bits are light before masking |
| Encoder.DrawCanvas | web/src/lib/qr.ts:572-579 | patterns, reserved areas and data make exactly the drawn canvas in closed form |
| Encoder.WordsShown | web/src/lib/qr.ts:396-423 | both copies of the format word, and from version 7 on both copies of the version word, read back from every finished matrix to the mask's and the version's own |
| Symbol.StreamRead | web/src/lib/qr.ts:426-464 | unmasking and walking the data modules reads the codewords back in their order |
| Symbol.BlocksAreCodewords | web/src/lib/qr.ts:253-283 | every block of the final stream together with its check symbols is a codeword of the Reed-Solomon code |
| Gf256.Tables.constructor | web/src/lib/qr.ts:29-42 | the generation loop fills the antilog table with the powers of alpha, twice over, and the log table with their inverses |
| Gf256.Tables.GfMul | web/src/lib/qr.ts:44-47 | the table product is carry-less multiplication modulo 0x11D, zero included |
| Gf256.MulDist | web/src/lib/qr.ts:44-47 | multiplication distributes over exclusive or |
| Gf256.MulAssoc | web/src/lib/qr.ts:44-47 | multiplication is associative |
| Gf256.NoZeroDivisors | web/src/lib/qr.ts:44-47 | a product is zero only when a factor is |
| Gf256.AlphaDistinct | web/src/lib/qr.ts:29-42 | the powers alpha^0 to alpha^254 are pairwise distinct |
| Gf256.LogExists | web/src/lib/qr.ts:29-42 | every non-zero byte is one of those powers |
| Gf2Poly.PolyDivision | web/src/lib/qr.ts:29-42 | reduction gives quotient and remainder of the carry-less division by a generator of degree d |
| Gf2Poly.RemainderUnique | web/src/lib/qr.ts:153-180 | no other number below the generator's degree is the remainder |
| Gf2Poly.PolyModLinear | web/src/lib/qr.ts:44-47 | reduction is linear under exclusive or |
| ReedSolomon.RsGeneratorPoly | web/src/lib/qr.ts:50-61 | the in-place loops compute the generator polynomial |
| ReedSolomon.GeneratorIsProduct | web/src/lib/qr.ts:50-61 | the generator takes the value of the product of (x + alpha^i) at every field element |
| ReedSolomon.GeneratorRoots | web/src/lib/qr.ts:50-61 | alpha^0 to alpha^(degree-1) are roots of the generator |
| ReedSolomon.RsEncode | web/src/lib/qr.ts:64-76 | the in-place division computes the check symbols, including the skipped zero coefficients |
| ReedSolomon.EliminateAt | web/src/lib/qr.ts:70-74 | one elimination changes the buffer from position i on as the polynomial step does, and nothing before it |
| ReedSolomon.CodewordVanishes | web/src/lib/qr.ts:64-76 | data followed by its check symbols vanishes at alpha^0 to alpha^(ecLen-1) |
| ReedSolomon.CheckSymbolsUnique | web/src/lib/qr.ts:64-76 | for data of any length, a string of check symbols completes it to a codeword if and only if it is the computed one |
| ReedSolomon.CheckSymbolsLinear | web/src/lib/qr.ts:64-76 | the check symbols of a sum are the sum of the check symbols |
| ReedSolomon.BchBound | web/src/lib/qr.ts:64-76 | a word of length at most 255 with w zero syndromes and at most w non-zero symbols is zero (roots-and-locator argument) |
| ReedSolomon.MinimumDistance | web/src/lib/qr.ts:50-76 | different data of equal length, codeword length at most 255, get codewords that differ in at least ecLen + 1 positions |
| ReedSolomon.CorrectableErrors | web/src/lib/qr.ts:50-76 | a received word within half of ecLen errors determines the data |
| ReedSolomon.FirstPowers | web/src/lib/qr.ts:29-42 | the powers of alpha begin 1, 2, 4, up to 128, and go on with 29, which fixes the field polynomial 0x11D |
| ReedSolomon.GeneratorOfTwo | web/src/lib/qr.ts:50-61 | the generator of two check symbols is x^2 + 3x + 2 |
| ReedSolomon.CheckSymbolsOfOne | web/src/lib/qr.ts:64-76 | the check symbols of a single 1 are the generator without its leading coefficient |
| Bch.ShiftXorRemainder | web/src/lib/qr.ts:153-180 | the shift-and-xor loop ends for every starting value, because the bit length falls, and leaves the polynomial remainder |
| Bch.ShiftAndXor | web/src/lib/qr.ts:164-172 | one step lowers the bit length and keeps the remainder |
| Bch.FormatInfoBits | web/src/lib/qr.ts:164-172 | the loop computes the format word |
| Bch.FormatWordFacts | web/src/lib/qr.ts:164-172 | unmasked, the format word is a multiple of its generator, has 15 bits and carries the mask in its upper bits |
| Bch.VersionInfoBits | web/src/lib/qr.ts:174-180 | the loop computes the version word |
| Bch.VersionWordFacts | web/src/lib/qr.ts:174-180 | the version word is a multiple of its generator, has 18 bits and carries the version in its upper bits |
| Words.WordNumbers | web/src/lib/qr.ts:164-180 | the eight format words and the four version words as numbers |
| Words.FormatWordsApart | web/src/lib/qr.ts:164-172 | two format words differ in at least seven bits |
| Words.VersionWordsApart | web/src/lib/qr.ts:174-180 | two version words differ in at least eight bits |
| Versions.ChooseVersion | web/src/lib/qr.ts:214-224 | the smallest version that holds the payload, and an error exactly above 213 bytes |
| Versions.LevelM | web/src/lib/qr.ts:101-112 | the largest payload, the number of blocks and the check symbols per block of each of the ten versions |
| Versions.BlocksFillSymbol | web/src/lib/qr.ts:101-115 | data and check codewords of every version add up to its total |
| Codewords.BitBuffer.Put | web/src/lib/qr.ts:189-193 | appends exactly the low bits of the value, most significant first |
| Codewords.BitBuffer.ToCodewords | web/src/lib/qr.ts:199-205 | the bit-by-bit or into bytes cuts the bits into bytes, zero-filled up to the count and dropped beyond it |
| Codewords.ByteStep | web/src/lib/qr.ts:199-205 | one more bit changes only the byte that it falls in, and there by a bitwise or |
| Codewords.BuildDataCodewords | web/src/lib/qr.ts:227-250 | for every byte string and specification the codewords of the stream, cut off at the capacity or padded up to it; for a payload that fits, exactly the numbers of the next row |
| Codewords.DataCodewordNumbers | web/src/lib/qr.ts:227-250 | the codewords as numbers: 64 and the length, eight bits of it below version 10 and sixteen from there on, each payload byte shifted by half a byte, a zero half byte, then 236 and 17 in turn to the end |
| Codewords.TerminatorBits | web/src/lib/qr.ts:236-239 | a payload that fits leaves room for all four terminator bits, after which the stream is whole bytes and the byte-padding branch never runs; one that does not fit leaves room for none |
| Codewords.FillWithPads | web/src/lib/qr.ts:243-248 | the alternating pads fill every position from the index to the end and leave the earlier ones |
| Codewords.PayloadRoundTrip | web/src/lib/qr.ts:227-250 | reading mode, length and payload from the codewords returns the byte string |
| Interleave.InterleaveCodewords | web/src/lib/qr.ts:253-283 | the two nested writing loops compute the final codeword sequence |
| Interleave.FinalCodewordsRoundTrip | web/src/lib/qr.ts:253-283 | for every specification shape the output has the total length and a reader recovers all data blocks and their check blocks from it |
| BlockOrder.BlockIsSlice | web/src/lib/qr.ts:258-267 | the blocks are consecutive slices, those of the first group first |
| BlockOrder.DataOrder | web/src/lib/qr.ts:270-277 | data codeword i of block b is written at place i * g + b of g blocks, and in the columns beyond the first group among the second group alone |
| BlockOrder.CheckOrder | web/src/lib/qr.ts:278-281 | check symbol i of block b is written behind all data at place i * g + b |
| Interleave.InterleaveRoundTrip | web/src/lib/qr.ts:270-281 | column-wise writing of blocks of any lengths is undone by the positional reader |
| Interleave.PositionInjective | web/src/lib/qr.ts:270-281 | no two codewords are written to one position |
| Interleave.PositionOnto | web/src/lib/qr.ts:270-281 | every position is written by some codeword |
| Interleave.JoinSplit | web/src/lib/qr.ts:258-266 | the blocks, put end to end, are the data again |
| CanvasModule.Canvas.constructor | web/src/lib/qr.ts:321-323 | all modules unset and free |
| CanvasModule.Canvas.SetModule | web/src/lib/qr.ts:325-328 | changes one module and no other, and never frees a reserved one |
| Patterns.PlaceFinder | web/src/lib/qr.ts:334-345 | the finder with its separator, clipped at the border, in closed form |
| Patterns.PlaceAlignment | web/src/lib/qr.ts:347-365 | the alignment patterns at the centres of the version other than the three finder corners, and nothing else |
| Patterns.PlaceTiming | web/src/lib/qr.ts:367-373 | row and column 6 alternate where nothing is reserved yet |
| Patterns.ReserveFormatAreas | web/src/lib/qr.ts:375-394 | format areas, dark module and version areas are reserved and no placed pattern changes |
| Patterns.PlacePatterns | web/src/lib/qr.ts:572-578 | the reserved set of every version is the closed-form union of rectangles, and every other module is unset |
| Patterns.WriteFormatInfo | web/src/lib/qr.ts:396-412 | both copies of the format word are written, each bit to its own module, and the dark module stays dark |
| Patterns.WriteVersionInfo | web/src/lib/qr.ts:414-423 | both copies of the version word are written from version 7 on |
| Layout.ColumnSixReserved | web/src/lib/qr.ts:367-373 | column 6 is fully reserved, so skipping it loses no module |
| Zigzag.WalkVisitsOnce | web/src/lib/qr.ts:426-449 | every step of the walk is on a module outside column 6, and no other step is on it |
| Zigzag.WalkVisitsAll | web/src/lib/qr.ts:426-449 | every module outside column 6 is visited, for every odd size from 7 on |
| Zigzag.BitIndexInjective | web/src/lib/qr.ts:426-449 | two data modules never show the same bit |
| Capacity.EveryBitLands | web/src/lib/qr.ts:426-449 | every codeword bit and every remainder bit of a version lands on one data module, and on no other |
| Capacity.DataModulesExact | web/src/lib/qr.ts:115-132 | the data modules of each version are exactly eight per codeword plus the remainder bits |
| Zigzag.ReadPairsShown | web/src/lib/qr.ts:426-449 | a walk over a grid that shows some bits reads them back in order |
| Placement.PlaceData | web/src/lib/qr.ts:426-449 | every data module gets the bit of its rank, no reserved module is written, none stays unset |
| Placement.ApplyMask | web/src/lib/qr.ts:451-464 | data modules are flipped where the mask is set, reserved ones are shown as they are |
| Placement.MaskInverts | web/src/lib/qr.ts:451-464 | every data module alike is inverted or kept, and no reserved one is inverted |
| Placement.AllInvertOrigin | web/src/lib/qr.ts:302-311 | all eight masks invert the top left module |
| Placement.StripeMasks | web/src/lib/qr.ts:302-306 | mask 0 changes with every row and column, mask 1 with every row only; mask 2 inverts every third column, mask 3 every third diagonal |
| Placement.TileMask | web/src/lib/qr.ts:307-307 | mask 4 is constant on tiles of two rows by three columns and changes from each to the next in both directions |
| Placement.ProductMasks | web/src/lib/qr.ts:308-310 | mask 5 inverts exactly where 6 divides row times column, mask 6 where that product modulo 6 is below 3, mask 7 by its remainder modulo 3 against the parity of row plus column |
| Penalty.MaskPenalty | web/src/lib/qr.ts:476-545 | the four rules' loops compute the declarative score of every square matrix |
| Penalty.CountRuns | web/src/lib/qr.ts:480-505 | counting runs as they end gives the sum over maximal runs |
| Penalty.CountPatterns | web/src/lib/qr.ts:519-537 | the eleven-module windows are counted in both directions |
| Penalty.BlockPenalty | web/src/lib/qr.ts:507-517 | three for each two-by-two block of one colour |
| Penalty.BalancePenalty | web/src/lib/qr.ts:539-544 | ten for each whole five per cent that the dark share is off one half |
| Penalty.BalanceSteps | web/src/lib/qr.ts:539-544 | the steps counted are the whole multiples of five per cent by which the dark share is off one half |
| Penalty.WindowPatterns | web/src/lib/qr.ts:519-537 | which eleven modules in a row count as a pattern |
| Penalty.OneColourScore | web/src/lib/qr.ts:476-545 | the score of an all-dark or all-light matrix of any size from 5 on, as a number |
| Penalty.PatternRowsScore | web/src/lib/qr.ts:476-545 | the score of eleven rows that each show the finder-like pattern, as a number |
| Penalty.PenaltyTranspose | web/src/lib/qr.ts:476-545 | the score does not change when the matrix is transposed |
| Penalty.PenaltyRotate | web/src/lib/qr.ts:476-545 | nor when it is turned by half a circle |
| BlockRanges.BuildBlockRanges | web/src/lib/block-range.ts:28-44 | contiguous, non-empty ranges from the first block to the last, all but the last of full chunk size; an error exactly for a chunk size that is not positive |
| BlockRanges.DefaultChunks | web/src/lib/block-range.ts:15-44 | by default every query but the last spans exactly 2000 blocks, and the last no more |
| BlockRanges.TilesPartition | web/src/lib/block-range.ts:28-44 | such ranges put every block of the interval in exactly one range and no other block in any |
| BlockRanges.PlanPartition | web/src/lib/indexer.ts:418-428 | confirmed ranges followed by tail ranges partition the blocks from the start to the head, for every cursor and head |
| BlockRanges.TailIsOneQuery | web/src/lib/indexer.ts:424-428 | the unconfirmed tail of every scan is at most one log query |
| BlockRanges.ScanBounds | web/src/lib/indexer.ts:100-106 | where the confirmed part and the tail of a scan begin and end, in numbers |
| BlockRanges.ScansTelescope | web/src/lib/indexer.ts:418-489 | over any sequence of heads, the confirmed scans of one isolate follow each other without gap or overlap |
| BlockRanges.CursorRow.Advance | web/src/lib/indexer-cursor.ts:110-129 | the conditional upsert never moves the cursor back; it reports success only when the row names the block or a later one, and none when the write or its answer is lost |
| Events.SortFacts | web/src/lib/indexer.ts:344-350 | sorting gives a permutation of the events by falling block, and by falling log index within a block |
| Events.SortLeavesSorted | web/src/lib/indexer.ts:344-350 | a list already in that order stays as it is |
| Events.MergeEvents | web/src/lib/indexer.ts:359-367 | the map-filling loops compute the merge: stored events, recent ones over them, by falling block and log index |
| Events.MergeFacts | web/src/lib/indexer.ts:359-367 | a merge is newest first without duplicate ids, holds nothing new, and keeps every event whose id has no rival |
| Events.MergeMembers | web/src/lib/indexer.ts:359-367 | a merge holds exactly the recent events and those stored ones whose ids are not among the recent |
| Events.StrictOrderUnique | web/src/lib/indexer.ts:344-350 | one set of events has one strictly ordered listing |
| Events.FullScanFacts | web/src/lib/indexer.ts:380-405 | the full scan lists exactly the events of the rock from the deploy block to the head, by strictly falling block and log index and without duplicates |
| Events.MirrorTable.Mirror | web/src/lib/indexer.ts:573-604 | row-by-row insertion that may fail after any row keeps all old rows and leaves exactly the rows before the failure inserted |
| Events.MirroringIdempotent | web/src/lib/indexer.ts:566-604 | mirroring a range again, wholly or in part, changes nothing |
| Indexer.NextInv | web/src/lib/indexer.ts:407-505 | every step of any isolate and every chain step keeps the invariant, settled blocks, mirrored rows and the cursor's direction |
| Indexer.CrashSafe | web/src/lib/indexer.ts:476-489 | in every reachable state every event from the deploy block to the cursor is mirrored, and the mirror holds only settled chain events |
| Indexer.CursorForward | web/src/lib/indexer-cursor.ts:45-48 | over any run the cursor never moves back and no mirrored row is lost or changed |
| Indexer.AdvanceOk | web/src/lib/indexer.ts:482-489 | when an isolate advances the cursor, everything up to the confirmed head is mirrored, whatever other isolates have done |
| Indexer.MergedAnswer | web/src/lib/indexer.ts:491-505 | an answer merged with the stored rows is newest first without duplicates, holds the whole full scan of the chain that the tail query saw and every confirmed event of the present chain, and nothing but events of one of the two |
| Indexer.UndisturbedAnswer | web/src/lib/indexer.ts:407-505 | when no block up to the head was reorganised since the tail query, a merged answer is the full scan of the present chain if and only if no row lies beyond the head |
| Indexer.MergedIsFullScan | web/src/lib/indexer.ts:407-505 | for every mix of reorganisations and isolates, a merged answer is the full scan of the chain that the tail query saw if and only if that scan has the id of every row read back |
| Indexer.RunAnswer | web/src/lib/indexer.ts:407-505 | every real answer of every run, with or without a database: by falling block and log index, no id twice; complete; equal to the full scan of the chain seen outright when no rows were merged, and otherwise if and only if that scan has every row's id; the chain seen was the chain at some moment of the run; a resumed call never answers without rows |
| Indexer.SeenInRun | web/src/lib/indexer.ts:424-481 | the chain that a scan saw at its tail query was the chain at some moment of the run |
| Indexer.OwnIsSeen | web/src/lib/indexer.ts:449-484 | confirmed chunks read off many states of the chain and the one tail query together are the logs of the chain that the tail query saw |
| LaggingHead.AnswerPastTheHead | web/src/lib/indexer.ts:407-505 | a concrete run of two isolates, the first with a lagging head, that ends in an answer other than the full scan up to that head |
| SpendLedger.FeeBound | web/src/lib/rock-account.server.ts:337-359 | acceptance is exactly that nine eighths of the base fee, rounded down, fit the budget; gas times the fee limit is at most the budget and within one wei per gas of it; the tip is the smaller of one gwei and what the next base fee leaves |
| SpendLedger.ClaimFees | web/src/lib/rock-account.server.ts:308-359 | a relayed claim is sent with 300000 gas at exactly 6666666666 wei, and only while nine eighths of the base fee do not exceed that |
| SpendLedger.FeesMonotone | web/src/lib/rock-account.server.ts:337-359 | a lower base fee is accepted whenever a higher one is, with at least its tip |
| SpendLedger.CostWithinBudget | web/src/lib/rock-account.server.ts:313-359 | in any block whose base fee has risen by at most one eighth, whatever gas is used costs no more than the budget |
| SpendLedger.RelayerLedger.ReserveRelayerSpend | web/src/lib/rock-account.server.ts:222-266 | the atomic upsert accepts exactly positive amounts that fit the cap together with what the day has spent, adds them to that day alone, and changes nothing otherwise |
| SpendLedger.RelayerLedger.ReleaseRelayerSpend | web/src/lib/rock-account.server.ts:269-283 | an existing row becomes the greater of zero and its amount less the release; no row is created and no other day changes |
| SpendLedger.StepInv | web/src/lib/rock-account.server.ts:222-283 | every reservation, submission, surrender and release keeps held reservations within the ledger and the ledger within the cap |
| SpendLedger.ClampNeverFires | web/src/lib/rock-account.server.ts:269-283 | releasing what a claim still holds never meets the clamp at zero |
| SpendLedger.DailyCap | web/src/lib/rock-account.server.ts:222-496 | after any run, lost answers and failed releases included, a day's ledger is within the cap and covers the worst-case cost of every claim broadcast under that day's reservations |
| SpendLedger.LedgerIsHeld | web/src/lib/rock-account.server.ts:222-283 | in runs in which no answer and no release is lost, a day's ledger is exactly what its claims still hold, so every release gives back the whole amount |
| RateLimit.RateStore.ConsumeRateLimit | web/src/lib/rate-limit.ts:58-96 | a later window resets the count, any other call adds one; allowed exactly within the limit; fails open and unenforced without an answer |
| RateLimit.RateStore.RequireRateLimit | web/src/lib/rate-limit.ts:135-154 | accepted exactly when the call was counted, answered and within the limit; 429 over the limit, 503 without an answer |
| RateLimit.RowCounts | web/src/lib/rate-limit.ts:71-78 | for any clock readings and store failures the stored window never moves back and its count is the number of calls counted into it |
| RateLimit.WindowAdmits | web/src/lib/rate-limit.ts:71-85 | in every stored window the admitted calls and those counted within the limit whose answer was lost are together exactly the smaller of the limit and the calls counted |
| RateLimit.StoredWindow | web/src/lib/rate-limit.ts:66-78 | with clocks that do not run backwards the stored window is the last counted call's own |
| RateLimit.TwiceTheLimit | web/src/lib/rate-limit.ts:58-96 | with such clocks, any interval of one window length admits at most twice the limit |
| Approvals.BuildApprovals | web/src/hooks/useBankRock.ts:946-974 | the loop emits the planned calls, and fails exactly when a needed allowance cannot be read |
| Approvals.RunWant | web/src/lib/rock-account.ts:755-793 | the calls for one token fail exactly when a token read as having no allowance has one by now; otherwise they leave exactly the wanted allowance |
| Approvals.PlanRuns | web/src/hooks/useBankRock.ts:946-974 | on a token that refuses a change from non-zero to non-zero, a plan fails if and only if a token read as having no allowance is asked for twice or has been given one since; otherwise each allowance is the last one wanted above what was read |
| Approvals.DistinctPlanRuns | web/src/hooks/useBankRock.ts:946-974 | for distinct tokens a plan never fails, even when the allowances have been drawn on since; each allowance becomes the greater of current and wanted and all others stay |
| Approvals.RepeatedTokenReverts | web/src/hooks/useBankRock.ts:946-974 | a concrete plan with one token twice that fails |
| Approvals.TopUpStrategy | web/src/hooks/useBankRock.ts:833-916 | the batch of a top-up: refused exactly for negative or no amounts, a stream that is not live or an allowance that cannot be read; otherwise approvals for the new balance plus the push, then the pushes |
| Approvals.TopUpRuns | web/src/hooks/useBankRock.ts:874-905 | a top-up planned on the present allowances goes through if and only if the tokens are held; no token moves, only this stream's balances rise, and each pushed token's allowance is the greater of current and asked less the push |
| Approvals.TopUpRunsLater | web/src/hooks/useBankRock.ts:874-905 | a top-up whose allowances have been drawn on and whose stream has been pulled from since they were read goes through if and only if the tokens are held and each approval left out still has room for its push; its whole effect |
| Approvals.TopUpCover | web/src/hooks/useBankRock.ts:874-886 | the allowance then covers the topped-up stream; another stream stays covered if and only if its balance is no greater than the new one or the allowance had room for the push beside it |
| Approvals.SiblingLosesCover | web/src/hooks/useBankRock.ts:874-886 | a concrete top-up after which another stream is no longer covered |
| Approvals.ShipStrategy | web/src/hooks/useBankRock.ts:713-754 | the batch of a ship: approvals for the stream's own amounts, then the ship |
| Approvals.ShipRuns | web/src/hooks/useBankRock.ts:713-754 | a ship of a new stream never fails and each allowance becomes the greater of current and the stream's amount |
| Approvals.ShipCoversReserve | web/src/hooks/useBankRock.ts:708-749 | after a ship the allowance covers what the rock holds, and what all streams offer together, each if and only if a stated condition on allowance and amounts before it holds |
| Approvals.TopUpCoversReserve | web/src/hooks/useBankRock.ts:874-905 | the same two conditions for a top-up |
| Approvals.TwoShipsLeaveTheReserveUncovered | web/src/hooks/useBankRock.ts:708-749 | two concrete ships after which the allowance covers each stream but neither the reserve nor the two together |
| Approvals.OperationKeepsCover | web/src/hooks/useBankRock.ts:713-916 | a ship keeps all streams individually covered; a top-up does if and only if it leaves room for the siblings |
| Approvals.HistoryKeepsCover | web/src/hooks/useBankRock.ts:713-916 | so does any history of ships and such top-ups, failed operations included |
| Approvals.OneStreamCovered | web/src/hooks/useBankRock.ts:833-916 | a rock with a single stream is covered after any history |

## Left out

QR encoder:

- UTF-8: the payload is the byte string; `TextEncoder` is not part of this model. A forced mask is an integer or absent.
- `qrPathData` and `qrViewBoxSize`, which only render.
- Penalty.BalancePenalty: exact integer division stands for the floating-point quotient of rule 4; the source's result for a matrix without modules (not a number) is not modelled.
- Penalty.MaskPenalty: takes non-empty square matrices, which are all that the encoder scores; its one function body is split into one method for each rule.
- Encoder.ChooseMask: from version 7 on its optimality is about the scored matrices, as the code scores them.
- ReedSolomon.RsGeneratorPoly: takes degrees up to 512, the size of the antilog table; the versions use at most 26.
- Placement.PlaceData: takes the canvas of a version with its patterns placed, as `encodeQr` calls it.
- Patterns.ReserveFormatAreas: the version areas are reserved by the loop that later writes the version word, here with the word zero.
- Canvas arrays hold the modules of one symbol row by row; two canvases never share arrays.

Indexer:

- Decoding logs, mapping rows and describing events: an event is its transaction hash, log index, block, rock and a text.
- The 15-second cache of answers: the theorems are about freshly computed answers.
- Block timestamps, sanitising of arguments, parsing of the stored cursor value, the choice between the two database handles (both are bound or neither is).
- Reorganisations of blocks that have had their confirmations: assumed not to happen.
- Confirmed blocks may be scanned in chunks of any size; the tail is chunked by the source's 2000 blocks. A log query is one step; a query that fails ends the call.
- Indexer.UndisturbedAnswer: about calls whose blocks up to the head were not reorganised since the tail query; `Indexer.MergedIsFullScan` has no such condition.
- Rows of another registry: cursors are kept per chain and registry, but `readStoredEvents` selects rows by rock alone. Every run starts with an empty mirror, so rows that an earlier registry left behind, which would enter merged answers, are assumed absent.

Ledgers:

- SQL text casts and 64-bit integers: an upsert is one atomic step on integers, and the cap, bound as text in the source, is compared as an integer.
- Reading the cap from the environment, day keys from the clock, hashing of rate-limit keys, reasons and log messages.
- Signing, sending and receipts: a send that throws counts as not broadcast, as in the source.
- SpendLedger.DailyCap: reservations are of the default amount, as the claim route makes them.

Allowance batches:

- ABI encoding, the bundler and its gas, account lookup and stream discovery; 256-bit amounts are unbounded integers.
- Aqua: only the effects that the comments state, a push as a transfer to oneself that spends allowance and a ship that opens a stream with its amounts; pulls, docking and swaps are not part of this model.
- Approvals.TopUpRuns: about the allowances that were read when the batch was planned; `Approvals.TopUpRunsLater` covers allowances and balances drawn on in between. The two tokens are different ones throughout.
- Approvals.OperationKeepsCover: ships and top-ups alone, each planned on the allowances it runs on.

Not modelled at all: React components and pages, the service worker, e-mail, the tag verifier, error classification, telemetry, the contracts and the quote code.
