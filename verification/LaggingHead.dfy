/** A run in which a call answers more than the full scan up to its head: the first isolate reads a lagging
    head, the second resumes at the cursor that the first has left and mirrors an event above that head. */
module LaggingHead {
  import opened Wrappers
  import opened BlockRanges
  import opened Events
  import opened Indexer

  const ROCK: nat := 7
  const EVENT: Event := Event(1, 0, 7, 5, "awakened")

  /** Nine blocks with one event, in block 5. */
  const CHAIN: Chain := [[], [], [], [], [], [EVENT], [], [], []]

  const SEEN_FIRST: Scan := Scan([], [], CHAIN)
  const SEEN_SECOND: Scan := Scan([EVENT], [], CHAIN)

  /** The head that the first isolate reads is block 4, the second isolate reads block 8. */
  const FIRST: Job := Job(ROCK, true, false, 0, 4)
  const SECOND: Job := Job(ROCK, true, true, 2, 8)

  function Both(mirror: map<EventId, Event>, cursor: Cursor, first: Phase, second: Phase): State {
    State(0, CHAIN, 5, mirror, cursor, [first, second])
  }

  /** The first isolate's call, up to where it reads its rows back. */
  function FirstCall(): seq<State> {
    [ Both(map[], NoCursor, Idle, Idle),
      Both(map[], NoCursor, CursorRead(ROCK, true, NoCursor), Idle),
      Both(map[], NoCursor, Scanning(FIRST, [BlockRange(0, 1)], []), Idle),
      Both(map[], NoCursor, Scanning(FIRST, [], []), Idle),
      Both(map[], NoCursor, TailScanning(FIRST, [BlockRange(2, 4)], SEEN_FIRST), Idle),
      Both(map[], NoCursor, TailScanning(FIRST, [], SEEN_FIRST), Idle),
      Both(map[], NoCursor, Mirroring(FIRST, 0, SEEN_FIRST), Idle),
      Both(map[], NoCursor, Advancing(FIRST, SEEN_FIRST), Idle),
      Both(map[], At(1), Reading(FIRST, SEEN_FIRST), Idle) ]
  }

  /** The second isolate's call, up to its one insert, and then the first isolate's answer. */
  function SecondCall(): seq<State> {
    var reading := Reading(FIRST, SEEN_FIRST);
    [ Both(map[], At(1), reading, CursorRead(ROCK, true, At(1))),
      Both(map[], At(1), reading, Scanning(SECOND, [BlockRange(2, 5)], [])),
      Both(map[], At(1), reading, Scanning(SECOND, [], [EVENT])),
      Both(map[], At(1), reading, TailScanning(SECOND, [BlockRange(6, 8)], Scan([EVENT], [], CHAIN))),
      Both(map[], At(1), reading, TailScanning(SECOND, [], SEEN_SECOND)),
      Both(map[], At(1), reading, Mirroring(SECOND, 0, SEEN_SECOND)),
      Both(map[Id(EVENT) := EVENT], At(1), reading, Mirroring(SECOND, 1, SEEN_SECOND)),
      Both(map[Id(EVENT) := EVENT], At(1), Answered(Real([EVENT])), Mirroring(SECOND, 1, SEEN_SECOND)) ]
  }

  function LaggingRun(): (run: seq<State>)
    ensures |run| == 17
  {
    FirstCall() + SecondCall()
  }

  lemma {:induction false} NoEvent(from: nat, upTo: int)
    requires upTo < 5 || from > 5
    ensures Logs(CHAIN, from, upTo) == []
    decreases upTo
  {
    if upTo >= from {
      NoEvent(from, upTo - 1);
    }
  }

  lemma OneEvent()
    ensures Logs(CHAIN, 2, 5) == [EVENT]
  {
    NoEvent(2, 4);
  }

  lemma ChainIsValid()
    ensures ValidChain(CHAIN)
  {
  }

  lemma FirstStep(s: State, s': State, a: Action)
    requires |s.isolates| == 2 && |s'.isolates| == 2 && s'.isolates[1] == s.isolates[1] && !a.NewChain?
    requires s' == s.(mirror := s'.mirror, cursor := s'.cursor, isolates := s'.isolates)
    requires IsolateStep(s, a, s.isolates[0], s'.isolates[0], s'.mirror, s'.cursor)
    ensures Next(s, s')
  {
    hide IsolateStep;
    assert s'.isolates == s.isolates[0 := s'.isolates[0]];
    assert Step(s, s', a, 0);
  }

  lemma SecondStep(s: State, s': State, a: Action)
    requires |s.isolates| == 2 && |s'.isolates| == 2 && s'.isolates[0] == s.isolates[0] && !a.NewChain?
    requires s' == s.(mirror := s'.mirror, cursor := s'.cursor, isolates := s'.isolates)
    requires IsolateStep(s, a, s.isolates[1], s'.isolates[1], s'.mirror, s'.cursor)
    ensures Next(s, s')
  {
    hide IsolateStep;
    assert s'.isolates == s.isolates[1 := s'.isolates[1]];
    assert Step(s, s', a, 1);
  }

  lemma OneTile(from: int, to: int)
    requires from <= to <= from + 1999
    ensures Tiles([BlockRange(from, to)], from, to)
    ensures ChunkedBy([BlockRange(from, to)], from, to, MAX_BLOCK_CHUNK)
  {
    assert [BlockRange(from, to)][1..] == [];
  }

  lemma FirstScans()
    ensures var run := FirstCall(); forall k :: 0 <= k < 5 ==> Next(run[k], run[k + 1])
  {
    hide Next, Logs, Tiles, ValidChain, ChunkedBy;
    var run := FirstCall();
    OneTile(0, 1);
    OneTile(2, 4);
    NoEvent(0, 1);
    NoEvent(2, 4);
    FirstStep(run[0], run[1], Begin(ROCK, true, true));
    FirstStep(run[1], run[2], ReadHead(4, [BlockRange(0, 1)]));
    FirstStep(run[2], run[3], ScanChunk);
    FirstStep(run[3], run[4], ScanTail([BlockRange(2, 4)]));
    FirstStep(run[4], run[5], ScanTailChunk);
  }

  lemma FirstStores()
    ensures var run := FirstCall(); forall k :: 5 <= k < 8 ==> Next(run[k], run[k + 1])
  {
    hide Next;
    var run := FirstCall();
    FirstStep(run[5], run[6], EndScan);
    FirstStep(run[6], run[7], RowsStored);
    FirstStep(run[7], run[8], Advance(true));
  }

  lemma SecondScans()
    ensures Next(FirstCall()[8], SecondCall()[0])
    ensures var run := SecondCall(); forall k :: 0 <= k < 4 ==> Next(run[k], run[k + 1])
  {
    hide Next, Logs, Tiles, ValidChain, ChunkedBy;
    var run := SecondCall();
    OneTile(2, 5);
    OneTile(6, 8);
    OneEvent();
    NoEvent(6, 8);
    SecondStep(FirstCall()[8], run[0], Begin(ROCK, true, true));
    SecondStep(run[0], run[1], ReadHead(8, [BlockRange(2, 5)]));
    SecondStep(run[1], run[2], ScanChunk);
    SecondStep(run[2], run[3], ScanTail([BlockRange(6, 8)]));
    SecondStep(run[3], run[4], ScanTailChunk);
  }

  lemma SecondStores()
    ensures var run := SecondCall(); forall k :: 4 <= k < 7 ==> Next(run[k], run[k + 1])
  {
    hide Next;
    var run := SecondCall();
    SecondStep(run[4], run[5], EndScan);
    SecondStep(run[5], run[6], InsertRow);
    OneRow();
    FirstStep(run[6], run[7], ReadBack(Some([EVENT])));
  }

  /** The mirror's rows of the rock are the one event, and merging them with nothing gives that event. */
  lemma OneRow()
    ensures RowsOf([EVENT], map[Id(EVENT) := EVENT], ROCK)
    ensures AnswerOf(FIRST, SEEN_FIRST, Some([EVENT])) == Real([EVENT])
  {
    assert [EVENT][..0] == [];
    assert Own(FIRST, SEEN_FIRST) == [];
    assert PutAll(PutAll([], [EVENT]), []) == [EVENT];
    assert SortNewestFirst([EVENT]) == [EVENT];
  }

  lemma IsLaggingRun()
    ensures IsRun(LaggingRun())
  {
    hide Next, ValidChain;
    ChainIsValid();
    FirstScans();
    FirstStores();
    SecondScans();
    SecondStores();
    var run := LaggingRun();
    forall k | 0 <= k < 16
      ensures Next(run[k], run[k + 1])
    {
      if k < 8 {
        assert run[k] == FirstCall()[k] && run[k + 1] == FirstCall()[k + 1];
      } else if k > 8 {
        assert run[k] == SecondCall()[k - 9] && run[k + 1] == SecondCall()[k - 8];
      }
    }
  }

  /** A reachable answer that is not the full scan up to the head that was read, though no block was
      reorganised: it has an event above that head. */
  lemma AnswerPastTheHead()
    ensures IsRun(LaggingRun())
    ensures LaggingRun()[15].isolates[0] == Reading(FIRST, SEEN_FIRST)
    ensures LaggingRun()[16].isolates[0] == Answered(Real([EVENT]))
    ensures FullScan(CHAIN, 0, FIRST.head, ROCK) == [] && EVENT.block > FIRST.head
  {
    hide IsRun, Logs;
    IsLaggingRun();
    NoEvent(0, 4);
  }
}
