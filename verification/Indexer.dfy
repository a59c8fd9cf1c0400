/** The resumable registry indexer: many isolates over one cursor, one mirror table and one chain. */
module Indexer {
  import opened Arithmetic
  import opened BlockRanges
  import opened Events
  import opened Wrappers

  /** One call: the rock asked for, whether a database is bound, whether a cursor was read, the interval. */
  datatype Job = Job(rock: nat, db: bool, resumed: bool, from: nat, head: nat)

  /** What a call has scanned: the confirmed events and those of the tail. seen is history: the chain as it
      was when the tail was queried. */
  datatype Scan = Scan(confirmed: seq<Event>, tail: seq<Event>, seen: Chain)

  datatype Answer = Real(events: seq<Event>) | Unavailable

  /** Where an isolate is in a call. */
  datatype Phase =
    | Idle
    | CursorRead(rock: nat, db: bool, cursor: Cursor)
    | Scanning(job: Job, todo: seq<BlockRange>, scanned: seq<Event>)
    | TailScanning(job: Job, todo: seq<BlockRange>, scan: Scan)
    | Mirroring(job: Job, row: nat, scan: Scan)
    | Advancing(job: Job, scan: Scan)
    | Reading(job: Job, scan: Scan)
    | Answered(answer: Answer)

  /** Blocks up to settled have had all their confirmations and are never reorganised. */
  datatype State = State(deploy: nat, chain: Chain, settled: nat, mirror: map<EventId, Event>, cursor: Cursor,
                         isolates: seq<Phase>)

  datatype Action =
    | NewChain(chain: Chain)
    | Begin(rock: nat, db: bool, readable: bool)
    | ReadHead(head: nat, plan: seq<BlockRange>)
    | ScanChunk
    | ScanTail(plan: seq<BlockRange>)
    | ScanTailChunk
    | EndScan
    | InsertRow
    | RowsStored
    | MirrorFails
    | Advance(written: bool)
    | ReadBack(rows: Option<seq<Event>>)
    | Fail
    | Reset

  function Safe(job: Job): int {
    ConfirmedHead(job.head)
  }

  function TailStart(job: Job): nat {
    TailFrom(job.from, job.head)
  }

  /** The rock's own events among everything scanned. */
  function Own(job: Job, scan: Scan): seq<Event> {
    OfRock(scan.confirmed + scan.tail, job.rock)
  }

  /** The rows of one rock, in any order the database returns them. */
  ghost predicate RowsOf(rows: seq<Event>, mirror: map<EventId, Event>, rock: nat) {
    && DistinctIds(rows)
    && forall e :: e in rows <==> Id(e) in mirror && mirror[Id(e)] == e && e.rock == rock
  }

  // ----- steps -----

  /** One log query. */
  function ChunkLogs(chain: Chain, range: BlockRange): seq<Event> {
    Logs(chain, Max(0, range.fromBlock), range.toBlock)
  }

  /** The chain grows, or is reorganised above the settled blocks. */
  ghost predicate ChainStep(s: State, s': State, chain: Chain) {
    && ValidChain(chain) && Agree(s.chain, chain, s.settled + 1)
    && s' == s.(chain := chain, settled := Max(s.settled, ConfirmedHead(|chain| - 1)))
  }

  /** The next phase of the isolate, the next mirror and the next cursor. */
  ghost predicate IsolateStep(s: State, a: Action, p: Phase, p': Phase, mirror: map<EventId, Event>, cursor: Cursor) {
    match a
    case NewChain(_) => false
    case Begin(rock, db, readable) =>
      && p == Idle && mirror == s.mirror && cursor == s.cursor
      && p' == CursorRead(rock, db, if db && readable then s.cursor else NoCursor)
    case ReadHead(head, plan) =>
      && p.CursorRead? && head < |s.chain| && mirror == s.mirror && cursor == s.cursor
      && var job := Job(p.rock, p.db, p.cursor.At?, Max(0, ResumeFrom(s.deploy, p.cursor)), head);
      Tiles(plan, job.from, Safe(job)) && p' == Scanning(job, plan, [])
    case ScanChunk =>
      && p.Scanning? && p.todo != [] && mirror == s.mirror && cursor == s.cursor
      && p' == Scanning(p.job, p.todo[1..], p.scanned + ChunkLogs(s.chain, p.todo[0]))
    case ScanTail(plan) =>
      && p.Scanning? && p.todo == [] && mirror == s.mirror && cursor == s.cursor
      && ChunkedBy(plan, TailStart(p.job), p.job.head, MAX_BLOCK_CHUNK)
      && p' == TailScanning(p.job, plan, Scan(p.scanned, [], s.chain))
    case ScanTailChunk =>
      && p.TailScanning? && p.todo != [] && mirror == s.mirror && cursor == s.cursor
      && p' == TailScanning(p.job, p.todo[1..],
                            Scan(p.scan.confirmed, p.scan.tail + ChunkLogs(s.chain, p.todo[0]), s.chain))
    case EndScan =>
      && p.TailScanning? && p.todo == [] && mirror == s.mirror && cursor == s.cursor
      && p' == (if p.job.db then Mirroring(p.job, 0, p.scan)
                else Answered(Real(SortNewestFirst(Own(p.job, p.scan)))))
    case InsertRow =>
      && p.Mirroring? && p.row < |p.scan.confirmed| && cursor == s.cursor
      && mirror == Events.InsertRow(s.mirror, p.scan.confirmed[p.row]) && p' == Mirroring(p.job, p.row + 1, p.scan)
    case RowsStored =>
      && p.Mirroring? && p.row == |p.scan.confirmed| && mirror == s.mirror && cursor == s.cursor
      && p' == Advancing(p.job, p.scan)
    case MirrorFails =>
      && p.Mirroring? && mirror == s.mirror && cursor == s.cursor && p' == Reading(p.job, p.scan)
    case Advance(written) =>
      && p.Advancing? && mirror == s.mirror && p' == Reading(p.job, p.scan)
      && cursor == (if written && Safe(p.job) >= p.job.from then Forward(s.cursor, Safe(p.job)) else s.cursor)
    case ReadBack(rows) =>
      && p.Reading? && mirror == s.mirror && cursor == s.cursor
      && (rows.Some? ==> RowsOf(rows.value, s.mirror, p.job.rock))
      && p' == Answered(AnswerOf(p.job, p.scan, rows))
    case Fail =>
      p != Idle && mirror == s.mirror && cursor == s.cursor && p' == Answered(Unavailable)
    case Reset =>
      p.Answered? && mirror == s.mirror && cursor == s.cursor && p' == Idle
  }

  /** What a call with a database answers once the rows have been read back, or not. */
  function AnswerOf(job: Job, scan: Scan, rows: Option<seq<Event>>): Answer {
    var own := Own(job, scan);
    if rows.Some? then Real(Merge(rows.value, own))
    else if job.resumed then Unavailable
    else Real(SortNewestFirst(own))
  }

  ghost predicate Step(s: State, s': State, a: Action, i: nat) {
    if a.NewChain? then ChainStep(s, s', a.chain)
    else
      && i < |s.isolates| == |s'.isolates|
      && s' == s.(mirror := s'.mirror, cursor := s'.cursor, isolates := s.isolates[i := s'.isolates[i]])
      && IsolateStep(s, a, s.isolates[i], s'.isolates[i], s'.mirror, s'.cursor)
  }

  // ----- the invariant -----

  ghost predicate Mirrored(mirror: map<EventId, Event>, e: Event) {
    Id(e) in mirror && mirror[Id(e)] == e
  }

  /** Every event in the blocks from the deploy block up to upTo is in the mirror. */
  ghost predicate Complete(s: State, upTo: int) {
    && (upTo <= s.settled || upTo < s.deploy)
    && forall e :: InChain(s.chain, e) && s.deploy <= e.block <= upTo ==> Mirrored(s.mirror, e)
  }

  /** The mirror holds only settled events of the chain. */
  ghost predicate MirrorSound(s: State) {
    forall id :: id in s.mirror ==>
      && Id(s.mirror[id]) == id && InChain(s.chain, s.mirror[id])
      && s.deploy <= s.mirror[id].block <= s.settled
  }

  ghost predicate JobOk(s: State, job: Job) {
    && Safe(job) <= s.settled && s.deploy <= job.from
    && (if job.resumed then job.db && Complete(s, job.from - 1) else job.from == s.deploy)
  }

  /** The last block of the confirmed scan, or the one before its start when there is none. */
  function ScanEnd(job: Job): int {
    if Safe(job) < job.from then job.from - 1 else Safe(job)
  }

  /** The first block that the ranges still to do cover. */
  function NextBlock(todo: seq<BlockRange>, end: int): int {
    if todo == [] then end + 1 else todo[0].fromBlock
  }

  ghost predicate ConfirmedDone(s: State, job: Job, confirmed: seq<Event>) {
    JobOk(s, job) && confirmed == Logs(s.chain, job.from, ScanEnd(job))
  }

  /** The last block that the call relies on to stay: the confirmed head, or its cursor when that is ahead. */
  function Fixed(deploy: nat, job: Job): int {
    if job.from > deploy then Max(Safe(job), job.from - 1) else Safe(job)
  }

  /** The tail is what the chain that was seen holds above the confirmed head, and that chain agrees with
      the present one in the settled blocks that the call relies on. */
  ghost predicate TailOk(s: State, job: Job, scan: Scan) {
    && scan.tail == Logs(scan.seen, TailStart(job), job.head)
    && ValidChain(scan.seen) && Agree(scan.seen, s.chain, Fixed(s.deploy, job) + 1)
  }

  ghost predicate ScanDone(s: State, job: Job, scan: Scan) {
    ConfirmedDone(s, job, scan.confirmed) && TailOk(s, job, scan)
  }

  ghost predicate PhaseOk(s: State, p: Phase) {
    match p
    case Idle => true
    case CursorRead(_, db, cursor) => cursor.At? ==> db && cursor.block >= 0 && Complete(s, cursor.block)
    case Scanning(job, todo, scanned) =>
      var next := NextBlock(todo, ScanEnd(job));
      && JobOk(s, job) && job.from <= next <= ScanEnd(job) + 1
      && Tiles(todo, next, ScanEnd(job)) && scanned == Logs(s.chain, job.from, next - 1)
    case TailScanning(job, todo, scan) =>
      && ConfirmedDone(s, job, scan.confirmed)
      && (if todo == [] then TailOk(s, job, scan)
          else TailStart(job) <= job.head && todo == [BlockRange(TailStart(job), job.head)] && scan.tail == [])
    case Mirroring(job, row, scan) =>
      && ScanDone(s, job, scan) && row <= |scan.confirmed|
      && forall k :: 0 <= k < row ==> Mirrored(s.mirror, scan.confirmed[k])
    case Advancing(job, scan) =>
      && ScanDone(s, job, scan)
      && forall k :: 0 <= k < |scan.confirmed| ==> Mirrored(s.mirror, scan.confirmed[k])
    case Reading(job, scan) => ScanDone(s, job, scan)
    case Answered(_) => true
  }

  ghost predicate Inv(s: State) {
    && ValidChain(s.chain) && s.settled < |s.chain| && ConfirmedHead(|s.chain| - 1) <= s.settled
    && MirrorSound(s)
    && (s.cursor.At? ==> s.cursor.block >= 0 && Complete(s, s.cursor.block))
    && forall i :: 0 <= i < |s.isolates| ==> PhaseOk(s, s.isolates[i])
  }

  ghost predicate Init(s: State) {
    && ValidChain(s.chain) && |s.chain| > 0 && s.settled == ConfirmedHead(|s.chain| - 1)
    && s.mirror == map[] && s.cursor == NoCursor
    && forall i :: 0 <= i < |s.isolates| ==> s.isolates[i] == Idle
  }

  // ----- what a step leaves in place -----

  /** Settled blocks and mirrored rows stay. */
  ghost predicate Extends(s: State, s': State) {
    && s'.deploy == s.deploy && s.settled <= s'.settled < |s'.chain| && s.settled < |s.chain|
    && ValidChain(s.chain) && ValidChain(s'.chain) && Agree(s.chain, s'.chain, s.settled + 1)
    && forall id :: id in s.mirror ==> id in s'.mirror && s'.mirror[id] == s.mirror[id]
  }

  lemma SettledEvents(s: State, s': State, e: Event)
    requires Extends(s, s') && e.block <= s.settled
    ensures InChain(s.chain, e) <==> InChain(s'.chain, e)
  {
  }

  lemma CompletePersists(s: State, s': State, upTo: int)
    requires Extends(s, s') && Complete(s, upTo)
    ensures Complete(s', upTo)
  {
    hide ValidChain, Agree;
    forall e | InChain(s'.chain, e) && s'.deploy <= e.block <= upTo
      ensures Mirrored(s'.mirror, e)
    {
      SettledEvents(s, s', e);
    }
  }

  lemma LogsPersist(s: State, s': State, from: nat, upTo: int)
    requires Extends(s, s') && (upTo <= s.settled || upTo < from)
    ensures Logs(s.chain, from, upTo) == Logs(s'.chain, from, upTo)
  {
    if upTo >= from {
      LogsSame(s.chain, s'.chain, from, upTo);
    }
  }

  lemma JobPersists(s: State, s': State, job: Job)
    requires Extends(s, s') && JobOk(s, job)
    ensures JobOk(s', job)
  {
    hide ValidChain, Complete;
    if job.resumed {
      CompletePersists(s, s', job.from - 1);
    }
  }

  lemma ConfirmedPersists(s: State, s': State, job: Job, confirmed: seq<Event>)
    requires Extends(s, s') && ConfirmedDone(s, job, confirmed)
    ensures ConfirmedDone(s', job, confirmed)
  {
    hide Extends, JobOk, Logs;
    JobPersists(s, s', job);
    JobFacts(s, job);
    LogsPersist(s, s', job.from, ScanEnd(job));
  }

  lemma TailPersists(s: State, s': State, job: Job, scan: Scan)
    requires Extends(s, s') && Fixed(s.deploy, job) <= s.settled && TailOk(s, job, scan)
    ensures TailOk(s', job, scan)
  {
    hide Logs, ValidChain;
    assert Agree(s.chain, s'.chain, s.settled + 1);
  }

  lemma PhasePersists(s: State, s': State, p: Phase)
    requires Extends(s, s') && PhaseOk(s, p)
    ensures PhaseOk(s', p)
  {
    hide Complete, JobOk, TailOk, ConfirmedDone, Logs, Tiles, Extends;
    match p
    case Idle =>
    case Answered(_) =>
    case CursorRead(_, _, cursor) =>
      if cursor.At? {
        CompletePersists(s, s', cursor.block);
      }
    case Scanning(job, todo, scanned) =>
      JobPersists(s, s', job);
      JobFacts(s, job);
      LogsPersist(s, s', job.from, NextBlock(todo, ScanEnd(job)) - 1);
    case TailScanning(job, todo, scan) =>
      ConfirmedPersists(s, s', job, scan.confirmed);
      ConfirmedFacts(s, job, scan.confirmed);
      if todo == [] {
        TailPersists(s, s', job, scan);
      }
    case Mirroring(job, row, scan) =>
      ScanPersists(s, s', job, scan);
      MirroredPersists(s, s');
    case Advancing(job, scan) =>
      ScanPersists(s, s', job, scan);
      MirroredPersists(s, s');
    case Reading(job, scan) =>
      ScanPersists(s, s', job, scan);
  }

  lemma JobFacts(s: State, job: Job)
    requires JobOk(s, job)
    ensures Safe(job) <= Fixed(s.deploy, job) <= s.settled && s.deploy <= job.from
  {
  }

  lemma ConfirmedFacts(s: State, job: Job, confirmed: seq<Event>)
    requires ConfirmedDone(s, job, confirmed)
    ensures Safe(job) <= Fixed(s.deploy, job) <= s.settled && s.deploy <= job.from
  {
  }

  lemma MirroredPersists(s: State, s': State)
    requires Extends(s, s')
    ensures forall e :: Mirrored(s.mirror, e) ==> Mirrored(s'.mirror, e)
  {
  }

  lemma ScanPersists(s: State, s': State, job: Job, scan: Scan)
    requires Extends(s, s') && ScanDone(s, job, scan)
    ensures ScanDone(s', job, scan)
  {
    hide Extends, ConfirmedDone, TailOk;
    ConfirmedPersists(s, s', job, scan.confirmed);
    ConfirmedFacts(s, job, scan.confirmed);
    TailPersists(s, s', job, scan);
  }

  // ----- every step keeps the invariant -----

  lemma ChunkFacts(todo: seq<BlockRange>, next: int, end: int)
    requires Tiles(todo, next, end) && todo != []
    ensures todo[0].fromBlock == next <= todo[0].toBlock <= end
    ensures NextBlock(todo[1..], end) == todo[0].toBlock + 1 && Tiles(todo[1..], todo[0].toBlock + 1, end)
  {
    assert Tiles(todo[1..], todo[0].toBlock + 1, end);
  }

  lemma ScanChunkOk(s: State, p: Phase)
    requires Inv(s) && PhaseOk(s, p) && p.Scanning? && p.todo != []
    ensures PhaseOk(s, Scanning(p.job, p.todo[1..], p.scanned + ChunkLogs(s.chain, p.todo[0])))
  {
    hide Inv, JobOk, Logs, Tiles;
    ChunkFacts(p.todo, NextBlock(p.todo, ScanEnd(p.job)), ScanEnd(p.job));
    LogsSplit(s.chain, p.job.from, p.todo[0].fromBlock, p.todo[0].toBlock);
  }

  /** The only tail query reads the whole tail off one chain. */
  lemma ScanTailChunkOk(s: State, p: Phase)
    requires Inv(s) && PhaseOk(s, p) && p.TailScanning? && p.todo != []
    ensures PhaseOk(s, TailScanning(p.job, p.todo[1..],
                                    Scan(p.scan.confirmed, p.scan.tail + ChunkLogs(s.chain, p.todo[0]), s.chain)))
  {
    hide ConfirmedDone, Logs, Inv;
    ConfirmedFacts(s, p.job, p.scan.confirmed);
    ChainNow(s, p.job);
    assert p.todo[1..] == [];
  }

  lemma ChainNow(s: State, job: Job)
    requires Inv(s) && Fixed(s.deploy, job) <= s.settled
    ensures ValidChain(s.chain) && Agree(s.chain, s.chain, Fixed(s.deploy, job) + 1)
  {
    hide ValidChain;
  }

  lemma ReadHeadOk(s: State, p: Phase, head: nat, plan: seq<BlockRange>, p': Phase)
    requires Inv(s) && PhaseOk(s, p) && IsolateStep(s, ReadHead(head, plan), p, p', s.mirror, s.cursor)
    ensures PhaseOk(s, p')
  {
    hide ValidChain, MirrorSound;
    NoLogs(s.chain, p'.job.from, p'.job.from - 1);
  }

  lemma ScanTailOk(s: State, p: Phase, plan: seq<BlockRange>, p': Phase)
    requires Inv(s) && PhaseOk(s, p) && IsolateStep(s, ScanTail(plan), p, p', s.mirror, s.cursor)
    ensures PhaseOk(s, p')
  {
    hide Inv, JobOk, Logs, ValidChain, ChunkedBy;
    TailIsOneQuery(plan, p.job.from, p.job.head);
    JobFacts(s, p.job);
    ChainNow(s, p.job);
    if plan == [] {
      NoLogs(s.chain, TailStart(p.job), p.job.head);
    }
  }

  lemma EndScanOk(s: State, p: Phase, p': Phase)
    requires Inv(s) && PhaseOk(s, p) && IsolateStep(s, EndScan, p, p', s.mirror, s.cursor)
    ensures PhaseOk(s, p')
  {
    hide Inv, ConfirmedDone, TailOk;
  }

  /** A confirmed event that is still to be stored is settled, and no other event has its id. */
  lemma ScannedFacts(s: State, job: Job, confirmed: seq<Event>, e: Event)
    requires Inv(s) && ConfirmedDone(s, job, confirmed) && e in confirmed
    ensures InChain(s.chain, e) && job.from <= e.block <= Safe(job) <= s.settled && s.deploy <= e.block
    ensures Id(e) in s.mirror ==> Mirrored(s.mirror, e)
  {
    hide Logs, Complete, PhaseOk;
    LogsMembers(s.chain, job.from, ScanEnd(job), e);
  }

  lemma InsertRowOk(s: State, s': State, p: Phase, p': Phase)
    requires Inv(s) && PhaseOk(s, p) && IsolateStep(s, InsertRow, p, p', s'.mirror, s.cursor)
    requires s' == s.(mirror := s'.mirror, isolates := s'.isolates)
    ensures Extends(s, s') && MirrorSound(s') && PhaseOk(s', p')
  {
    hide *;
    InsertRowShape(s, s', p, p');
    InsertExtends(s, s', p);
    PhasePersists(s, s', p);
    RowAdded(s', p);
  }

  lemma InsertRowShape(s: State, s': State, p: Phase, p': Phase)
    requires IsolateStep(s, InsertRow, p, p', s'.mirror, s.cursor)
    ensures p.Mirroring? && p.row < |p.scan.confirmed| && p' == Mirroring(p.job, p.row + 1, p.scan)
    ensures s'.mirror == Events.InsertRow(s.mirror, p.scan.confirmed[p.row])
  {
  }

  lemma InsertExtends(s: State, s': State, p: Phase)
    requires Inv(s) && p.Mirroring? && PhaseOk(s, p) && p.row < |p.scan.confirmed|
    requires s' == s.(mirror := Events.InsertRow(s.mirror, p.scan.confirmed[p.row]), isolates := s'.isolates)
    ensures s'.chain == s.chain && Extends(s, s') && MirrorSound(s') && Mirrored(s'.mirror, p.scan.confirmed[p.row])
  {
    hide ValidChain, Complete, ConfirmedDone, TailOk, Agree, JobOk;
    var e := p.scan.confirmed[p.row];
    ScannedFacts(s, p.job, p.scan.confirmed, e);
    AgreeSelf(s);
    RowSound(s, s', e);
  }

  lemma RowSound(s: State, s': State, e: Event)
    requires MirrorSound(s) && InChain(s.chain, e) && s.deploy <= e.block <= s.settled
    requires Id(e) in s.mirror ==> Mirrored(s.mirror, e)
    requires s' == s.(mirror := Events.InsertRow(s.mirror, e), isolates := s'.isolates)
    ensures MirrorSound(s') && Mirrored(s'.mirror, e)
    ensures forall id :: id in s.mirror ==> id in s'.mirror && s'.mirror[id] == s.mirror[id]
  {
    hide InChain;
  }

  lemma RowAdded(s: State, p: Phase)
    requires p.Mirroring? && PhaseOk(s, p) && p.row < |p.scan.confirmed|
    requires Mirrored(s.mirror, p.scan.confirmed[p.row])
    ensures PhaseOk(s, Mirroring(p.job, p.row + 1, p.scan))
  {
    hide ScanDone, Mirrored;
  }

  lemma AgreeSelf(s: State)
    requires Inv(s)
    ensures Agree(s.chain, s.chain, s.settled + 1)
  {
  }

  /** When all scanned events are stored, the cursor may move to the confirmed head. */
  lemma AdvanceOk(s: State, job: Job, scan: Scan)
    requires Inv(s) && PhaseOk(s, Advancing(job, scan)) && Safe(job) >= job.from
    ensures Complete(s, Safe(job))
  {
    hide ValidChain, MirrorSound, Logs, TailOk;
    assert ValidChain(s.chain);
    forall e | InChain(s.chain, e) && s.deploy <= e.block <= Safe(job)
      ensures Mirrored(s.mirror, e)
    {
      if e.block >= job.from {
        LogsMembers(s.chain, job.from, ScanEnd(job), e);
        var k :| 0 <= k < |scan.confirmed| && scan.confirmed[k] == e;
      }
    }
  }

  /** The stepping isolate's own obligations. */
  lemma IsolateOk(s: State, s': State, a: Action, i: nat)
    requires Inv(s) && Step(s, s', a, i) && !a.NewChain?
    ensures Extends(s, s') && MirrorSound(s') && PhaseOk(s', s'.isolates[i])
    ensures s'.cursor.At? ==> s'.cursor.block >= 0 && Complete(s', s'.cursor.block)
  {
    hide Inv, PhaseOk, IsolateStep, Complete, Extends, MirrorSound;
    var p, p' := s.isolates[i], s'.isolates[i];
    InvParts(s, i);
    StepFrame(s, a, p, p', s'.mirror, s'.cursor);
    if a.InsertRow? {
      InsertRowOk(s, s', p, p');
      if s.cursor.At? {
        CompletePersists(s, s', s.cursor.block);
      }
    } else {
      PhaseStepOk(s, a, p, p', s'.cursor);
      CursorStepOk(s, a, p, p', s'.cursor);
      SameView(s, s', p');
    }
  }

  lemma InvParts(s: State, i: nat)
    requires Inv(s) && i < |s.isolates|
    ensures PhaseOk(s, s.isolates[i])
    ensures s.cursor.At? ==> s.cursor.block >= 0 && Complete(s, s.cursor.block)
  {
  }

  lemma StepFrame(s: State, a: Action, p: Phase, p': Phase, mirror: map<EventId, Event>, cursor: Cursor)
    requires IsolateStep(s, a, p, p', mirror, cursor)
    ensures !a.InsertRow? ==> mirror == s.mirror
    ensures !a.Advance? ==> cursor == s.cursor
  {
  }

  lemma PhaseStepOk(s: State, a: Action, p: Phase, p': Phase, cursor: Cursor)
    requires Inv(s) && PhaseOk(s, p) && IsolateStep(s, a, p, p', s.mirror, cursor) && !a.InsertRow?
    ensures PhaseOk(s, p')
  {
    hide Logs, Tiles, TailOk, JobOk, ValidChain, MirrorSound, Complete;
    match a
    case ReadHead(head, plan) => ReadHeadOk(s, p, head, plan, p');
    case ScanChunk => ScanChunkOk(s, p);
    case ScanTail(plan) => ScanTailOk(s, p, plan, p');
    case ScanTailChunk => ScanTailChunkOk(s, p);
    case EndScan => EndScanOk(s, p, p');
    case _ =>
  }

  lemma CursorStepOk(s: State, a: Action, p: Phase, p': Phase, cursor: Cursor)
    requires Inv(s) && PhaseOk(s, p) && IsolateStep(s, a, p, p', s.mirror, cursor)
    ensures cursor.At? ==> cursor.block >= 0 && Complete(s, cursor.block)
  {
    hide ValidChain, MirrorSound, Complete, Logs, TailOk, JobOk, Tiles;
    if a.Advance? && a.written && Safe(p.job) >= p.job.from {
      AdvanceOk(s, p.job, p.scan);
    }
  }

  /** Nothing but chain, mirror and settled height matters to a phase. */
  lemma SameView(s: State, s': State, p: Phase)
    requires Inv(s) && PhaseOk(s, p)
    requires s' == s.(cursor := s'.cursor, isolates := s'.isolates)
    ensures Extends(s, s') && MirrorSound(s') && PhaseOk(s', p)
    ensures forall upTo: int :: Complete(s, upTo) ==> Complete(s', upTo)
  {
    hide ValidChain, PhaseOk, Complete;
    AgreeSelf(s);
    PhasePersists(s, s', p);
    forall upTo: int | Complete(s, upTo)
      ensures Complete(s', upTo)
    {
      CompletePersists(s, s', upTo);
    }
  }

  lemma IsolateStepInv(s: State, s': State, a: Action, i: nat)
    requires Inv(s) && Step(s, s', a, i) && !a.NewChain?
    ensures Inv(s')
  {
    IsolateOk(s, s', a, i);
    hide ValidChain, PhaseOk, Complete, MirrorSound, Extends, IsolateStep;
    forall j | 0 <= j < |s'.isolates|
      ensures PhaseOk(s', s'.isolates[j])
    {
      if j != i {
        PhasePersists(s, s', s.isolates[j]);
      }
    }
  }

  lemma ChainStepInv(s: State, s': State, chain: Chain)
    requires Inv(s) && ChainStep(s, s', chain)
    ensures Inv(s') && Extends(s, s')
  {
    hide ValidChain, PhaseOk, Complete;
    assert Extends(s, s');
    forall id | id in s'.mirror
      ensures InChain(s'.chain, s'.mirror[id])
    {
      SettledEvents(s, s', s.mirror[id]);
    }
    if s.cursor.At? {
      CompletePersists(s, s', s.cursor.block);
    }
    forall j | 0 <= j < |s'.isolates|
      ensures PhaseOk(s', s'.isolates[j])
    {
      PhasePersists(s, s', s.isolates[j]);
    }
  }

  // ----- whole runs -----

  ghost predicate Next(s: State, s': State) {
    exists a, i :: Step(s, s', a, i)
  }

  ghost predicate IsRun(run: seq<State>) {
    && run != [] && Init(run[0])
    && forall k :: 0 <= k < |run| - 1 ==> Next(run[k], run[k + 1])
  }

  ghost predicate CursorNotBehind(a: Cursor, b: Cursor) {
    a.At? ==> b.At? && a.block <= b.block
  }

  lemma InitInv(s: State)
    requires Init(s)
    ensures Inv(s)
  {
    hide ValidChain;
  }

  lemma NextInv(s: State, s': State)
    requires Inv(s) && Next(s, s')
    ensures Inv(s') && Extends(s, s') && CursorNotBehind(s.cursor, s'.cursor)
  {
    hide Inv, Extends;
    var a, i :| Step(s, s', a, i);
    if a.NewChain? {
      ChainStepInv(s, s', a.chain);
    } else {
      IsolateOk(s, s', a, i);
      IsolateStepInv(s, s', a, i);
    }
  }

  lemma {:induction false} RunInv(run: seq<State>, k: nat)
    requires IsRun(run) && k < |run|
    ensures Inv(run[k])
  {
    hide Inv;
    if k == 0 {
      InitInv(run[0]);
    } else {
      RunInv(run, k - 1);
      NextInv(run[k - 1], run[k]);
    }
  }

  /** In every reachable state the blocks up to the cursor are fully mirrored, and the mirror holds
      nothing that is not on the chain for good. */
  lemma CrashSafe(run: seq<State>, k: nat, e: Event)
    requires IsRun(run) && k < |run|
    ensures run[k].cursor.At? && InChain(run[k].chain, e) && run[k].deploy <= e.block <= run[k].cursor.block ==>
      Mirrored(run[k].mirror, e)
    ensures Mirrored(run[k].mirror, e) ==> InChain(run[k].chain, e) && e.block <= run[k].settled
  {
    RunInv(run, k);
  }

  lemma SoundRow(s: State, e: Event)
    requires Inv(s) && Mirrored(s.mirror, e)
    ensures InChain(s.chain, e) && s.deploy <= e.block <= s.settled
  {
  }

  /** The cursor never moves back and mirrored rows are never lost or changed. */
  lemma {:induction false} CursorForward(run: seq<State>, j: nat, k: nat, e: Event)
    requires IsRun(run) && j <= k < |run|
    ensures CursorNotBehind(run[j].cursor, run[k].cursor)
    ensures Mirrored(run[j].mirror, e) ==> Mirrored(run[k].mirror, e) && InChain(run[k].chain, e)
  {
    hide Inv, Extends, Mirrored, InChain, Next;
    RunInv(run, k);
    if j < k {
      CursorForward(run, j, k - 1, e);
      RunInv(run, k - 1);
      NextInv(run[k - 1], run[k]);
      MirroredPersists(run[k - 1], run[k]);
    }
    if Mirrored(run[k].mirror, e) {
      SoundRow(run[k], e);
    }
  }

  // ----- the chain that a scan saw -----

  predicate HasScan(p: Phase) {
    p.TailScanning? || p.Mirroring? || p.Advancing? || p.Reading?
  }

  function ScanOf(p: Phase): Scan
    requires HasScan(p)
  {
    p.scan
  }

  lemma SeenStep(s: State, s': State, i: nat)
    requires Next(s, s') && i < |s'.isolates| && HasScan(s'.isolates[i])
    ensures i < |s.isolates|
    ensures ScanOf(s'.isolates[i]).seen == s.chain
      || (HasScan(s.isolates[i]) && ScanOf(s'.isolates[i]).seen == ScanOf(s.isolates[i]).seen)
  {
    hide ChunkLogs, ChunkedBy, Tiles, ValidChain, Agree, RowsOf, Own, AnswerOf;
    var a, k :| Step(s, s', a, k);
  }

  /** The chain that a scan saw was the chain at some moment of the run. */
  lemma {:induction false} SeenInRun(run: seq<State>, k: nat, i: nat) returns (j: nat)
    requires IsRun(run) && k < |run| && i < |run[k].isolates| && HasScan(run[k].isolates[i])
    ensures j <= k && run[j].chain == ScanOf(run[k].isolates[i]).seen
  {
    hide Next;
    assert k > 0;
    SeenStep(run[k - 1], run[k], i);
    if ScanOf(run[k].isolates[i]).seen == run[k - 1].chain {
      j := k - 1;
    } else {
      j := SeenInRun(run, k - 1, i);
    }
  }

  /** The rock's own events are those of the chain that was seen, from the start of the scan to the head. */
  lemma OwnIsSeen(s: State, job: Job, scan: Scan)
    requires ScanDone(s, job, scan)
    ensures Own(job, scan) == OfRock(Logs(scan.seen, job.from, job.head), job.rock)
  {
    hide OfRock, Logs, JobOk, ValidChain;
    if Safe(job) < job.from {
      NoLogs(s.chain, job.from, ScanEnd(job));
      assert scan.confirmed + scan.tail == scan.tail;
    } else {
      LogsSame(scan.seen, s.chain, job.from, Safe(job));
      LogsSplit(scan.seen, job.from, TailStart(job), job.head);
    }
  }

  lemma OwnMembers(s: State, job: Job, scan: Scan, e: Event)
    requires ScanDone(s, job, scan)
    ensures e in Own(job, scan) <==> e.rock == job.rock && InChain(scan.seen, e) && job.from <= e.block <= job.head
    ensures DistinctIds(Own(job, scan))
  {
    OwnIsSeen(s, job, scan);
    var logs := Logs(scan.seen, job.from, job.head);
    hide OfRock, Logs, ConfirmedDone, DistinctIds;
    OfRockMembers(logs, job.rock, e);
    LogsMembers(scan.seen, job.from, job.head, e);
    LogsDistinct(scan.seen, job.from, job.head);
    OfRockDistinct(logs, job.rock);
  }

  // ----- what a call answers -----

  /** The full scan of the chain that the call saw. */
  function SeenScan(s: State, job: Job, scan: Scan): seq<Event> {
    FullScan(scan.seen, s.deploy, job.head, job.rock)
  }

  /** Newest first and without duplicates. Everything that a full scan of the chain seen lists, and every
      event in the confirmed blocks of the present chain. Nothing but events of one of the two chains. The
      full scan itself when no rows were merged in, and otherwise exactly when it has the id of every row. */
  ghost predicate GoodAnswer(s: State, job: Job, scan: Scan, rows: Option<seq<Event>>, events: seq<Event>) {
    var full := SeenScan(s, job, scan);
    && NewestFirst(events) && DistinctIds(events)
    && (forall e :: e in full ==> e in events)
    && (forall e :: InChain(s.chain, e) && e.rock == job.rock && s.deploy <= e.block <= Safe(job) ==> e in events)
    && (forall e :: e in events ==>
          e in full || (InChain(s.chain, e) && e.rock == job.rock && s.deploy <= e.block <= s.settled))
    && (rows.None? ==> events == full)
    && (rows.Some? ==> (events == full <==> forall e :: e in rows.value ==> IdIn(full, e)))
  }

  /** The full scan of the chain seen lists every confirmed event of the present chain. */
  lemma ConfirmedSeen(s: State, job: Job, scan: Scan, e: Event)
    requires ScanDone(s, job, scan)
    requires InChain(s.chain, e) && e.rock == job.rock && s.deploy <= e.block <= Safe(job)
    ensures e in SeenScan(s, job, scan)
  {
    hide FullScan, ConfirmedDone, ValidChain, Logs;
    FullScanFacts(scan.seen, s.deploy, job.head, job.rock);
  }

  lemma ScannedAnswer(s: State, job: Job, scan: Scan)
    requires ScanDone(s, job, scan) && !job.resumed
    ensures GoodAnswer(s, job, scan, None, SortNewestFirst(Own(job, scan)))
  {
    OwnIsSeen(s, job, scan);
    ScanFrom(s, job, scan);
    FullScanFacts(scan.seen, s.deploy, job.head, job.rock);
    hide Own, ScanDone, FullScan, ValidChain, NewestFirst, DistinctIds;
    forall e | InChain(s.chain, e) && e.rock == job.rock && s.deploy <= e.block <= Safe(job)
      ensures e in SeenScan(s, job, scan)
    {
      ConfirmedSeen(s, job, scan, e);
    }
  }

  lemma ScanFrom(s: State, job: Job, scan: Scan)
    requires ScanDone(s, job, scan)
    ensures s.deploy <= job.from && (!job.resumed ==> job.from == s.deploy) && ValidChain(scan.seen)
  {
    hide ValidChain, Complete;
  }

  lemma RowFacts(s: State, job: Job, rows: seq<Event>, e: Event)
    requires Inv(s) && RowsOf(rows, s.mirror, job.rock) && e in rows
    ensures InChain(s.chain, e) && e.rock == job.rock && s.deploy <= e.block <= s.settled
  {
    hide PhaseOk, Complete, ValidChain;
  }

  /** Before its scan starts, a resumed call finds everything in the rows. */
  lemma EarlierRow(s: State, job: Job, scan: Scan, rows: seq<Event>, e: Event)
    requires ScanDone(s, job, scan) && RowsOf(rows, s.mirror, job.rock)
    requires InChain(scan.seen, e) && e.rock == job.rock && s.deploy <= e.block < job.from
    ensures e in rows
  {
    hide Logs, ValidChain;
    assert job.resumed && Complete(s, job.from - 1);
    assert InChain(s.chain, e);
  }

  /** The full scan is the own events and the rows of the blocks before. */
  lemma FullIsOwnAndRows(s: State, job: Job, scan: Scan, rows: seq<Event>, x: Event)
    requires ScanDone(s, job, scan) && RowsOf(rows, s.mirror, job.rock)
    ensures x in Own(job, scan) ==> x in SeenScan(s, job, scan)
    ensures x in SeenScan(s, job, scan) ==> x in Own(job, scan) || x in rows
  {
    hide Own, FullScan, ConfirmedDone, TailOk, RowsOf;
    ScanFrom(s, job, scan);
    OwnMembers(s, job, scan, x);
    FullScanFacts(scan.seen, s.deploy, job.head, job.rock);
    if x in SeenScan(s, job, scan) && x.block < job.from {
      EarlierRow(s, job, scan, rows, x);
    }
  }

  lemma MergedMember(s: State, job: Job, scan: Scan, rows: seq<Event>, x: Event)
    requires ScanDone(s, job, scan) && RowsOf(rows, s.mirror, job.rock)
    ensures x in Merge(rows, Own(job, scan)) <==> x in Own(job, scan) || (x in rows && !IdIn(Own(job, scan), x))
  {
    hide Own, Merge, ScanDone, IdIn, DistinctIds;
    OwnMembers(s, job, scan, x);
    MergeMembers(rows, Own(job, scan), x);
  }

  lemma FullInMerged(s: State, job: Job, scan: Scan, rows: seq<Event>, x: Event)
    requires ScanDone(s, job, scan) && RowsOf(rows, s.mirror, job.rock) && x in SeenScan(s, job, scan)
    ensures x in Merge(rows, Own(job, scan))
  {
    hide Own, Merge, ScanDone, RowsOf, FullScan;
    ScanFrom(s, job, scan);
    MergedMember(s, job, scan, rows, x);
    FullIsOwnAndRows(s, job, scan, rows, x);
    if IdIn(Own(job, scan), x) {
      var y :| y in Own(job, scan) && Id(y) == Id(x);
      FullIsOwnAndRows(s, job, scan, rows, y);
      SeenIdsUnique(s, job, scan, x, y);
    }
  }

  lemma SeenIdsUnique(s: State, job: Job, scan: Scan, x: Event, y: Event)
    requires ValidChain(scan.seen) && x in SeenScan(s, job, scan) && y in SeenScan(s, job, scan) && Id(x) == Id(y)
    ensures x == y
  {
    FullScanFacts(scan.seen, s.deploy, job.head, job.rock);
    hide FullScan;
  }

  /** When the full scan has the id of every row, a merged answer holds nothing else. */
  lemma MergedInFull(s: State, job: Job, scan: Scan, rows: seq<Event>, x: Event)
    requires ScanDone(s, job, scan) && RowsOf(rows, s.mirror, job.rock) && x in Merge(rows, Own(job, scan))
    requires forall e :: e in rows ==> IdIn(SeenScan(s, job, scan), e)
    ensures x in SeenScan(s, job, scan)
  {
    hide Own, Merge, ScanDone, FullScan, DistinctIds, SeenScan;
    MergedMember(s, job, scan, rows, x);
    FullIsOwnAndRows(s, job, scan, rows, x);
    if x !in Own(job, scan) {
      var y :| y in SeenScan(s, job, scan) && Id(y) == Id(x);
      FullIsOwnAndRows(s, job, scan, rows, y);
      if y in rows {
        MemberUnique(rows, x, y);
      }
    }
  }

  /** A merged answer is the full scan of the chain seen exactly when that scan has the id of every row. */
  lemma MergedIsFullScan(s: State, job: Job, scan: Scan, rows: seq<Event>)
    requires ScanDone(s, job, scan) && RowsOf(rows, s.mirror, job.rock)
    ensures Merge(rows, Own(job, scan)) == SeenScan(s, job, scan)
       <==> forall e :: e in rows ==> IdIn(SeenScan(s, job, scan), e)
  {
    hide Own, Merge, ScanDone, RowsOf, SeenScan, DistinctIds;
    var merged, full := Merge(rows, Own(job, scan)), SeenScan(s, job, scan);
    if forall e :: e in rows ==> IdIn(full, e) {
      forall x: Event
        ensures x in merged <==> x in full
      {
        if x in merged {
          MergedInFull(s, job, scan, rows, x);
        } else if x in full {
          FullInMerged(s, job, scan, rows, x);
        }
      }
      SameMembersSameScan(s, job, scan, rows);
    } else if merged == full {
      var e :| e in rows && !IdIn(full, e);
      RowIdKept(s, job, scan, rows, e);
    }
  }

  lemma SameMembersSameScan(s: State, job: Job, scan: Scan, rows: seq<Event>)
    requires ScanDone(s, job, scan)
    requires forall x :: x in Merge(rows, Own(job, scan)) <==> x in SeenScan(s, job, scan)
    ensures Merge(rows, Own(job, scan)) == SeenScan(s, job, scan)
  {
    hide Own, Merge, ScanDone, FullScan, DistinctIds, NewestFirst, StrictlyNewestFirst;
    var merged, full := Merge(rows, Own(job, scan)), SeenScan(s, job, scan);
    ScanFrom(s, job, scan);
    FullScanFacts(scan.seen, s.deploy, job.head, job.rock);
    MergeFacts(rows, Own(job, scan));
    ChainOrderStrict(scan.seen, merged);
    StrictOrderUnique(merged, full);
  }

  /** The id of every row occurs in a merged answer. */
  lemma RowIdKept(s: State, job: Job, scan: Scan, rows: seq<Event>, e: Event)
    requires ScanDone(s, job, scan) && RowsOf(rows, s.mirror, job.rock) && e in rows
    ensures IdIn(Merge(rows, Own(job, scan)), e)
  {
    hide Own, Merge, ScanDone, RowsOf;
    MergedMember(s, job, scan, rows, e);
    if IdIn(Own(job, scan), e) {
      var y :| y in Own(job, scan) && Id(y) == Id(e);
      MergedMember(s, job, scan, rows, y);
    }
  }

  lemma MergedAnswer(s: State, job: Job, scan: Scan, rows: seq<Event>)
    requires Inv(s) && ScanDone(s, job, scan) && RowsOf(rows, s.mirror, job.rock)
    ensures GoodAnswer(s, job, scan, Some(rows), Merge(rows, Own(job, scan)))
  {
    hide Own, Merge, ScanDone, RowsOf, SeenScan, DistinctIds, NewestFirst, Inv, IdIn;
    var merged, full := Merge(rows, Own(job, scan)), SeenScan(s, job, scan);
    MergeFacts(rows, Own(job, scan));
    MergedIsFullScan(s, job, scan, rows);
    forall e | e in full
      ensures e in merged
    {
      FullInMerged(s, job, scan, rows, e);
    }
    forall e | InChain(s.chain, e) && e.rock == job.rock && s.deploy <= e.block <= Safe(job)
      ensures e in full
    {
      ConfirmedSeen(s, job, scan, e);
    }
    forall e | e in merged
      ensures e in full || (InChain(s.chain, e) && e.rock == job.rock && s.deploy <= e.block <= s.settled)
    {
      MergedMember(s, job, scan, rows, e);
      FullIsOwnAndRows(s, job, scan, rows, e);
      if e in rows {
        RowFacts(s, job, rows, e);
      }
    }
  }

  /** When no block up to the head has been reorganised since the tail query, a merged answer is the full
      scan of the present chain exactly when nobody has mirrored past the head. */
  lemma UndisturbedAnswer(s: State, job: Job, scan: Scan, rows: seq<Event>)
    requires Inv(s) && ScanDone(s, job, scan) && RowsOf(rows, s.mirror, job.rock)
    requires Agree(scan.seen, s.chain, job.head + 1)
    ensures Merge(rows, Own(job, scan)) == FullScan(s.chain, s.deploy, job.head, job.rock)
       <==> forall e :: e in rows ==> e.block <= job.head
  {
    hide Own, Merge, ScanDone, RowsOf, Inv, IdIn, Logs, ValidChain, Agree;
    LogsSame(scan.seen, s.chain, s.deploy, job.head);
    MergedIsFullScan(s, job, scan, rows);
    forall e | e in rows
      ensures IdIn(SeenScan(s, job, scan), e) <==> e.block <= job.head
    {
      RowAtOrBelowHead(s, job, scan, rows, e);
    }
  }

  lemma RowAtOrBelowHead(s: State, job: Job, scan: Scan, rows: seq<Event>, e: Event)
    requires Inv(s) && RowsOf(rows, s.mirror, job.rock) && e in rows
    requires SeenScan(s, job, scan) == FullScan(s.chain, s.deploy, job.head, job.rock)
    ensures IdIn(SeenScan(s, job, scan), e) <==> e.block <= job.head
  {
    ChainValid(s);
    RowFacts(s, job, rows, e);
    hide RowsOf, Inv;
    FullScanFacts(s.chain, s.deploy, job.head, job.rock);
    hide FullScan, SeenScan;
    if IdIn(SeenScan(s, job, scan), e) {
      var y :| y in SeenScan(s, job, scan) && Id(y) == Id(e);
      assert y == e;
    }
  }

  lemma ChainValid(s: State)
    requires Inv(s)
    ensures ValidChain(s.chain)
  {
  }

  /** Every answer that an isolate gives in any run is good; the chain it saw was the chain at some moment
      of the run, its rows are the mirror's at that step, and a resumed call never answers without rows. */
  lemma RunAnswer(run: seq<State>, k: nat, i: nat) returns (j: nat, rows: Option<seq<Event>>)
    requires IsRun(run) && k + 1 < |run| && i < |run[k].isolates| && i < |run[k + 1].isolates|
    requires !run[k].isolates[i].Answered? && run[k + 1].isolates[i].Answered?
    requires run[k + 1].isolates[i].answer.Real?
    ensures HasScan(run[k].isolates[i])
    ensures var p := run[k].isolates[i];
      && j <= k && run[j].chain == p.scan.seen
      && (rows.Some? ==> RowsOf(rows.value, run[k].mirror, p.job.rock))
      && (rows.None? ==> !p.job.resumed)
      && GoodAnswer(run[k], p.job, p.scan, rows, run[k + 1].isolates[i].answer.events)
    ensures var events := run[k + 1].isolates[i].answer.events; forall a, b :: 0 <= a < b < |events| ==>
      && (events[a].block > events[b].block
          || (events[a].block == events[b].block && events[a].logIndex >= events[b].logIndex))
      && (events[a].tx != events[b].tx || events[a].logIndex != events[b].logIndex)
  {
    hide Inv, Step, IsolateStep, GoodAnswer, RowsOf, Init;
    RunInv(run, k);
    rows := AnswerStep(run[k], run[k + 1], i);
    j := SeenInRun(run, k, i);
    GoodAnswerOrder(run[k], run[k].isolates[i].job, run[k].isolates[i].scan, rows,
                    run[k + 1].isolates[i].answer.events);
  }

  /** The order of an answer, and its distinct ids, in the fields of its events. */
  lemma GoodAnswerOrder(s: State, job: Job, scan: Scan, rows: Option<seq<Event>>, events: seq<Event>)
    requires GoodAnswer(s, job, scan, rows, events)
    ensures forall a, b :: 0 <= a < b < |events| ==>
      && (events[a].block > events[b].block
          || (events[a].block == events[b].block && events[a].logIndex >= events[b].logIndex))
      && (events[a].tx != events[b].tx || events[a].logIndex != events[b].logIndex)
  {
    hide SeenScan;
  }

  lemma AnswerStep(s: State, s': State, i: nat) returns (rows: Option<seq<Event>>)
    requires Inv(s) && Next(s, s') && i < |s.isolates| && i < |s'.isolates|
    requires !s.isolates[i].Answered? && s'.isolates[i].Answered? && s'.isolates[i].answer.Real?
    ensures HasScan(s.isolates[i])
    ensures var p := s.isolates[i];
      && (rows.Some? ==> RowsOf(rows.value, s.mirror, p.job.rock))
      && (rows.None? ==> !p.job.resumed)
      && GoodAnswer(s, p.job, p.scan, rows, s'.isolates[i].answer.events)
  {
    hide Inv, GoodAnswer, RowsOf, Own, PhaseOk, ScanDone, Merge, SortNewestFirst, ChunkedBy, Tiles, ChunkLogs,
      ValidChain, Agree;
    InvParts(s, i);
    var p := s.isolates[i];
    var a, n :| Step(s, s', a, n);
    rows := None;
    match a
    case ReadBack(read) =>
      rows := read;
      ReadingDone(s, p);
      if read.Some? {
        MergedAnswer(s, p.job, p.scan, read.value);
      } else {
        ScannedAnswer(s, p.job, p.scan);
      }
    case EndScan =>
      TailDone(s, p);
      ScannedAnswer(s, p.job, p.scan);
    case _ =>
  }

  lemma ReadingDone(s: State, p: Phase)
    requires PhaseOk(s, p) && p.Reading?
    ensures ScanDone(s, p.job, p.scan)
  {
    hide ScanDone;
  }

  /** Only a call with a database resumes. */
  lemma TailDone(s: State, p: Phase)
    requires PhaseOk(s, p) && p.TailScanning? && p.todo == []
    ensures ScanDone(s, p.job, p.scan) && (p.job.resumed ==> p.job.db)
  {
    hide TailOk, Logs, Complete;
  }
}
