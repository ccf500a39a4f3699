/**
  `raw_disk_io` as a transition system. Jobs run on thread pools, so between any two
  steps of one job any other job may take steps. A transfer step moves any number of
  bytes of the current file slice, which covers whole slices and torn ones alike.

  A job is named by the moment of its call: the job issued from state number `j` of a
  run is job `j`, and so is the pool buffer that it allocates.
 */
module DiskSystem {
  import opened Basics
  import opened Extents
  import opened Torrents
  import opened BufferPools
  import opened StorageSlots
  import opened StoreBuffers

  type JobId = nat
  type Image = nat -> byte

  /** The contents of a pool buffer. */
  type Buffer = b: seq<byte> | |b| == BLOCK witness seq(BLOCK, _ => 0)

  /**
    A storage: its partition and, for the statement of the properties only, the
    last-write-wins contents of the torrent and the moment at which it was added.
   */
  datatype Volume = Volume(torrent: Torrent, disk: Disk, image: Image, born: nat)

  datatype Request =
    | WriteReq(loc: Loc, size: nat)
    | ReadReq(piece: nat, start: int, length: int)
    | HashReq(piece: nat)

  datatype Failure = Fine | InvalidRequest | NoMemory | ParseError

  /** What a handler is called with; the hasher is the concatenation of the bytes fed to it. */
  datatype Reply = Reply(bytes: seq<byte>, failure: Failure)

  /** A disk read of the hash loop: since when the block is known to have had no entry, and what was read. */
  datatype Miss = Miss(since: nat, got: seq<byte>)

  datatype Stage =
    | Writing(direct: Option<seq<byte>>, done: nat, failed: bool)
    | Reading(buf: seq<byte>, from: nat, upto: nat, done: nat)
    | Hashing(round: nat, fed: seq<byte>, miss: Option<Miss>, failed: bool)
    | Posted(reply: Reply)
    | Handled(reply: Reply)

  datatype Job = Job(idx: nat, torrent: Torrent, born: nat, req: Request, stage: Stage) {
    predicate Running() {
      stage.Writing? || stage.Reading? || stage.Hashing?
    }

    predicate AsyncWriting() {
      req.WriteReq? && stage.Writing? && stage.direct.None?
    }
  }

  datatype State = State(
    now: nat,
    slots: Slots<Volume>,
    store: map<Loc, JobId>,
    heap: map<JobId, Buffer>,
    readBufs: set<JobId>,
    writePool: Pool,
    readPool: Pool,
    jobs: map<JobId, Job>,
    calls: multiset<JobId>)
  {
    predicate Has(idx: nat) {
      idx in slots.storages
    }

    function Vol(idx: nat): Volume
      requires Has(idx)
    {
      slots.storages[idx]
    }

    function SetVol(idx: nat, v: Volume): State {
      this.(slots := slots.(storages := slots.storages[idx := v]))
    }

    function Tick(): State {
      this.(now := now + 1)
    }

    function SetStage(j: JobId, stage: Stage): State
      requires j in jobs
    {
      this.(jobs := jobs[j := jobs[j].(stage := stage)])
    }

    /** A new job, named by the current moment. */
    function Launch(idx: nat, req: Request, stage: Stage): State
      requires Has(idx)
    {
      this.(jobs := jobs[now := Job(idx, Vol(idx).torrent, Vol(idx).born, req, stage)])
    }

    function Call(j: JobId): State {
      this.(calls := calls + multiset{j})
    }

    /** The store buffer's answer for a block, as `get` sees it. */
    function Entry(loc: Loc): (e: Option<Buffer>) {
      if loc in store && store[loc] in heap then Some(heap[store[loc]]) else None
    }
  }

  const INITIAL := State(0, Slots(map[], []), map[], map[], {}, EMPTY_POOL, EMPTY_POOL, map[], multiset{})

  /** The image after `bytes` are written at logical position `pos`. */
  function Paint(image: Image, pos: nat, bytes: seq<byte>): Image {
    (p: nat) => if pos <= p < pos + |bytes| then bytes[p - pos] else image(p)
  }

  /** What a torrent's logical bytes are when its partition is first opened. */
  function InitialImage(t: Torrent, disk: Disk): Image {
    (p: nat) => if p < Total(t) && Address(t.files, p).Some? then disk(Address(t.files, p).value) else 0
  }

  /** `n` more bytes at logical position `pos` lie in one file, whose name parses. */
  predicate Transferable(t: Torrent, pos: nat, n: nat) {
    && 0 < n && pos < Total(t)
    && var (f, o) := FileFrom(t.files, 0, pos); t.files[f].base.Some? && o + n <= t.files[f].size
  }

  predicate Unparseable(t: Torrent, pos: nat) {
    pos < Total(t) && Address(t.files, pos).None?
  }

  // ---------- new_torrent and remove_torrent ----------

  function Attach(s: State, t: Torrent, disk: Disk): State {
    s.(slots := s.slots.Add(Volume(t, disk, InitialImage(t, disk), s.now))).Tick()
  }

  /** A storage is removed only when none of its jobs is in flight. */
  predicate CanDetach(s: State, idx: nat) {
    s.Has(idx) && forall j :: j in s.jobs && s.jobs[j].idx == idx ==> !s.jobs[j].Running()
  }

  function Detach(s: State, idx: nat): State {
    s.(slots := s.slots.Remove(idx)).Tick()
  }

  // ---------- async_write ----------

  /** libtorrent writes whole blocks, block aligned. */
  predicate CanIssueWrite(s: State, loc: Loc, data: seq<byte>, junk: seq<byte>) {
    && s.Has(loc.torrent) && IsBlock(s.Vol(loc.torrent).torrent, loc)
    && |data| == BlockLen(s.Vol(loc.torrent).torrent, loc) && |junk| == BLOCK
  }

  /** `junk` is what malloc left in the buffer. */
  function IssueWrite(s: State, loc: Loc, data: seq<byte>, o: Option<Observer>, mallocOk: bool, junk: seq<byte>): State
    requires CanIssueWrite(s, loc, data, junk)
  {
    var (pool, ok, _) := AllocateWatched(s.writePool, mallocOk, o);
    var s1 := s.(writePool := pool);
    if ok then
      var v := s.Vol(loc.torrent);
      s1.(heap := s.heap[s.now := Overlay(junk, 0, data)], store := InsertEntry(s.store, loc, s.now))
      .SetVol(loc.torrent, v.(image := Paint(v.image, BlockStart(v.torrent, loc), data)))
      .Launch(loc.torrent, WriteReq(loc, |data|), Writing(None, 0, false)).Tick()
    else
      s1.Launch(loc.torrent, WriteReq(loc, |data|), Writing(Some(data), 0, false)).Tick()
  }

  predicate IsWriting(s: State, j: JobId) {
    && j in s.jobs && s.jobs[j].req.WriteReq? && s.jobs[j].stage.Writing? && s.Has(s.jobs[j].idx)
  }

  /** Logical position of the next byte that a write job stores. */
  function WritePos(s: State, j: JobId): nat
    requires IsWriting(s, j)
  {
    BlockStart(s.Vol(s.jobs[j].idx).torrent, s.jobs[j].req.loc) + s.jobs[j].stage.done
  }

  /** The bytes being written: the pool buffer, or the caller's memory in the synchronous fallback. */
  function Source(s: State, j: JobId): seq<byte>
    requires IsWriting(s, j)
  {
    if s.jobs[j].stage.direct.Some? then s.jobs[j].stage.direct.value
    else if j in s.heap then s.heap[j] else []
  }

  predicate CanFlush(s: State, j: JobId, n: nat) {
    && IsWriting(s, j) && !s.jobs[j].stage.failed
    && s.jobs[j].stage.done + n <= s.jobs[j].req.size <= |Source(s, j)|
    && Transferable(s.Vol(s.jobs[j].idx).torrent, WritePos(s, j), n)
  }

  function Flush(s: State, j: JobId, n: nat): State
    requires CanFlush(s, j, n)
  {
    var job := s.jobs[j];
    var v, pos := s.Vol(job.idx), WritePos(s, j);
    var bytes := Source(s, j)[job.stage.done..job.stage.done + n];
    var image := if job.stage.direct.Some? then Paint(v.image, pos, bytes) else v.image;
    s.SetVol(job.idx, v.(disk := Poke(v.disk, Address(v.torrent.files, pos).value, bytes), image := image))
    .SetStage(j, Writing(job.stage.direct, job.stage.done + n, false)).Tick()
  }

  predicate CanFailFlush(s: State, j: JobId) {
    && IsWriting(s, j) && !s.jobs[j].stage.failed && s.jobs[j].stage.done < s.jobs[j].req.size
    && Unparseable(s.Vol(s.jobs[j].idx).torrent, WritePos(s, j))
  }

  function FailFlush(s: State, j: JobId): State
    requires CanFailFlush(s, j)
  {
    s.SetStage(j, Writing(s.jobs[j].stage.direct, s.jobs[j].stage.done, true)).Tick()
  }

  predicate CanFinishWrite(s: State, j: JobId) {
    IsWriting(s, j) && (s.jobs[j].stage.failed || s.jobs[j].stage.done == s.jobs[j].req.size)
  }

  /** After the last pwrite: un-index the block (asynchronous writes only), then post the handler. */
  function FinishWrite(s: State, j: JobId): State
    requires CanFinishWrite(s, j)
  {
    var st := s.jobs[j].stage;
    s.(store := if st.direct.None? then EraseEntry(s.store, s.jobs[j].req.loc) else s.store)
    .SetStage(j, Posted(Reply([], if st.failed then ParseError else Fine))).Tick()
  }

  /** The closure of a write job is destroyed, and its buffer with it, only after the job has run. */
  predicate CanFreeWrite(s: State, j: JobId) {
    j in s.heap && j in s.jobs && !s.jobs[j].stage.Writing? && s.writePool.size > 0
  }

  function FreeWrite(s: State, j: JobId): State
    requires CanFreeWrite(s, j)
  {
    s.(heap := s.heap - {j}, writePool := FreeBuffer(s.writePool)).Tick()
  }

  // ---------- async_read ----------

  /** Requests have at most 16 KiB; well-formed ones stay within the piece. */
  predicate CanIssueRead(s: State, idx: nat, piece: nat, start: int, length: int, junk: seq<byte>) {
    && s.Has(idx) && length <= BLOCK && |junk| == BLOCK
    && (0 < length && 0 <= start ==> InPiece(s.Vol(idx).torrent, piece, start, length))
  }

  /** The store-buffer part of a read, for a request that starts `readOffset` bytes into a block. */
  function FrontAt(s: State, idx: nat, piece: nat, block: nat, readOffset: nat, length: nat, junk: seq<byte>): Stitched
    requires readOffset < BLOCK && 0 < length <= BLOCK == |junk|
  {
    Stitch(junk, readOffset, length, s.Entry(Loc(idx, piece, block)), s.Entry(Loc(idx, piece, block + BLOCK)))
  }

  /** The rest of a read that got a buffer: answered at once, or left to a disk read. */
  function Serve(s: State, pool: Pool, idx: nat, req: Request, front: Stitched): State
    requires s.Has(idx) && req.ReadReq? && 0 < req.length <= |front.buf|
  {
    var s1 := s.(readPool := pool, readBufs := s.readBufs + {s.now});
    if front.from == front.upto then
      s1.Launch(idx, req, Handled(Reply(front.buf[..req.length], Fine))).Call(s.now).Tick()
    else s1.Launch(idx, req, Reading(front.buf, front.from, front.upto, 0)).Tick()
  }

  function IssueRead(s: State, idx: nat, piece: nat, start: int, length: int, mallocOk: bool, junk: seq<byte>): State
    requires CanIssueRead(s, idx, piece, start, length, junk)
  {
    var req := ReadReq(piece, start, length);
    if length <= 0 || start < 0 then
      s.Launch(idx, req, Handled(Reply([], InvalidRequest))).Call(s.now).Tick()
    else
      var (pool, ok) := AllocateImpl(s.readPool, mallocOk);
      if !ok then s.(readPool := pool).Launch(idx, req, Handled(Reply([], NoMemory))).Call(s.now).Tick()
      else Serve(s, pool, idx, req, FrontAt(s, idx, piece, start - Within(start), Within(start), length, junk))
  }

  predicate IsReading(s: State, j: JobId) {
    && j in s.jobs && s.jobs[j].req.ReadReq? && s.jobs[j].stage.Reading? && s.Has(s.jobs[j].idx)
    && 0 <= s.jobs[j].req.start && 0 < s.jobs[j].req.length <= BLOCK
    && var st := s.jobs[j].stage; st.from + st.done <= st.upto <= s.jobs[j].req.length && |st.buf| == BLOCK
  }

  /** Logical position of byte `i` of the reply to a read. */
  function ReplyPos(t: Torrent, req: Request, i: nat): nat
    requires req.ReadReq? && 0 <= req.start
  {
    PieceStart(t, req.piece) + req.start + i
  }

  predicate CanReadSome(s: State, j: JobId, n: nat) {
    && IsReading(s, j)
    && var job := s.jobs[j];
      && job.stage.from + job.stage.done + n <= job.stage.upto
      && Transferable(s.Vol(job.idx).torrent, ReplyPos(s.Vol(job.idx).torrent, job.req, job.stage.from + job.stage.done), n)
  }

  function ReadSome(s: State, j: JobId, n: nat): State
    requires CanReadSome(s, j, n)
  {
    var job := s.jobs[j];
    var v, at := s.Vol(job.idx), job.stage.from + job.stage.done;
    var bytes := Peek(v.disk, Address(v.torrent.files, ReplyPos(v.torrent, job.req, at)).value, n);
    s.SetStage(j, Reading(Overlay(job.stage.buf, at, bytes), job.stage.from, job.stage.upto, job.stage.done + n)).Tick()
  }

  predicate CanFinishRead(s: State, j: JobId) {
    && IsReading(s, j)
    && var job := s.jobs[j]; var at := job.stage.from + job.stage.done;
      at == job.stage.upto || Unparseable(s.Vol(job.idx).torrent, ReplyPos(s.Vol(job.idx).torrent, job.req, at))
  }

  function FinishRead(s: State, j: JobId): State
    requires CanFinishRead(s, j)
  {
    var st := s.jobs[j].stage;
    s.SetStage(j, Posted(Reply(st.buf[..s.jobs[j].req.length],
                               if st.from + st.done == st.upto then Fine else ParseError))).Tick()
  }

  // ---------- async_hash ----------

  predicate CanIssueHash(s: State, idx: nat, piece: nat) {
    s.Has(idx) && PieceStart(s.Vol(idx).torrent, piece) < Total(s.Vol(idx).torrent)
  }

  function IssueHash(s: State, idx: nat, piece: nat, mallocOk: bool): State
    requires CanIssueHash(s, idx, piece)
  {
    var (pool, ok) := AllocateImpl(s.readPool, mallocOk);
    var s1 := s.(readPool := pool);
    if !ok then s1.Launch(idx, HashReq(piece), Posted(Reply([], NoMemory))).Tick()
    else s1.(readBufs := s.readBufs + {s.now}).Launch(idx, HashReq(piece), Hashing(0, [], None, false)).Tick()
  }

  predicate IsHashing(s: State, j: JobId) {
    && j in s.jobs && s.jobs[j].req.HashReq? && s.jobs[j].stage.Hashing? && s.Has(s.jobs[j].idx)
    && |s.jobs[j].stage.fed| <= PieceSize(s.Vol(s.jobs[j].idx).torrent, s.jobs[j].req.piece)
  }

  /** The length asked for in the current round; the loop's `offset` is what has been fed so far. */
  function RoundLen(s: State, j: JobId): nat
    requires IsHashing(s, j)
  {
    var job := s.jobs[j];
    Min(BLOCK, PieceSize(s.Vol(job.idx).torrent, job.req.piece) - |job.stage.fed|)
  }

  /** Logical position of the next byte that a hash job reads from disk. */
  function HashPos(s: State, j: JobId): nat
    requires IsHashing(s, j) && s.jobs[j].stage.miss.Some?
  {
    var job := s.jobs[j];
    PieceStart(s.Vol(job.idx).torrent, job.req.piece) + |job.stage.fed| + |job.stage.miss.value.got|
  }

  predicate CanHashLookup(s: State, j: JobId) {
    && IsHashing(s, j) && s.jobs[j].stage.miss.None?
    && s.jobs[j].stage.round < Rounds(s.Vol(s.jobs[j].idx).torrent, s.jobs[j].req.piece)
  }

  /** One `get` of the hash loop; the hasher is fed inside the callback, under the lock. */
  function HashLookup(s: State, j: JobId): State
    requires CanHashLookup(s, j)
  {
    var job := s.jobs[j];
    var st := job.stage;
    match s.Entry(Loc(job.idx, job.req.piece, |st.fed|))
    case Some(entry) =>
      s.SetStage(j, Hashing(st.round + 1, st.fed + entry[..RoundLen(s, j)], None, st.failed)).Tick()
    case None => s.SetStage(j, Hashing(st.round, st.fed, Some(Miss(s.now, [])), st.failed)).Tick()
  }

  predicate CanHashSome(s: State, j: JobId, n: nat) {
    && IsHashing(s, j) && s.jobs[j].stage.miss.Some?
    && |s.jobs[j].stage.miss.value.got| + n <= RoundLen(s, j)
    && Transferable(s.Vol(s.jobs[j].idx).torrent, HashPos(s, j), n)
  }

  function HashSome(s: State, j: JobId, n: nat): State
    requires CanHashSome(s, j, n)
  {
    var st, v := s.jobs[j].stage, s.Vol(s.jobs[j].idx);
    var bytes := Peek(v.disk, Address(v.torrent.files, HashPos(s, j)).value, n);
    s.SetStage(j, Hashing(st.round, st.fed, Some(Miss(st.miss.value.since, st.miss.value.got + bytes)), st.failed)).Tick()
  }

  predicate CanHashUpdate(s: State, j: JobId) {
    && IsHashing(s, j) && s.jobs[j].stage.miss.Some?
    && |s.jobs[j].stage.miss.value.got| <= RoundLen(s, j)
    && (|s.jobs[j].stage.miss.value.got| == RoundLen(s, j)
        || Unparseable(s.Vol(s.jobs[j].idx).torrent, HashPos(s, j)))
  }

  /** The end of the round's disk read: feed what came, or break out of the loop when nothing did. */
  function HashUpdate(s: State, j: JobId): State
    requires CanHashUpdate(s, j)
  {
    var st := s.jobs[j].stage;
    var got := st.miss.value.got;
    var failed := st.failed || |got| < RoundLen(s, j);
    if got == [] then s.SetStage(j, Posted(Reply(st.fed, if failed then ParseError else Fine))).Tick()
    else s.SetStage(j, Hashing(st.round + 1, st.fed + got, None, failed)).Tick()
  }

  predicate CanFinishHash(s: State, j: JobId) {
    && IsHashing(s, j) && s.jobs[j].stage.miss.None?
    && s.jobs[j].stage.round >= Rounds(s.Vol(s.jobs[j].idx).torrent, s.jobs[j].req.piece)
  }

  function FinishHash(s: State, j: JobId): State
    requires CanFinishHash(s, j)
  {
    var st := s.jobs[j].stage;
    s.SetStage(j, Posted(Reply(st.fed, if st.failed then ParseError else Fine))).Tick()
  }

  // ---------- handlers and reply buffers ----------

  predicate CanHandle(s: State, j: JobId) {
    j in s.jobs && s.jobs[j].stage.Posted?
  }

  function Handle(s: State, j: JobId): State
    requires CanHandle(s, j)
  {
    s.SetStage(j, Handled(s.jobs[j].stage.reply)).Call(j).Tick()
  }

  /** A reply buffer goes back when its holder is dropped: by the handler's owner, or with the hash closure. */
  predicate CanFreeRead(s: State, j: JobId) {
    && j in s.readBufs && j in s.jobs && s.readPool.size > 0
    && (s.jobs[j].stage.Handled? || (s.jobs[j].req.HashReq? && s.jobs[j].stage.Posted?))
  }

  function FreeRead(s: State, j: JobId): State
    requires CanFreeRead(s, j)
  {
    s.(readBufs := s.readBufs - {j}, readPool := FreeBuffer(s.readPool)).Tick()
  }

  // ---------- runs ----------

  datatype Step =
    | SAttach(t: Torrent, disk: Disk)
    | SDetach(idx: nat)
    | SWrite(loc: Loc, data: seq<byte>, o: Option<Observer>, mallocOk: bool, junk: seq<byte>)
    | SFlush(j: JobId, n: nat)
    | SFailFlush(j: JobId)
    | SFinishWrite(j: JobId)
    | SFreeWrite(j: JobId)
    | SRead(idx: nat, piece: nat, start: int, length: int, mallocOk: bool, junk: seq<byte>)
    | SReadSome(j: JobId, n: nat)
    | SFinishRead(j: JobId)
    | SHash(idx: nat, piece: nat, mallocOk: bool)
    | SHashLookup(j: JobId)
    | SHashSome(j: JobId, n: nat)
    | SHashUpdate(j: JobId)
    | SFinishHash(j: JobId)
    | SHandle(j: JobId)
    | SFreeRead(j: JobId)

  predicate Enabled(s: State, step: Step) {
    match step
    case SAttach(_, _) => true
    case SDetach(idx) => CanDetach(s, idx)
    case SWrite(loc, data, _, _, junk) => CanIssueWrite(s, loc, data, junk)
    case SFlush(j, n) => CanFlush(s, j, n)
    case SFailFlush(j) => CanFailFlush(s, j)
    case SFinishWrite(j) => CanFinishWrite(s, j)
    case SFreeWrite(j) => CanFreeWrite(s, j)
    case SRead(idx, piece, start, length, _, junk) => CanIssueRead(s, idx, piece, start, length, junk)
    case SReadSome(j, n) => CanReadSome(s, j, n)
    case SFinishRead(j) => CanFinishRead(s, j)
    case SHash(idx, piece, _) => CanIssueHash(s, idx, piece)
    case SHashLookup(j) => CanHashLookup(s, j)
    case SHashSome(j, n) => CanHashSome(s, j, n)
    case SHashUpdate(j) => CanHashUpdate(s, j)
    case SFinishHash(j) => CanFinishHash(s, j)
    case SHandle(j) => CanHandle(s, j)
    case SFreeRead(j) => CanFreeRead(s, j)
  }

  function Next(s: State, step: Step): State
    requires Enabled(s, step)
  {
    match step
    case SAttach(t, disk) => Attach(s, t, disk)
    case SDetach(idx) => Detach(s, idx)
    case SWrite(loc, data, o, mallocOk, junk) => IssueWrite(s, loc, data, o, mallocOk, junk)
    case SFlush(j, n) => Flush(s, j, n)
    case SFailFlush(j) => FailFlush(s, j)
    case SFinishWrite(j) => FinishWrite(s, j)
    case SFreeWrite(j) => FreeWrite(s, j)
    case SRead(idx, piece, start, length, mallocOk, junk) => IssueRead(s, idx, piece, start, length, mallocOk, junk)
    case SReadSome(j, n) => ReadSome(s, j, n)
    case SFinishRead(j) => FinishRead(s, j)
    case SHash(idx, piece, mallocOk) => IssueHash(s, idx, piece, mallocOk)
    case SHashLookup(j) => HashLookup(s, j)
    case SHashSome(j, n) => HashSome(s, j, n)
    case SHashUpdate(j) => HashUpdate(s, j)
    case SFinishHash(j) => FinishHash(s, j)
    case SHandle(j) => Handle(s, j)
    case SFreeRead(j) => FreeRead(s, j)
  }

  ghost predicate StepAt(run: seq<State>, steps: seq<Step>, i: nat)
    requires |run| == |steps| + 1 && i < |steps|
  {
    Enabled(run[i], steps[i]) && run[i + 1] == Next(run[i], steps[i])
  }

  /** The states that the backend goes through from its construction on while it performs `steps`. */
  ghost predicate Execution(run: seq<State>, steps: seq<Step>) {
    && |run| == |steps| + 1 && run[0] == INITIAL
    && forall i :: 0 <= i < |steps| ==> StepAt(run, steps, i)
  }
}
