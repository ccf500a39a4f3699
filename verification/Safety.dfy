/** What every step of the backend keeps, with no assumption on how writes overlap. */
module Safety {
  import opened Basics
  import opened Extents
  import opened Torrents
  import opened BufferPools
  import opened StoreBuffers
  import opened DiskSystem

  // ---------- the invariant ----------

  type Jobs = map<JobId, Job>

  predicate WriteShape(job: Job) {
    job.req.WriteReq? && job.stage.Writing? ==>
      && job.req.loc.torrent == job.idx
      && IsBlock(job.torrent, job.req.loc) && job.req.size == BlockLen(job.torrent, job.req.loc)
      && job.stage.done <= job.req.size
      && (job.stage.direct.Some? ==> |job.stage.direct.value| == job.req.size)
      && (job.stage.failed ==>
            job.stage.done < job.req.size && Unparseable(job.torrent, BlockStart(job.torrent, job.req.loc) + job.stage.done))
  }

  predicate ReadShape(job: Job) {
    job.req.ReadReq? && job.stage.Reading? ==>
      && 0 <= job.req.start && 0 < job.req.length <= BLOCK
      && InPiece(job.torrent, job.req.piece, job.req.start, job.req.length)
      && job.stage.from + job.stage.done <= job.stage.upto <= job.req.length
      && |job.stage.buf| == BLOCK
  }

  /** Rounds are whole blocks until a short read, after which the next byte has an unparseable name. */
  predicate HashShape(job: Job) {
    job.req.HashReq? && job.stage.Hashing? ==>
      var size, fed := PieceSize(job.torrent, job.req.piece), |job.stage.fed|;
      && fed <= size && job.stage.round <= Rounds(job.torrent, job.req.piece)
      && PieceStart(job.torrent, job.req.piece) + size <= Total(job.torrent)
      && (job.stage.failed ==> Within(fed) != 0 && fed < size
                               && Unparseable(job.torrent, PieceStart(job.torrent, job.req.piece) + fed))
      && (!job.stage.failed ==> fed == Min(job.stage.round * BLOCK, size))
      && (job.stage.miss.Some? ==> fed + |job.stage.miss.value.got| <= size && |job.stage.miss.value.got| <= BLOCK
                                   && job.stage.round < Rounds(job.torrent, job.req.piece))
      && (job.stage.miss.Some? && job.stage.failed ==> job.stage.miss.value.got == [])
  }

  /** A successful read has a full reply to a request within its piece. */
  predicate ReplyShape(job: Job) {
    job.req.ReadReq? && (job.stage.Posted? || job.stage.Handled?) && job.stage.reply.failure == Fine ==>
      && 0 <= job.req.start && 0 < job.req.length && InPiece(job.torrent, job.req.piece, job.req.start, job.req.length)
      && |job.stage.reply.bytes| == job.req.length
  }

  /** A hash job has fed the whole piece, or all of it before the first unparseable name it met on disk. */
  predicate DigestShape(job: Job) {
    job.req.HashReq? && (job.stage.Posted? || job.stage.Handled?) ==>
      var size, fed := PieceSize(job.torrent, job.req.piece), |job.stage.reply.bytes|;
      && job.stage.reply.failure != InvalidRequest
      && (job.stage.reply.failure == Fine ==> fed == size)
      && (job.stage.reply.failure == ParseError ==>
            fed < size && Unparseable(job.torrent, PieceStart(job.torrent, job.req.piece) + fed))
  }

  predicate JobFits(job: Job) {
    && (job.stage.Writing? ==> job.req.WriteReq?)
    && (job.stage.Reading? ==> job.req.ReadReq?)
    && (job.stage.Hashing? ==> job.req.HashReq?)
    && WriteShape(job) && ReadShape(job) && HashShape(job)
    && ReplyShape(job) && DigestShape(job)
  }

  predicate OnItsStorage(storages: map<nat, Volume>, job: Job) {
    && job.idx in storages
    && storages[job.idx].torrent == job.torrent && storages[job.idx].born == job.born
  }

  /**
    One job: a running job is on the storage it was issued on and holds its buffer, and
    the handler of a finished job has been called once, that of any other not at all.
   */
  predicate JobOk(s: State, j: JobId, job: Job) {
    && job.born < j < s.now
    && (job.Running() ==> OnItsStorage(s.slots.storages, job))
    && (job.AsyncWriting() ==> j in s.heap)
    && (job.stage.Reading? || job.stage.Hashing? ==> j in s.readBufs)
    && s.calls[j] == (if job.stage.Handled? then 1 else 0)
  }

  ghost predicate JobsOk(s: State) {
    forall j :: j in s.jobs ==> JobOk(s, j, s.jobs[j])
  }

  /** Each store-buffer entry points to the buffer of a write of that block that has not yet erased. */
  ghost predicate Indexed(store: map<Loc, JobId>, jobs: Jobs) {
    forall loc :: loc in store ==>
      store[loc] in jobs && jobs[store[loc]].AsyncWriting() && jobs[store[loc]].req.loc == loc
  }

  /** Every buffer and every handler call belongs to a job, and the pools count exactly the buffers that are out. */
  ghost predicate Accounted(s: State) {
    && (forall j :: j in s.heap ==> j in s.jobs && s.jobs[j].req.WriteReq?)
    && (forall j :: j in s.readBufs ==> j in s.jobs && !s.jobs[j].req.WriteReq?)
    && (forall j :: j in s.calls ==> j in s.jobs)
    && s.writePool.size == |s.heap| <= BUFFER_COUNT
    && s.readPool.size == |s.readBufs| <= BUFFER_COUNT
  }

  ghost predicate SlotsOk(s: State) {
    s.slots.Valid() && forall idx :: idx in s.slots.storages ==> s.slots.storages[idx].born < s.now
  }

  ghost predicate Core(s: State) {
    SlotsOk(s) && Indexed(s.store, s.jobs) && Accounted(s) && JobsOk(s)
  }

  ghost predicate Shaped(jobs: Jobs) {
    forall j :: j in jobs ==> JobFits(jobs[j])
  }

  ghost predicate Inv(s: State) {
    Core(s) && Shaped(s.jobs)
  }

  // ---------- preservation: building blocks ----------

  lemma SetVolSlots(s: State, idx: nat, v: Volume)
    requires SlotsOk(s) && s.Has(idx) && v.born == s.Vol(idx).born
    ensures SlotsOk(s.SetVol(idx, v))
  {
    var s' := s.SetVol(idx, v);
    assert s'.slots.storages.Keys == s.slots.storages.Keys;
    assert |s'.slots.storages.Keys| == |s.slots.storages.Keys|;
  }

  /** Changing a volume's disk and image concerns no invariant here. */
  lemma SetVolCore(s: State, idx: nat, v: Volume)
    requires Core(s) && s.Has(idx) && v.torrent == s.Vol(idx).torrent && v.born == s.Vol(idx).born
    ensures Core(s.SetVol(idx, v))
  {
    var s' := s.SetVol(idx, v);
    SetVolSlots(s, idx, v);
    forall j | j in s'.jobs ensures JobOk(s', j, s'.jobs[j]) {
      assert JobOk(s, j, s.jobs[j]);
    }
  }

  /** What lets job `j` move to another stage with nothing else happening. */
  ghost predicate MayMove(s: State, j: JobId, stage: Stage) {
    && j in s.jobs && !s.jobs[j].stage.Handled? && !stage.Handled?
    && var job, job' := s.jobs[j], s.jobs[j].(stage := stage);
      && (job'.Running() ==> job.Running())
      && (job'.AsyncWriting() ==> job.AsyncWriting())
      && (job'.stage.Reading? || job'.stage.Hashing? ==> j in s.readBufs)
      && (job'.AsyncWriting() || forall loc :: loc in s.store ==> s.store[loc] != j)
  }

  lemma StageJobs(s: State, j: JobId, stage: Stage)
    requires JobsOk(s) && MayMove(s, j, stage)
    ensures JobsOk(s.SetStage(j, stage).Tick())
  {
    var s' := s.SetStage(j, stage).Tick();
    forall i | i in s'.jobs ensures JobOk(s', i, s'.jobs[i]) {
      assert JobOk(s, i, s.jobs[i]);
    }
  }

  lemma StageIndexed(s: State, j: JobId, stage: Stage)
    requires Indexed(s.store, s.jobs) && MayMove(s, j, stage)
    ensures Indexed(s.store, s.SetStage(j, stage).jobs)
  {
  }

  lemma StageCore(s: State, j: JobId, stage: Stage)
    requires Core(s) && MayMove(s, j, stage)
    ensures Core(s.SetStage(j, stage).Tick())
  {
    StageJobs(s, j, stage);
    StageIndexed(s, j, stage);
  }

  lemma StageShaped(s: State, j: JobId, stage: Stage)
    requires Shaped(s.jobs) && j in s.jobs && JobFits(s.jobs[j].(stage := stage))
    ensures Shaped(s.SetStage(j, stage).Tick().jobs)
  {
  }

  /** What a call may do besides adding job number `s.now`: allocate its buffer, index it, call its handler. */
  ghost predicate Launched(s: State, job: Job, s': State) {
    && s'.now == s.now + 1 && s'.slots == s.slots && s'.jobs == s.jobs[s.now := job]
    && OnItsStorage(s.slots.storages, job)
    && (s'.store == s.store || (job.AsyncWriting() && s'.store == InsertEntry(s.store, job.req.loc, s.now)))
    && (s'.heap == s.heap || (job.req.WriteReq? && s.now in s'.heap && s'.heap == s.heap[s.now := s'.heap[s.now]]))
    && (s'.readBufs == s.readBufs || (!job.req.WriteReq? && s'.readBufs == s.readBufs + {s.now}))
    && (job.AsyncWriting() ==> s.now in s'.heap)
    && (job.stage.Reading? || job.stage.Hashing? ==> s.now in s'.readBufs)
    && s'.calls == (if job.stage.Handled? then s.calls + multiset{s.now} else s.calls)
    && s'.writePool.size == s.writePool.size + (if s'.heap == s.heap then 0 else 1) <= BUFFER_COUNT
    && s'.readPool.size == s.readPool.size + (if s'.readBufs == s.readBufs then 0 else 1) <= BUFFER_COUNT
  }

  lemma NameIsFresh(s: State)
    requires Core(s)
    ensures s.now !in s.jobs && s.now !in s.heap && s.now !in s.readBufs && s.calls[s.now] == 0
  {
    forall j | j in s.jobs ensures j < s.now {
      assert JobOk(s, j, s.jobs[j]);
    }
  }

  lemma LaunchedAccounted(s: State, job: Job, s': State)
    requires Accounted(s) && Launched(s, job, s')
    requires s.now !in s.heap && s.now !in s.readBufs
    ensures Accounted(s')
  {
  }

  lemma LaunchedJobs(s: State, job: Job, s': State)
    requires Core(s) && Launched(s, job, s')
    ensures JobsOk(s') && Indexed(s'.store, s'.jobs)
  {
    NameIsFresh(s);
    forall i | i in s'.jobs ensures JobOk(s', i, s'.jobs[i]) {
      if i != s.now {
        assert JobOk(s, i, s.jobs[i]);
      }
    }
  }

  lemma LaunchedInv(s: State, job: Job, s': State)
    requires Inv(s) && Launched(s, job, s') && JobFits(job)
    ensures Inv(s')
  {
    NameIsFresh(s);
    LaunchedAccounted(s, job, s');
    LaunchedJobs(s, job, s');
  }

  // ---------- preservation: the steps ----------

  /** Storages come and go without concern for jobs that are not running on them. */
  lemma SlotsInv(s: State, s': State)
    requires Inv(s) && s' == s.(slots := s'.slots, now := s.now + 1) && SlotsOk(s')
    requires forall j :: j in s.jobs && s.jobs[j].Running() ==> OnItsStorage(s'.slots.storages, s.jobs[j])
    ensures Inv(s')
  {
    forall i | i in s'.jobs ensures JobOk(s', i, s'.jobs[i]) {
      assert JobOk(s, i, s.jobs[i]);
    }
  }

  lemma AttachInv(s: State, t: Torrent, disk: Disk)
    requires Inv(s)
    ensures Inv(Attach(s, t, disk))
  {
    s.slots.AddKeepsValid(Volume(t, disk, InitialImage(t, disk), s.now));
    var s' := Attach(s, t, disk);
    forall j | j in s.jobs && s.jobs[j].Running() ensures OnItsStorage(s'.slots.storages, s.jobs[j]) {
      assert JobOk(s, j, s.jobs[j]);
    }
    SlotsInv(s, s');
  }

  lemma DetachSlots(s: State, idx: nat)
    requires SlotsOk(s) && s.Has(idx)
    ensures SlotsOk(Detach(s, idx)) && Detach(s, idx).slots.storages == s.slots.storages - {idx}
  {
    s.slots.RemoveKeepsValid(idx);
  }

  lemma DetachInv(s: State, idx: nat)
    requires Inv(s) && CanDetach(s, idx)
    ensures Inv(Detach(s, idx))
  {
    DetachSlots(s, idx);
    forall j | j in s.jobs && s.jobs[j].Running() ensures OnItsStorage(s.slots.storages - {idx}, s.jobs[j]) {
      assert JobOk(s, j, s.jobs[j]);
    }
    SlotsInv(s, Detach(s, idx));
  }

  lemma IssueWriteInv(s: State, loc: Loc, data: seq<byte>, o: Option<Observer>, mallocOk: bool, junk: seq<byte>)
    requires Inv(s) && CanIssueWrite(s, loc, data, junk)
    ensures Inv(IssueWrite(s, loc, data, o, mallocOk, junk))
  {
    var s' := IssueWrite(s, loc, data, o, mallocOk, junk);
    var base := s.(slots := s'.slots);
    if AllocateWatched(s.writePool, mallocOk, o).1 {
      SetVolCore(s, loc.torrent, s'.Vol(loc.torrent));
      NameIsFresh(s);
      AsyncLaunched(s, base, loc, data, o, mallocOk, junk);
    } else {
      DirectLaunched(s, base, loc, data, o, mallocOk, junk);
    }
    LaunchedInv(base, s'.jobs[s.now], s');
  }

  lemma AsyncLaunched(s: State, base: State, loc: Loc, data: seq<byte>, o: Option<Observer>, mallocOk: bool, junk: seq<byte>)
    requires CanIssueWrite(s, loc, data, junk) && AllocateWatched(s.writePool, mallocOk, o).1
    requires s.now !in s.heap && s.readPool.size <= BUFFER_COUNT
    requires base == s.(slots := IssueWrite(s, loc, data, o, mallocOk, junk).slots)
    ensures var s' := IssueWrite(s, loc, data, o, mallocOk, junk);
      && base == s.SetVol(loc.torrent, s'.Vol(loc.torrent)) && s.now in s'.jobs
      && Launched(base, s'.jobs[s.now], s') && JobFits(s'.jobs[s.now])
  {
  }

  lemma DirectLaunched(s: State, base: State, loc: Loc, data: seq<byte>, o: Option<Observer>, mallocOk: bool, junk: seq<byte>)
    requires CanIssueWrite(s, loc, data, junk) && !AllocateWatched(s.writePool, mallocOk, o).1
    requires s.writePool.size <= BUFFER_COUNT && s.readPool.size <= BUFFER_COUNT
    requires base == s.(slots := IssueWrite(s, loc, data, o, mallocOk, junk).slots)
    ensures var s' := IssueWrite(s, loc, data, o, mallocOk, junk);
      && base == s && s.now in s'.jobs && Launched(base, s'.jobs[s.now], s') && JobFits(s'.jobs[s.now])
  {
  }

  lemma FlushInv(s: State, j: JobId, n: nat)
    requires Inv(s) && CanFlush(s, j, n)
    ensures Inv(Flush(s, j, n))
  {
    var s' := Flush(s, j, n);
    var idx := s.jobs[j].idx;
    SetVolCore(s, idx, s'.Vol(idx));
    var t := s.SetVol(idx, s'.Vol(idx));
    assert JobFits(s.jobs[j]);
    StageCore(t, j, s'.jobs[j].stage);
    StageShaped(t, j, s'.jobs[j].stage);
  }

  lemma FailFlushFits(s: State, j: JobId)
    requires CanFailFlush(s, j) && JobFits(s.jobs[j]) && OnItsStorage(s.slots.storages, s.jobs[j])
    ensures JobFits(FailFlush(s, j).jobs[j])
  {
  }

  lemma FailFlushMoves(s: State, j: JobId)
    requires CanFailFlush(s, j) && Indexed(s.store, s.jobs)
    ensures MayMove(s, j, FailFlush(s, j).jobs[j].stage)
  {
  }

  lemma FailFlushInv(s: State, j: JobId)
    requires Inv(s) && CanFailFlush(s, j)
    ensures Inv(FailFlush(s, j))
  {
    var stage := FailFlush(s, j).jobs[j].stage;
    assert JobOk(s, j, s.jobs[j]);
    FailFlushFits(s, j);
    FailFlushMoves(s, j);
    StageCore(s, j, stage);
    StageShaped(s, j, stage);
  }

  /** Erasing whatever entry is there keeps the index sound, even when it is another job's. */
  lemma EraseInv(s: State, loc: Loc)
    requires Inv(s)
    ensures Inv(s.(store := EraseEntry(s.store, loc)))
  {
    var s' := s.(store := EraseEntry(s.store, loc));
    forall i | i in s'.jobs ensures JobOk(s', i, s'.jobs[i]) {
      assert JobOk(s, i, s.jobs[i]);
    }
  }

  lemma FinishWriteInv(s: State, j: JobId)
    requires Inv(s) && CanFinishWrite(s, j)
    ensures Inv(FinishWrite(s, j))
  {
    var s' := FinishWrite(s, j);
    var t := s.(store := s'.store);
    if s.jobs[j].stage.direct.None? {
      EraseInv(s, s.jobs[j].req.loc);
    }
    StageCore(t, j, s'.jobs[j].stage);
    StageShaped(t, j, s'.jobs[j].stage);
  }

  lemma FreeWriteInv(s: State, j: JobId)
    requires Inv(s) && CanFreeWrite(s, j)
    ensures Inv(FreeWrite(s, j))
  {
    var s' := FreeWrite(s, j);
    assert s'.heap.Keys == s.heap.Keys - {j};
    assert |s'.heap.Keys| == |s.heap.Keys| - 1;
    forall i | i in s'.jobs ensures JobOk(s', i, s'.jobs[i]) {
      assert JobOk(s, i, s.jobs[i]);
    }
  }

  lemma FreeReadInv(s: State, j: JobId)
    requires Inv(s) && CanFreeRead(s, j)
    ensures Inv(FreeRead(s, j))
  {
    var s' := FreeRead(s, j);
    forall i | i in s'.jobs ensures JobOk(s', i, s'.jobs[i]) {
      assert JobOk(s, i, s.jobs[i]);
    }
  }

  lemma HandleCore(s: State, j: JobId)
    requires Core(s) && CanHandle(s, j)
    ensures Core(Handle(s, j))
  {
    var s' := Handle(s, j);
    forall i | i in s'.jobs ensures JobOk(s', i, s'.jobs[i]) {
      assert JobOk(s, i, s.jobs[i]);
    }
  }

  lemma HandledFits(job: Job)
    requires JobFits(job) && job.stage.Posted?
    ensures JobFits(job.(stage := Handled(job.stage.reply)))
  {
  }

  lemma HandleInv(s: State, j: JobId)
    requires Inv(s) && CanHandle(s, j)
    ensures Inv(Handle(s, j))
  {
    HandleCore(s, j);
    HandledFits(s.jobs[j]);
    StageShaped(s, j, Handle(s, j).jobs[j].stage);
  }

  lemma RefusedReadLaunched(s: State, idx: nat, piece: nat, start: int, length: int, mallocOk: bool, junk: seq<byte>)
    requires CanIssueRead(s, idx, piece, start, length, junk) && Accounted(s)
    requires length <= 0 || start < 0 || !AllocateImpl(s.readPool, mallocOk).1
    ensures var s' := IssueRead(s, idx, piece, start, length, mallocOk, junk);
      s.now in s'.jobs && Launched(s, s'.jobs[s.now], s') && JobFits(s'.jobs[s.now])
  {
  }

  lemma FrontBounds(s: State, idx: nat, piece: nat, block: nat, readOffset: nat, length: nat, junk: seq<byte>)
    requires readOffset < BLOCK && 0 < length <= BLOCK == |junk|
    ensures var front := FrontAt(s, idx, piece, block, readOffset, length, junk);
      front.from <= front.upto <= length && |front.buf| == BLOCK
  {
    StitchByte(junk, readOffset, length, s.Entry(Loc(idx, piece, block)), s.Entry(Loc(idx, piece, block + BLOCK)), 0);
  }

  /** `front` is what the store buffer gave to a request within its piece. */
  ghost predicate FrontFor(t: Torrent, req: Request, front: Stitched) {
    && req.ReadReq? && 0 <= req.start && 0 < req.length <= BLOCK == |front.buf|
    && front.from <= front.upto <= req.length
    && InPiece(t, req.piece, req.start, req.length)
  }

  lemma ServeLaunched(s: State, pool: Pool, idx: nat, req: Request, front: Stitched)
    requires s.Has(idx) && FrontFor(s.Vol(idx).torrent, req, front)
    requires s.now !in s.readBufs && pool.size == s.readPool.size + 1 <= BUFFER_COUNT && s.writePool.size <= BUFFER_COUNT
    ensures var s' := Serve(s, pool, idx, req, front);
      s.now in s'.jobs && Launched(s, s'.jobs[s.now], s')
  {
    if front.from == front.upto {
    } else {
    }
  }

  lemma AnsweredFits(job: Job, front: Stitched)
    requires FrontFor(job.torrent, job.req, front) && job.stage == Handled(Reply(front.buf[..job.req.length], Fine))
    ensures JobFits(job)
  {
  }

  lemma PendingFits(job: Job, front: Stitched)
    requires FrontFor(job.torrent, job.req, front) && job.stage == Reading(front.buf, front.from, front.upto, 0)
    ensures JobFits(job)
  {
  }

  lemma ServeFits(s: State, pool: Pool, idx: nat, req: Request, front: Stitched)
    requires s.Has(idx) && FrontFor(s.Vol(idx).torrent, req, front)
    ensures var s' := Serve(s, pool, idx, req, front);
      s.now in s'.jobs && JobFits(s'.jobs[s.now])
  {
    var job := Serve(s, pool, idx, req, front).jobs[s.now];
    if front.from == front.upto {
      AnsweredFits(job, front);
    } else {
      PendingFits(job, front);
    }
  }

  /** A read that gets a buffer is served from a front half that fits it. */
  lemma ServedRead(s: State, idx: nat, piece: nat, start: nat, length: nat, junk: seq<byte>) returns (front: Stitched)
    requires CanIssueRead(s, idx, piece, start, length, junk) && 0 < length && s.readPool.size < BUFFER_COUNT
    ensures front == FrontAt(s, idx, piece, start - Within(start), Within(start), length, junk)
    ensures FrontFor(s.Vol(idx).torrent, ReadReq(piece, start, length), front)
    ensures IssueRead(s, idx, piece, start, length, true, junk)
      == Serve(s, AllocateImpl(s.readPool, true).0, idx, ReadReq(piece, start, length), front)
  {
    front := FrontAt(s, idx, piece, start - Within(start), Within(start), length, junk);
    FrontBounds(s, idx, piece, start - Within(start), Within(start), length, junk);
  }

  lemma IssueReadInv(s: State, idx: nat, piece: nat, start: int, length: int, mallocOk: bool, junk: seq<byte>)
    requires Inv(s) && CanIssueRead(s, idx, piece, start, length, junk)
    ensures Inv(IssueRead(s, idx, piece, start, length, mallocOk, junk))
  {
    NameIsFresh(s);
    if length <= 0 || start < 0 || !AllocateImpl(s.readPool, mallocOk).1 {
      RefusedReadLaunched(s, idx, piece, start, length, mallocOk, junk);
    } else {
      var front := ServedRead(s, idx, piece, start, length, junk);
      var req, pool := ReadReq(piece, start, length), AllocateImpl(s.readPool, true).0;
      ServeLaunched(s, pool, idx, req, front);
      ServeFits(s, pool, idx, req, front);
    }
    var s' := IssueRead(s, idx, piece, start, length, mallocOk, junk);
    LaunchedInv(s, s'.jobs[s.now], s');
  }

  lemma ReadStepInv(s: State, j: JobId, stage: Stage)
    requires Inv(s) && IsReading(s, j) && !stage.Handled? && (stage.Reading? || stage.Posted?)
    requires JobFits(s.jobs[j].(stage := stage))
    ensures Inv(s.SetStage(j, stage).Tick())
  {
    assert JobOk(s, j, s.jobs[j]);
    StageCore(s, j, stage);
    StageShaped(s, j, stage);
  }

  lemma ReadSomeInv(s: State, j: JobId, n: nat)
    requires Inv(s) && CanReadSome(s, j, n)
    ensures Inv(ReadSome(s, j, n))
  {
    assert JobFits(s.jobs[j]);
    ReadStepInv(s, j, ReadSome(s, j, n).jobs[j].stage);
  }

  lemma FinishReadInv(s: State, j: JobId)
    requires Inv(s) && CanFinishRead(s, j)
    ensures Inv(FinishRead(s, j))
  {
    assert JobFits(s.jobs[j]) && JobOk(s, j, s.jobs[j]);
    ReadStepInv(s, j, FinishRead(s, j).jobs[j].stage);
  }

  lemma IssueHashInv(s: State, idx: nat, piece: nat, mallocOk: bool)
    requires Inv(s) && CanIssueHash(s, idx, piece)
    ensures Inv(IssueHash(s, idx, piece, mallocOk))
  {
    NameIsFresh(s);
    IssueHashLaunched(s, idx, piece, mallocOk);
    var s' := IssueHash(s, idx, piece, mallocOk);
    LaunchedInv(s, s'.jobs[s.now], s');
  }

  lemma IssueHashLaunched(s: State, idx: nat, piece: nat, mallocOk: bool)
    requires CanIssueHash(s, idx, piece) && Accounted(s) && s.now !in s.readBufs
    ensures var s' := IssueHash(s, idx, piece, mallocOk);
      s.now in s'.jobs && Launched(s, s'.jobs[s.now], s') && JobFits(s'.jobs[s.now])
  {
  }

  lemma HashStepInv(s: State, j: JobId, stage: Stage)
    requires Inv(s) && IsHashing(s, j) && !stage.Handled? && (stage.Hashing? || stage.Posted?)
    requires JobFits(s.jobs[j].(stage := stage))
    ensures Inv(s.SetStage(j, stage).Tick())
  {
    assert JobOk(s, j, s.jobs[j]);
    StageCore(s, j, stage);
    StageShaped(s, j, stage);
  }

  /** A round that feeds `more` bytes, all it asked for or those before an unparseable name. */
  lemma HashRoundFits(job: Job, more: seq<byte>, failed: bool)
    requires job.req.HashReq? && job.stage.Hashing? && HashShape(job)
    requires !job.stage.failed && job.stage.round < Rounds(job.torrent, job.req.piece)
    requires var len := Min(BLOCK, PieceSize(job.torrent, job.req.piece) - |job.stage.fed|);
      0 < |more| <= len && (failed <==> |more| < len)
    requires failed ==> Unparseable(job.torrent, PieceStart(job.torrent, job.req.piece) + (|job.stage.fed| + |more|))
    ensures JobFits(job.(stage := Hashing(job.stage.round + 1, job.stage.fed + more, None, failed)))
  {
    RoundArithmetic(PieceSize(job.torrent, job.req.piece), job.stage.round, |job.stage.fed|);
    if failed {
      OffsetShift(|job.stage.fed|, |more|);
    }
  }

  /** A hit in the hash loop is a whole block: after a short read the offset is unaligned and cannot hit. */
  lemma HitIsAligned(s: State, j: JobId)
    requires Inv(s) && CanHashLookup(s, j)
    requires var job := s.jobs[j]; s.Entry(Loc(job.idx, job.req.piece, |job.stage.fed|)).Some?
    ensures !s.jobs[j].stage.failed
  {
    var job := s.jobs[j];
    assert JobFits(job) && JobFits(s.jobs[s.store[Loc(job.idx, job.req.piece, |job.stage.fed|)]]);
  }

  lemma HashLookupFits(s: State, j: JobId)
    requires CanHashLookup(s, j) && JobFits(s.jobs[j]) && OnItsStorage(s.slots.storages, s.jobs[j])
    requires var job := s.jobs[j];
      s.Entry(Loc(job.idx, job.req.piece, |job.stage.fed|)).Some? ==> !job.stage.failed
    ensures JobFits(HashLookup(s, j).jobs[j])
  {
    var job := s.jobs[j];
    var entry := s.Entry(Loc(job.idx, job.req.piece, |job.stage.fed|));
    if entry.Some? {
      RoundArithmetic(PieceSize(job.torrent, job.req.piece), job.stage.round, |job.stage.fed|);
      HashRoundFits(job, entry.value[..RoundLen(s, j)], false);
    }
  }

  lemma HashLookupInv(s: State, j: JobId)
    requires Inv(s) && CanHashLookup(s, j)
    ensures Inv(HashLookup(s, j))
  {
    var job := s.jobs[j];
    assert JobOk(s, j, job);
    if s.Entry(Loc(job.idx, job.req.piece, |job.stage.fed|)).Some? {
      HitIsAligned(s, j);
    }
    HashLookupFits(s, j);
    HashStepInv(s, j, HashLookup(s, j).jobs[j].stage);
  }

  lemma HashSomeInv(s: State, j: JobId, n: nat)
    requires Inv(s) && CanHashSome(s, j, n)
    ensures Inv(HashSome(s, j, n))
  {
    assert JobFits(s.jobs[j]) && JobOk(s, j, s.jobs[j]);
    HashStepInv(s, j, HashSome(s, j, n).jobs[j].stage);
  }

  lemma HashUpdateFits(s: State, j: JobId)
    requires CanHashUpdate(s, j) && JobFits(s.jobs[j]) && OnItsStorage(s.slots.storages, s.jobs[j])
    ensures JobFits(HashUpdate(s, j).jobs[j])
  {
    var job := s.jobs[j];
    var got := job.stage.miss.value.got;
    if got != [] {
      HashRoundFits(job, got, |got| < RoundLen(s, j));
    } else if !job.stage.failed {
      RoundArithmetic(PieceSize(job.torrent, job.req.piece), job.stage.round, |job.stage.fed|);
    }
  }

  lemma HashUpdateInv(s: State, j: JobId)
    requires Inv(s) && CanHashUpdate(s, j)
    ensures Inv(HashUpdate(s, j))
  {
    assert JobOk(s, j, s.jobs[j]);
    HashUpdateFits(s, j);
    HashStepInv(s, j, HashUpdate(s, j).jobs[j].stage);
  }

  lemma FinishHashFits(s: State, j: JobId)
    requires CanFinishHash(s, j) && JobFits(s.jobs[j]) && OnItsStorage(s.slots.storages, s.jobs[j])
    ensures JobFits(FinishHash(s, j).jobs[j])
  {
  }

  lemma FinishHashInv(s: State, j: JobId)
    requires Inv(s) && CanFinishHash(s, j)
    ensures Inv(FinishHash(s, j))
  {
    assert JobOk(s, j, s.jobs[j]);
    FinishHashFits(s, j);
    HashStepInv(s, j, FinishHash(s, j).jobs[j].stage);
  }

  // ---------- runs ----------

  lemma InitialInv()
    ensures Inv(INITIAL)
  {
  }

  lemma CallInv(s: State, step: Step)
    requires Inv(s) && Enabled(s, step) && (step.SAttach? || step.SDetach? || step.SWrite? || step.SRead? || step.SHash?)
    ensures Inv(Next(s, step))
  {
    match step {
      case SAttach(t, disk) => AttachInv(s, t, disk);
      case SDetach(idx) => DetachInv(s, idx);
      case SWrite(loc, data, o, mallocOk, junk) => IssueWriteInv(s, loc, data, o, mallocOk, junk);
      case SRead(idx, piece, start, length, mallocOk, junk) => IssueReadInv(s, idx, piece, start, length, mallocOk, junk);
      case SHash(idx, piece, mallocOk) => IssueHashInv(s, idx, piece, mallocOk);
    }
  }

  lemma TransferInv(s: State, step: Step)
    requires Inv(s) && Enabled(s, step)
    requires step.SFlush? || step.SFailFlush? || step.SFinishWrite? || step.SReadSome? || step.SFinishRead?
    ensures Inv(Next(s, step))
  {
    match step {
      case SFlush(j, n) => FlushInv(s, j, n);
      case SFailFlush(j) => FailFlushInv(s, j);
      case SFinishWrite(j) => FinishWriteInv(s, j);
      case SReadSome(j, n) => ReadSomeInv(s, j, n);
      case SFinishRead(j) => FinishReadInv(s, j);
    }
  }

  lemma StepInv(s: State, step: Step)
    requires Inv(s) && Enabled(s, step)
    ensures Inv(Next(s, step))
  {
    if step.SAttach? || step.SDetach? || step.SWrite? || step.SRead? || step.SHash? {
      CallInv(s, step);
    } else if step.SFlush? || step.SFailFlush? || step.SFinishWrite? || step.SReadSome? || step.SFinishRead? {
      TransferInv(s, step);
    } else {
      match step {
        case SFreeWrite(j) => FreeWriteInv(s, j);
        case SHashLookup(j) => HashLookupInv(s, j);
        case SHashSome(j, n) => HashSomeInv(s, j, n);
        case SHashUpdate(j) => HashUpdateInv(s, j);
        case SFinishHash(j) => FinishHashInv(s, j);
        case SHandle(j) => HandleInv(s, j);
        case SFreeRead(j) => FreeReadInv(s, j);
      }
    }
  }

  lemma CallTicks(s: State, step: Step)
    requires Enabled(s, step) && (step.SWrite? || step.SRead? || step.SHash?)
    ensures Next(s, step).now == s.now + 1
  {
    match step {
      case SWrite(_, _, _, _, _) =>
      case SRead(_, _, _, _, _, _) =>
      case SHash(_, _, _) =>
    }
  }

  lemma StepTicks(s: State, step: Step)
    requires Enabled(s, step)
    ensures Next(s, step).now == s.now + 1
  {
    match step {
      case SAttach(_, _) =>
      case SWrite(_, _, _, _, _) => CallTicks(s, step);
      case SFlush(_, _) =>
      case SRead(_, _, _, _, _, _) => CallTicks(s, step);
      case SHash(_, _, _) => CallTicks(s, step);
      case SHashLookup(_) =>
      case _ =>
    }
  }

  lemma StepInvAt(run: seq<State>, steps: seq<Step>, u: nat)
    requires Execution(run, steps) && 0 < u < |run| && Inv(run[u - 1])
    ensures Inv(run[u])
  {
    assert StepAt(run, steps, u - 1);
    StepInv(run[u - 1], steps[u - 1]);
  }

  lemma StepTicksAt(run: seq<State>, steps: seq<Step>, u: nat)
    requires Execution(run, steps) && 0 < u < |run|
    ensures run[u].now == run[u - 1].now + 1
  {
    assert StepAt(run, steps, u - 1);
    StepTicks(run[u - 1], steps[u - 1]);
  }

  lemma {:induction false} RunInv(run: seq<State>, steps: seq<Step>, u: nat)
    requires Execution(run, steps) && u < |run|
    ensures Inv(run[u]) && run[u].now == u
  {
    if u == 0 {
      InitialInv();
    } else {
      RunInv(run, steps, u - 1);
      StepInvAt(run, steps, u);
      StepTicksAt(run, steps, u);
    }
  }
}
