/** What `async_read` delivers while writes come and drain. */
module ReadCoherence {
  import opened Basics
  import opened Extents
  import opened Torrents
  import opened BufferPools
  import opened StoreBuffers
  import opened DiskSystem
  import opened Safety
  import opened Completion
  import opened Coherence
  import opened FailedWrites

  // ---------- a job through the steps of a run ----------

  /** Byte `i` of a read's reply, once it is there. */
  function Delivered(job: Job, i: nat): Option<byte>
    requires job.req.ReadReq? && i < job.req.length
  {
    match job.stage
    case Reading(buf, from, upto, done) =>
      if i < |buf| && (i < from + done || upto <= i) then Some(buf[i]) else None
    case Posted(reply) => if reply.failure == Fine && i < |reply.bytes| then Some(reply.bytes[i]) else None
    case Handled(reply) => if reply.failure == Fine && i < |reply.bytes| then Some(reply.bytes[i]) else None
    case _ => None
  }

  /** What one step can do to a read that is already under way. */
  ghost predicate ReadMoves(s: State, job: Job, job': Job, i: nat)
    requires job.req.ReadReq? && i < job.req.length
  {
    && SameJob(job, job')
    && (job'.stage.Reading? ==> job.stage.Reading? && job'.stage.from == job.stage.from && job'.stage.upto == job.stage.upto)
    && (Delivered(job', i).Some? ==>
          || Delivered(job, i) == Delivered(job', i)
          || (job.stage.Reading? && job.stage.from <= i < job.stage.upto && OnItsStorage(s.slots.storages, job)
              && 0 <= job.req.start && ReplyPos(job.torrent, job.req, i) < Total(job.torrent)
              && Address(job.torrent.files, ReplyPos(job.torrent, job.req, i)).Some?
              && Delivered(job', i) == Some(DiskByte(s.Vol(job.idx), ReplyPos(job.torrent, job.req, i)))))
  }

  lemma ReadSomeDelivers(s: State, j: JobId, n: nat, i: nat)
    requires j in s.jobs && s.jobs[j].req.ReadReq? && i < s.jobs[j].req.length && CanReadSome(s, j, n)
    requires s.jobs[j].torrent == s.Vol(s.jobs[j].idx).torrent
    requires var at := s.jobs[j].stage.from + s.jobs[j].stage.done; at <= i < at + n
    ensures var job := s.jobs[j];
      var p := ReplyPos(job.torrent, job.req, i);
      && p < Total(job.torrent) && Address(job.torrent.files, p).Some?
      && Delivered(ReadSome(s, j, n).jobs[j], i) == Some(DiskByte(s.Vol(job.idx), p))
  {
    var job := s.jobs[j];
    var at := job.stage.from + job.stage.done;
    var pos := ReplyPos(job.torrent, job.req, at);
    PeekLogical(s.Vol(job.idx), pos, n, i - at);
    assert ReplyPos(job.torrent, job.req, i) == pos + (i - at);
  }

  lemma ReadSomeKeeps(s: State, j: JobId, n: nat, i: nat)
    requires j in s.jobs && s.jobs[j].req.ReadReq? && i < s.jobs[j].req.length && CanReadSome(s, j, n)
    requires var at := s.jobs[j].stage.from + s.jobs[j].stage.done; !(at <= i < at + n)
    ensures Delivered(ReadSome(s, j, n).jobs[j], i) == Delivered(s.jobs[j], i)
  {
  }

  lemma ReadSomeMoves(s: State, j: JobId, n: nat, i: nat)
    requires j in s.jobs && s.jobs[j].req.ReadReq? && i < s.jobs[j].req.length
    requires CanReadSome(s, j, n) && JobFits(s.jobs[j]) && OnItsStorage(s.slots.storages, s.jobs[j])
    ensures ReadMoves(s, s.jobs[j], ReadSome(s, j, n).jobs[j], i)
  {
    var at := s.jobs[j].stage.from + s.jobs[j].stage.done;
    if at <= i < at + n {
      ReadSomeDelivers(s, j, n, i);
    } else {
      ReadSomeKeeps(s, j, n, i);
    }
  }

  lemma ReadEndMoves(s: State, j: JobId, i: nat)
    requires j in s.jobs && s.jobs[j].req.ReadReq? && i < s.jobs[j].req.length && JobFits(s.jobs[j])
    ensures CanFinishRead(s, j) ==> ReadMoves(s, s.jobs[j], FinishRead(s, j).jobs[j], i)
    ensures CanHandle(s, j) ==> ReadMoves(s, s.jobs[j], Handle(s, j).jobs[j], i)
  {
  }

  lemma ReadStepMoves(s: State, step: Step, s': State, j: JobId, i: nat)
    requires Inv(s) && Enabled(s, step) && s' == Next(s, step)
    requires j in s.jobs && s.jobs[j].req.ReadReq? && i < s.jobs[j].req.length
    ensures j in s'.jobs && ReadMoves(s, s.jobs[j], s'.jobs[j], i)
  {
    assert JobOk(s, j, s.jobs[j]) && JobFits(s.jobs[j]);
    if !IsStepOf(step, j) {
      OthersKeepJob(s, step, s', j);
    } else {
      match step {
        case SReadSome(_, n) => ReadSomeMoves(s, j, n, i);
        case SFinishRead(_) => ReadEndMoves(s, j, i);
        case SHandle(_) => ReadEndMoves(s, j, i);
        case SFreeRead(_) =>
        case SFreeWrite(_) =>
      }
    }
  }

  // ---------- async_read ----------

  lemma HomeOf(t: Torrent, idx: nat, req: Request, i: nat)
    requires req.ReadReq? && 0 <= req.start && req.start + i < PieceSize(t, req.piece)
    ensures var p, o := ReplyPos(t, req, i), req.start + i;
      p < Total(t) && LocOf(t, idx, p) == Loc(idx, req.piece, o - Within(o)) && OffsetInBlock(t, p) == Within(o)
  {
    LocOfPieceByte(t, idx, req.piece, req.start + i);
    assert ReplyPos(t, req, i) == PieceStart(t, req.piece) + (req.start + i);
  }

  /** The entry of a byte's own block is the first or the second one that a read looks up. */
  lemma HomeEntry(s: State, idx: nat, piece: nat, start: nat, i: nat, loc: Loc)
    requires i < BLOCK && loc == Loc(idx, piece, start + i - Within(start + i))
    ensures var block := start - Within(start);
      ByteOf(s.Entry(loc), Within(start + i))
      == HalvesByte(s.Entry(Loc(idx, piece, block)), s.Entry(Loc(idx, piece, block + BLOCK)), Within(start) + i)
  {
    var block := start - Within(start);
    HomeLoc(idx, piece, start, i);
    HalvesHome(s.Entry(Loc(idx, piece, block)), s.Entry(Loc(idx, piece, block + BLOCK)), s.Entry(loc), start, i);
  }

  /** A read job right after its call. */
  ghost predicate ReadBorn(s: State, job: Job, i: nat)
    requires job.req.ReadReq? && i < job.req.length
  {
    && OnItsStorage(s.slots.storages, job)
    && (job.stage.Reading? || Delivered(job, i).Some? ==>
          && 0 <= job.req.start && ReplyPos(job.torrent, job.req, i) < Total(job.torrent))
    && (job.stage.Reading? && job.stage.from <= i < job.stage.upto ==>
          s.Entry(LocOf(job.torrent, job.idx, ReplyPos(job.torrent, job.req, i))).None?)
    && (Delivered(job, i).Some? ==>
          var p := ReplyPos(job.torrent, job.req, i);
          var e := s.Entry(LocOf(job.torrent, job.idx, p));
          e.Some? && Delivered(job, i) == Some(e.value[OffsetInBlock(job.torrent, p)]))
  }

  lemma ServeBorn(s: State, pool: Pool, idx: nat, req: Request, front: Stitched, i: nat, loc: Loc, at: nat)
    requires s.Has(idx) && FrontFor(s.Vol(idx).torrent, req, front) && i < req.length && at < BLOCK
    requires var t := s.Vol(idx).torrent;
      ReplyPos(t, req, i) < Total(t) && loc == LocOf(t, idx, ReplyPos(t, req, i)) && at == OffsetInBlock(t, ReplyPos(t, req, i))
    requires SoFar(front, i) == ByteOf(s.Entry(loc), at)
    ensures var s' := Serve(s, pool, idx, req, front);
      s.now in s'.jobs && s'.jobs[s.now].req == req && ReadBorn(s, s'.jobs[s.now], i)
  {
  }

  /** What the front half has for byte `i` is what the two blocks' entries have. */
  ghost predicate Halved(s: State, idx: nat, piece: nat, block: nat, readOffset: nat, front: Stitched, i: nat)
    requires i < |front.buf| && readOffset + i < 2 * BLOCK
  {
    SoFar(front, i) == HalvesByte(s.Entry(Loc(idx, piece, block)), s.Entry(Loc(idx, piece, block + BLOCK)), readOffset + i)
  }

  lemma FrontHalf(s: State, idx: nat, piece: nat, block: nat, readOffset: nat, length: nat, junk: seq<byte>, i: nat)
    requires readOffset < BLOCK && i < length <= BLOCK == |junk|
    ensures var front := FrontAt(s, idx, piece, block, readOffset, length, junk);
      i < |front.buf| && Halved(s, idx, piece, block, readOffset, front, i)
  {
    StitchByte(junk, readOffset, length, s.Entry(Loc(idx, piece, block)), s.Entry(Loc(idx, piece, block + BLOCK)), i);
  }

  /** At the call, a byte is pending exactly when its block has no entry, and is the entry's byte otherwise. */
  lemma FrontServes(s: State, idx: nat, piece: nat, start: nat, i: nat, home: Loc, front: Stitched)
    requires i < BLOCK == |front.buf| && home == Loc(idx, piece, start + i - Within(start + i))
    requires Halved(s, idx, piece, start - Within(start), Within(start), front, i)
    ensures SoFar(front, i) == ByteOf(s.Entry(home), Within(start + i))
  {
    HomeEntry(s, idx, piece, start, i, home);
  }

  /** A read that gets a buffer, from what the front half gave it. */
  lemma FrontBorn(s: State, pool: Pool, idx: nat, req: Request, front: Stitched, i: nat)
    requires s.Has(idx) && FrontFor(s.Vol(idx).torrent, req, front) && i < req.length
    requires Halved(s, idx, req.piece, req.start - Within(req.start), Within(req.start), front, i)
    ensures var s' := Serve(s, pool, idx, req, front);
      s.now in s'.jobs && s'.jobs[s.now].req == req && ReadBorn(s, s'.jobs[s.now], i)
  {
    var home := Loc(idx, req.piece, req.start + i - Within(req.start + i));
    FrontServes(s, idx, req.piece, req.start, i, home, front);
    HomeOf(s.Vol(idx).torrent, idx, req, i);
    ServeBorn(s, pool, idx, req, front, i, home, Within(req.start + i));
  }

  lemma ServedHalf(s: State, idx: nat, piece: nat, start: nat, length: nat, junk: seq<byte>, i: nat) returns (front: Stitched)
    requires CanIssueRead(s, idx, piece, start, length, junk) && i < length && s.readPool.size < BUFFER_COUNT
    ensures FrontFor(s.Vol(idx).torrent, ReadReq(piece, start, length), front)
    ensures Halved(s, idx, piece, start - Within(start), Within(start), front, i)
    ensures IssueRead(s, idx, piece, start, length, true, junk)
      == Serve(s, AllocateImpl(s.readPool, true).0, idx, ReadReq(piece, start, length), front)
  {
    front := ServedRead(s, idx, piece, start, length, junk);
    FrontHalf(s, idx, piece, start - Within(start), Within(start), length, junk, i);
  }

  lemma ServedReadBorn(s: State, idx: nat, piece: nat, start: nat, length: nat, junk: seq<byte>, i: nat)
    requires CanIssueRead(s, idx, piece, start, length, junk) && i < length && s.readPool.size < BUFFER_COUNT
    ensures var s' := IssueRead(s, idx, piece, start, length, true, junk);
      && s.now in s'.jobs && s'.jobs[s.now].req == ReadReq(piece, start, length) && ReadBorn(s, s'.jobs[s.now], i)
  {
    var front := ServedHalf(s, idx, piece, start, length, junk, i);
    FrontBorn(s, AllocateImpl(s.readPool, true).0, idx, ReadReq(piece, start, length), front, i);
  }

  lemma RefusedReadBorn(s: State, idx: nat, piece: nat, start: int, length: int, mallocOk: bool, junk: seq<byte>, i: nat)
    requires CanIssueRead(s, idx, piece, start, length, junk) && i < length
    requires start < 0 || !AllocateImpl(s.readPool, mallocOk).1
    ensures var s' := IssueRead(s, idx, piece, start, length, mallocOk, junk);
      && s.now in s'.jobs && s'.jobs[s.now].req == ReadReq(piece, start, length) && ReadBorn(s, s'.jobs[s.now], i)
  {
  }

  lemma ReadCallBorn(s: State, idx: nat, piece: nat, start: int, length: int, mallocOk: bool, junk: seq<byte>, i: nat)
    requires CanIssueRead(s, idx, piece, start, length, junk) && i < length
    ensures var s' := IssueRead(s, idx, piece, start, length, mallocOk, junk);
      && s.now in s'.jobs && s'.jobs[s.now].req == ReadReq(piece, start, length) && ReadBorn(s, s'.jobs[s.now], i)
  {
    if 0 <= start && AllocateImpl(s.readPool, mallocOk).1 {
      ServedReadBorn(s, idx, piece, start, length, junk, i);
    } else {
      RefusedReadBorn(s, idx, piece, start, length, mallocOk, junk, i);
    }
  }

  lemma ReadBirth(run: seq<State>, steps: seq<Step>, j: JobId, i: nat)
    requires Execution(run, steps) && j + 1 < |run| && j in run[j + 1].jobs
    requires run[j + 1].jobs[j].req.ReadReq? && i < run[j + 1].jobs[j].req.length
    ensures ReadBorn(run[j], run[j + 1].jobs[j], i)
  {
    RunJobBirth(run, steps, j);
    var step := steps[j];
    ReadCallBorn(run[j], step.idx, step.piece, step.start, step.length, step.mallocOk, step.junk, i);
  }

  lemma RunReadMoves(run: seq<State>, steps: seq<Step>, u: nat, j: JobId, i: nat)
    requires Execution(run, steps) && j + 1 < u < |run| && j in run[u].jobs
    requires run[u].jobs[j].req.ReadReq? && i < run[u].jobs[j].req.length
    ensures j in run[u - 1].jobs && SameJob(run[u - 1].jobs[j], run[u].jobs[j])
    ensures ReadMoves(run[u - 1], run[u - 1].jobs[j], run[u].jobs[j], i)
  {
    RunJobStays(run, steps, u, j);
    RunInv(run, steps, u - 1);
    assert StepAt(run, steps, u - 1);
    ReadStepMoves(run[u - 1], steps[u - 1], run[u], j, i);
  }

  /** The part of a reply that still comes from disk had no entry at the call. */
  lemma {:induction false} PendingPartMissed(run: seq<State>, steps: seq<Step>, u: nat, j: JobId, i: nat)
    requires Execution(run, steps) && j < u < |run| && j in run[u].jobs
    requires var job := run[u].jobs[j];
      job.req.ReadReq? && i < job.req.length && job.stage.Reading? && job.stage.from <= i < job.stage.upto
    ensures 0 <= run[u].jobs[j].req.start
    ensures var job := run[u].jobs[j];
      LocOf(job.torrent, job.idx, ReplyPos(job.torrent, job.req, i)) !in run[j].store
    decreases u
  {
    if u == j + 1 {
      ReadBirth(run, steps, j, i);
      RunInv(run, steps, j);
      EntryIffIndexed(run[j], LocOf(run[u].jobs[j].torrent, run[u].jobs[j].idx, ReplyPos(run[u].jobs[j].torrent, run[u].jobs[j].req, i)));
    } else {
      RunReadMoves(run, steps, u, j, i);
      PendingPartMissed(run, steps, u - 1, j, i);
    }
  }

  /** What read coherence asks about byte `i` of a read: it was in order at a moment `a` no later than the call. */
  ghost predicate ReadWatched(run: seq<State>, a: nat, u: nat, j: JobId, job: Job, i: nat)
    requires job.req.ReadReq? && i < job.req.length
  {
    0 <= job.req.start && a <= j && Tracked(run, a, u, job.idx, job.torrent, job.born, ReplyPos(job.torrent, job.req, i))
  }

  ghost predicate ReadInOrder(run: seq<State>, u: nat, j: JobId, job: Job, i: nat)
    requires job.req.ReadReq? && i < job.req.length
  {
    exists a :: ReadWatched(run, a, u, j, job, i)
  }

  lemma BornCoherent(run: seq<State>, steps: seq<Step>, a: nat, j: JobId, i: nat)
    requires Execution(run, steps) && j + 1 < |run| && j in run[j + 1].jobs
    requires run[j + 1].jobs[j].req.ReadReq? && i < run[j + 1].jobs[j].req.length
    requires Delivered(run[j + 1].jobs[j], i).Some? && ReadWatched(run, a, j + 1, j, run[j + 1].jobs[j], i)
    ensures var job := run[j + 1].jobs[j];
      var p := ReplyPos(job.torrent, job.req, i);
      LocOf(job.torrent, job.idx, p) in run[j].store
      && InWindow(run, j, j, job.idx, job.born, p, Delivered(job, i).value)
  {
    var job := run[j + 1].jobs[j];
    var p := ReplyPos(job.torrent, job.req, i);
    ReadBirth(run, steps, j, i);
    CacheDiskAgreement(run, steps, a, j, job.idx, p);
    assert Shows(run[j], job.idx, job.born, p, Delivered(job, i).value);
  }

  /** A byte that comes from disk in the step from moment `u`. */
  lemma MissCoherent(run: seq<State>, steps: seq<Step>, a: nat, u: nat, j: JobId, i: nat)
    requires Execution(run, steps) && j < u < |run| && j in run[u].jobs
    requires var job := run[u].jobs[j];
      job.req.ReadReq? && i < job.req.length && job.stage.Reading? && job.stage.from <= i < job.stage.upto
    requires ReadWatched(run, a, u, j, run[u].jobs[j], i)
    ensures run[u].Has(run[u].jobs[j].idx) && OnItsStorage(run[u].slots.storages, run[u].jobs[j])
    ensures var job := run[u].jobs[j];
      var p := ReplyPos(job.torrent, job.req, i);
      && LocOf(job.torrent, job.idx, p) !in run[j].store
      && if Solid(job.torrent, p) then InWindow(run, j, u, job.idx, job.born, p, DiskByte(run[u].Vol(job.idx), p))
         else Original(run, job.idx, job.born, p) == Some(DiskByte(run[u].Vol(job.idx), p))
  {
    var job := run[u].jobs[j];
    var p := ReplyPos(job.torrent, job.req, i);
    PendingPartMissed(run, steps, u, j, i);
    assert JobOk(run[u], j, job) by {
      RunInv(run, steps, u);
    }
    if Solid(job.torrent, p) {
      DiskAfterMiss(run, steps, a, j, u, job.idx, p);
    } else {
      var q: nat :| p - OffsetInBlock(job.torrent, p) <= q <= p && Address(job.torrent.files, q).None?;
      ShadowedByteFrozen(run, steps, u, job.idx, p, q);
    }
  }

  /** Where a delivered byte comes from: a value of the image since the call, or the partition's original byte. */
  ghost predicate Explained(run: seq<State>, u: nat, j: JobId, job: Job, p: nat, b: byte)
    requires j < |run| && p < Total(job.torrent)
  {
    if Solid(job.torrent, p) || LocOf(job.torrent, job.idx, p) in run[j].store
    then InWindow(run, j, u, job.idx, job.born, p, b)
    else Original(run, job.idx, job.born, p) == Some(b)
  }

  lemma ExplainedLater(run: seq<State>, u: nat, j: JobId, job: Job, p: nat, b: byte)
    requires j < |run| && p < Total(job.torrent) && 0 < u && Explained(run, u - 1, j, job, p, b)
    ensures Explained(run, u, j, job, p, b)
  {
    if Solid(job.torrent, p) || LocOf(job.torrent, job.idx, p) in run[j].store {
      WindowGrows(run, j, j, u - 1, u, job.idx, job.born, p, b);
    }
  }

  /**
    Read coherence, for any mix of names: if writes reach a byte, or its block had an entry at
    the call, then what a read delivers is a value that the last-write-wins image had at some
    moment between the call and now, whatever else runs in between. Otherwise it is what
    the partition held there when the storage was added.
   */
  lemma {:induction false} ReadByteCoherent(run: seq<State>, steps: seq<Step>, a: nat, u: nat, j: JobId, i: nat)
    requires Execution(run, steps) && j < u < |run| && j in run[u].jobs
    requires run[u].jobs[j].req.ReadReq? && i < run[u].jobs[j].req.length
    requires Delivered(run[u].jobs[j], i).Some? && ReadWatched(run, a, u, j, run[u].jobs[j], i)
    ensures var job := run[u].jobs[j];
      Explained(run, u, j, job, ReplyPos(job.torrent, job.req, i), Delivered(job, i).value)
    decreases u
  {
    var job := run[u].jobs[j];
    var p, b := ReplyPos(job.torrent, job.req, i), Delivered(job, i).value;
    if u == j + 1 {
      BornCoherent(run, steps, a, j, i);
    } else {
      RunReadMoves(run, steps, u, j, i);
      if Delivered(run[u - 1].jobs[j], i) == Some(b) {
        ReadByteCoherent(run, steps, a, u - 1, j, i);
      } else {
        MissCoherent(run, steps, a, u - 1, j, i);
      }
    }
    ExplainedLater(run, u, j, job, p, b);
  }

  /** A byte that was not in the store buffer at the call is delivered only if its name parses. */
  lemma {:induction false} DeliveredParses(run: seq<State>, steps: seq<Step>, u: nat, j: JobId, i: nat)
    requires Execution(run, steps) && j < u < |run| && j in run[u].jobs
    requires run[u].jobs[j].req.ReadReq? && i < run[u].jobs[j].req.length && Delivered(run[u].jobs[j], i).Some?
    requires var job := run[u].jobs[j];
      && 0 <= job.req.start && ReplyPos(job.torrent, job.req, i) < Total(job.torrent)
      && LocOf(job.torrent, job.idx, ReplyPos(job.torrent, job.req, i)) !in run[j].store
    ensures var job := run[u].jobs[j]; Address(job.torrent.files, ReplyPos(job.torrent, job.req, i)).Some?
    decreases u
  {
    var job := run[u].jobs[j];
    if u == j + 1 {
      ReadBirth(run, steps, j, i);
    } else {
      RunReadMoves(run, steps, u, j, i);
      if Delivered(run[u - 1].jobs[j], i) == Delivered(job, i) {
        DeliveredParses(run, steps, u - 1, j, i);
      }
    }
  }

  // ---------- the answer to a read ----------

  /** Byte `p` is in no entry at the call and has a name that does not parse. */
  predicate Obstacle(s: State, t: Torrent, idx: nat, p: nat) {
    LocOf(t, idx, p) !in s.store && Unparseable(t, p)
  }

  ghost predicate Obstructed(s: State, t: Torrent, idx: nat, req: Request)
    requires req.ReadReq? && 0 <= req.start
  {
    exists i: nat :: i < req.length && Obstacle(s, t, idx, ReplyPos(t, req, i))
  }

  /** The answer that a read must get, from the state at the call alone. */
  ghost function ReadAnswer(s: State, idx: nat, req: Request, mallocOk: bool): Failure
    requires s.Has(idx) && req.ReadReq?
  {
    if req.length <= 0 || req.start < 0 then InvalidRequest
    else if s.readPool.size >= 1024 || !mallocOk then NoMemory
    else if Obstructed(s, s.Vol(idx).torrent, idx, req) then ParseError
    else Fine
  }

  /** The call of a read job: its number, its storage and its request. */
  ghost predicate ReadCalled(run: seq<State>, steps: seq<Step>, j: JobId, job: Job) {
    && j < |steps| && j < |run| && steps[j].SRead? && job.req == ReadReq(steps[j].piece, steps[j].start, steps[j].length)
    && job.idx == steps[j].idx && OnItsStorage(run[j].slots.storages, job)
  }

  lemma {:induction false} ReadRequest(run: seq<State>, steps: seq<Step>, u: nat, j: JobId)
    requires Execution(run, steps) && j < u < |run| && j in run[u].jobs && run[u].jobs[j].req.ReadReq?
    ensures ReadCalled(run, steps, j, run[u].jobs[j])
    decreases u
  {
    if u == j + 1 {
      RunJobBirth(run, steps, j);
      ReadCallHere(run[j], steps[j].idx, steps[j].piece, steps[j].start, steps[j].length, steps[j].mallocOk, steps[j].junk);
    } else {
      RunJobStays(run, steps, u, j);
      ReadRequest(run, steps, u - 1, j);
    }
  }

  /** A read is on its storage; it is pending only if it was valid and got a buffer, and else has its answer at once. */
  lemma ReadCallHere(s: State, idx: nat, piece: nat, start: int, length: int, mallocOk: bool, junk: seq<byte>)
    requires CanIssueRead(s, idx, piece, start, length, junk)
    ensures var s', refused := IssueRead(s, idx, piece, start, length, mallocOk, junk), s.readPool.size >= 1024 || !mallocOk;
      && s.now in s'.jobs && OnItsStorage(s.slots.storages, s'.jobs[s.now])
      && var stage := s'.jobs[s.now].stage;
      && (length <= 0 || start < 0 ==> stage == Handled(Reply([], InvalidRequest)))
      && (0 < length && 0 <= start && refused ==> stage == Handled(Reply([], NoMemory)))
      && (0 < length && 0 <= start && !refused ==>
            stage.Reading? || (stage.Handled? && stage.reply.failure == Fine && |stage.reply.bytes| == length))
  {
    if 0 < length && 0 <= start {
      FrontBounds(s, idx, piece, start - Within(start), Within(start), length, junk);
    }
  }

  /** All that was delivered, at the call or later, was no obstacle. */
  lemma DeliveredIsNoObstacle(run: seq<State>, steps: seq<Step>, u: nat, j: JobId)
    requires Execution(run, steps) && j < u < |run| && j in run[u].jobs && run[u].jobs[j].req.ReadReq? && 0 <= run[u].jobs[j].req.start
    requires forall i: nat :: i < run[u].jobs[j].req.length ==> Delivered(run[u].jobs[j], i).Some?
    ensures var job := run[u].jobs[j]; !Obstructed(run[j], job.torrent, job.idx, job.req)
  {
    var job := run[u].jobs[j];
    forall i: nat | i < job.req.length ensures !Obstacle(run[j], job.torrent, job.idx, ReplyPos(job.torrent, job.req, i)) {
      assert Delivered(job, i).Some?;
      if Obstacle(run[j], job.torrent, job.idx, ReplyPos(job.torrent, job.req, i)) {
        DeliveredParses(run, steps, u, j, i);
      }
    }
  }

  /** A pending read was valid and got a buffer. */
  lemma {:induction false} PendingWasServed(run: seq<State>, steps: seq<Step>, u: nat, j: JobId)
    requires Execution(run, steps) && j < u < |run| && j in run[u].jobs && run[u].jobs[j].req.ReadReq? && run[u].jobs[j].stage.Reading?
    ensures ReadCalled(run, steps, j, run[u].jobs[j])
    ensures run[u].jobs[j].req.length > 0 && run[u].jobs[j].req.start >= 0 && run[j].readPool.size < 1024 && steps[j].mallocOk
    decreases u
  {
    ReadRequest(run, steps, u, j);
    if u == j + 1 {
      RunJobBirth(run, steps, j);
      ReadCallHere(run[j], steps[j].idx, steps[j].piece, steps[j].start, steps[j].length, steps[j].mallocOk, steps[j].junk);
    } else {
      RunJobStays(run, steps, u, j);
      assert run[u - 1].jobs[j].stage.Reading? by {
        RunReadStages(run, steps, u, j);
      }
      PendingWasServed(run, steps, u - 1, j);
    }
  }

  lemma ReadStages(s: State, step: Step, s': State, j: JobId)
    requires Enabled(s, step) && s' == Next(s, step) && IsStepOf(step, j) && j in s.jobs && j in s'.jobs && s.jobs[j].req.ReadReq?
    requires JobFits(s.jobs[j])
    ensures s'.jobs[j].stage.Reading? ==> s.jobs[j].stage.Reading?
    ensures s.jobs[j].stage.Reading? && !s'.jobs[j].stage.Reading? ==>
      CanFinishRead(s, j) && s'.jobs[j].stage == FinishRead(s, j).jobs[j].stage
  {
  }

  lemma RunReadStages(run: seq<State>, steps: seq<Step>, u: nat, j: JobId)
    requires Execution(run, steps) && j + 1 < u < |run| && j in run[u - 1].jobs && j in run[u].jobs && run[u - 1].jobs[j].req.ReadReq?
    ensures run[u].jobs[j].stage.Reading? ==> run[u - 1].jobs[j].stage.Reading?
    ensures run[u - 1].jobs[j].stage.Reading? && !run[u].jobs[j].stage.Reading? ==>
      CanFinishRead(run[u - 1], j) && run[u].jobs[j].stage == FinishRead(run[u - 1], j).jobs[j].stage
  {
    RunInv(run, steps, u - 1);
    assert StepAt(run, steps, u - 1);
    if IsStepOf(steps[u - 1], j) {
      assert JobFits(run[u - 1].jobs[j]);
      ReadStages(run[u - 1], steps[u - 1], run[u], j);
    } else {
      OthersKeepJob(run[u - 1], steps[u - 1], run[u], j);
    }
  }

  /** What the end of the disk read says about the request: everything was there, or the next byte is an obstacle. */
  lemma ReadEndAnswers(run: seq<State>, steps: seq<Step>, u: nat, j: JobId)
    requires Execution(run, steps) && j < u < |run| && j in run[u].jobs && CanFinishRead(run[u], j)
    ensures var job := run[u].jobs[j];
      Obstructed(run[j], job.torrent, job.idx, job.req) <==> job.stage.from + job.stage.done < job.stage.upto
  {
    var job := run[u].jobs[j];
    var at := job.stage.from + job.stage.done;
    assert JobOk(run[u], j, job) by {
      RunInv(run, steps, u);
    }
    if at < job.stage.upto {
      PendingPartMissed(run, steps, u, j, at);
      assert Obstacle(run[j], job.torrent, job.idx, ReplyPos(job.torrent, job.req, at));
    } else {
      DeliveredIsNoObstacle(run, steps, u, j);
    }
  }

  lemma ReadEndsRight(run: seq<State>, steps: seq<Step>, u: nat, j: JobId)
    requires Execution(run, steps) && j + 1 < u < |run| && j in run[u - 1].jobs && j in run[u].jobs
    requires run[u - 1].jobs[j].req.ReadReq? && run[u - 1].jobs[j].stage.Reading? && Answered(run[u].jobs[j])
    ensures ReadCalled(run, steps, j, run[u - 1].jobs[j])
    ensures run[u].jobs[j].stage.reply.failure == ReadAnswer(run[j], run[u - 1].jobs[j].idx, run[u - 1].jobs[j].req, steps[j].mallocOk)
    ensures |run[u].jobs[j].stage.reply.bytes| == run[u - 1].jobs[j].req.length
    ensures run[u].jobs[j].stage.reply.failure == Fine || run[u].jobs[j].stage.reply.failure == ParseError
  {
    PendingWasServed(run, steps, u - 1, j);
    RunReadStages(run, steps, u, j);
    ReadEndAnswers(run, steps, u - 1, j);
  }

  lemma ReadBornRight(run: seq<State>, steps: seq<Step>, j: JobId)
    requires Execution(run, steps) && j + 1 < |run| && j in run[j + 1].jobs && run[j + 1].jobs[j].req.ReadReq? && Answered(run[j + 1].jobs[j])
    ensures ReadCalled(run, steps, j, run[j + 1].jobs[j])
    ensures var job := run[j + 1].jobs[j]; job.stage.reply.failure == ReadAnswer(run[j], job.idx, job.req, steps[j].mallocOk)
    ensures var job := run[j + 1].jobs[j];
      job.stage.reply.failure != ParseError
      && |job.stage.reply.bytes| == if job.stage.reply.failure == Fine then job.req.length else 0
  {
    var job := run[j + 1].jobs[j];
    ReadRequest(run, steps, j + 1, j);
    RunJobBirth(run, steps, j);
    ReadCallHere(run[j], steps[j].idx, steps[j].piece, steps[j].start, steps[j].length, steps[j].mallocOk, steps[j].junk);
    if job.stage.reply.failure == Fine {
      DeliveredIsNoObstacle(run, steps, j + 1, j);
    }
  }

  lemma ReadOrAnswered(run: seq<State>, steps: seq<Step>, u: nat, j: JobId)
    requires Execution(run, steps) && u < |run| && j in run[u].jobs && run[u].jobs[j].req.ReadReq?
    ensures run[u].jobs[j].stage.Reading? || Answered(run[u].jobs[j])
  {
    RunInv(run, steps, u);
    assert JobFits(run[u].jobs[j]);
  }

  /**
    The answer to a read, from its call alone and whatever runs in between. `InvalidRequest` if and
    only if the length is not positive or the start negative; `NoMemory` if and only if it is valid
    and 1024 read buffers are out or malloc fails; the parse error if and only if it got a
    buffer and some byte of it was in no entry at the call and has a name that does not parse;
    and no error otherwise. A reply with a buffer has the length that was requested.
   */
  lemma {:induction false} ReadIsAnswered(run: seq<State>, steps: seq<Step>, u: nat, j: JobId)
    requires Execution(run, steps) && j < u < |run| && j in run[u].jobs && run[u].jobs[j].req.ReadReq? && Answered(run[u].jobs[j])
    ensures ReadCalled(run, steps, j, run[u].jobs[j])
    ensures var job := run[u].jobs[j]; job.stage.reply.failure == ReadAnswer(run[j], job.idx, job.req, steps[j].mallocOk)
    ensures var job := run[u].jobs[j];
      |job.stage.reply.bytes|
      == if job.stage.reply.failure == Fine || job.stage.reply.failure == ParseError then job.req.length else 0
    decreases u
  {
    if u == j + 1 {
      ReadBornRight(run, steps, j);
    } else {
      RunJobStays(run, steps, u, j);
      ReadOrAnswered(run, steps, u - 1, j);
      if Answered(run[u - 1].jobs[j]) {
        ReadIsAnswered(run, steps, u - 1, j);
        RunReplyStays(run, steps, u, j);
      } else {
        ReadEndsRight(run, steps, u, j);
      }
    }
  }

  /** The names of the part of the first block that precedes the request parse; nothing to ask of an aligned request. */
  ghost predicate LeadParses(t: Torrent, req: Request)
    requires req.ReadReq? && 0 <= req.start && 0 <= req.length && InPiece(t, req.piece, req.start, req.length)
  {
    forall q: nat :: PieceStart(t, req.piece) + req.start - Within(req.start) <= q < PieceStart(t, req.piece) + req.start ==>
      q < Total(t) && Address(t.files, q).Some?
  }

  /** A finished read of a block that missed: all of the block up to byte `i` has parsed. */
  lemma MissedIsSolid(run: seq<State>, steps: seq<Step>, u: nat, j: JobId, i: nat)
    requires Execution(run, steps) && j < u < |run| && j in run[u].jobs && run[u].jobs[j].req.ReadReq?
    requires var job := run[u].jobs[j];
      && (job.stage.Posted? || job.stage.Handled?) && job.stage.reply.failure == Fine && JobFits(job)
      && i < job.req.length && LeadParses(job.torrent, job.req)
      && ReplyPos(job.torrent, job.req, i) < Total(job.torrent)
      && LocOf(job.torrent, job.idx, ReplyPos(job.torrent, job.req, i)) !in run[j].store
    ensures var job := run[u].jobs[j]; Solid(job.torrent, ReplyPos(job.torrent, job.req, i))
  {
    var job := run[u].jobs[j];
    var t, first, p := job.torrent, ReplyPos(job.torrent, job.req, 0), ReplyPos(job.torrent, job.req, i);
    forall q: nat | p - OffsetInBlock(t, p) <= q <= p ensures Address(t.files, q).Some? {
      SameBlock(t, job.idx, q, p);
      if first <= q {
        DeliveredParses(run, steps, u, j, q - first);
      } else {
        HomeOf(t, job.idx, job.req, 0);
        SameBlock(t, job.idx, first, p);
      }
    }
  }

  /**
    Read coherence for the whole reply of a read that must succeed by its call. Names may fail to parse anywhere
    but in front of the request in its own first block, and there only matter to unaligned requests.
    Nothing is asked of blocks that the request does not touch.
   */
  lemma ReadCoherent(run: seq<State>, steps: seq<Step>, u: nat, j: JobId)
    requires Execution(run, steps) && j < u < |run| && j in run[u].jobs && run[u].jobs[j].req.ReadReq?
    requires Answered(run[u].jobs[j]) && ReadCalled(run, steps, j, run[u].jobs[j])
    requires ReadAnswer(run[j], run[u].jobs[j].idx, run[u].jobs[j].req, steps[j].mallocOk) == Fine
    requires var job := run[u].jobs[j];
      forall i :: 0 <= i < job.req.length ==> ReadInOrder(run, u, j, job, i)
    ensures var job := run[u].jobs[j];
      && job.stage.reply.failure == Fine && 0 <= job.req.start && |job.stage.reply.bytes| == job.req.length
      && InPiece(job.torrent, job.req.piece, job.req.start, job.req.length)
      && (LeadParses(job.torrent, job.req) ==>
            forall i :: 0 <= i < job.req.length ==>
              InWindow(run, j, u, job.idx, job.born, ReplyPos(job.torrent, job.req, i), job.stage.reply.bytes[i]))
  {
    var job := run[u].jobs[j];
    ReadIsAnswered(run, steps, u, j);
    assert JobFits(job) by {
      RunInv(run, steps, u);
    }
    if LeadParses(job.torrent, job.req) {
      forall i | 0 <= i < job.req.length
        ensures InWindow(run, j, u, job.idx, job.born, ReplyPos(job.torrent, job.req, i), job.stage.reply.bytes[i])
      {
        assert ReadInOrder(run, u, j, job, i);
        var a :| ReadWatched(run, a, u, j, job, i);
        ReadByteCoherent(run, steps, a, u, j, i);
        if LocOf(job.torrent, job.idx, ReplyPos(job.torrent, job.req, i)) !in run[j].store {
          MissedIsSolid(run, steps, u, j, i);
        }
      }
    }
  }
}
