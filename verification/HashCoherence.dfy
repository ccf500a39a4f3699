/** What `async_hash` feeds to the hasher while pending writes drain. */
module HashCoherence {
  import opened Basics
  import opened Extents
  import opened Torrents
  import opened DiskSystem
  import opened Safety
  import opened Completion
  import opened Coherence
  import opened ImageHistory

  /** Byte `i` of the piece as the hash job has it, once it has it. */
  function Fed(job: Job, i: nat): Option<byte>
    requires job.req.HashReq?
  {
    match job.stage
    case Hashing(_, fed, miss, _) =>
      if i < |fed| then Some(fed[i])
      else if miss.Some? && i - |fed| < |miss.value.got| then Some(miss.value.got[i - |fed|])
      else None
    case Posted(reply) => if i < |reply.bytes| then Some(reply.bytes[i]) else None
    case Handled(reply) => if i < |reply.bytes| then Some(reply.bytes[i]) else None
    case _ => None
  }

  function PiecePos(t: Torrent, piece: nat, i: nat): nat {
    PieceStart(t, piece) + i
  }

  /** The byte comes from the store-buffer entry found at the loop's offset. */
  ghost predicate FromEntry(s: State, job: Job, i: nat, b: byte)
    requires job.req.HashReq?
  {
    && job.stage.Hashing? && job.stage.miss.None? && !job.stage.failed
    && job.stage.round < Rounds(job.torrent, job.req.piece)
    && |job.stage.fed| <= i < PieceSize(job.torrent, job.req.piece) && i - |job.stage.fed| < BLOCK
    && var e := s.Entry(Loc(job.idx, job.req.piece, |job.stage.fed|)); e.Some? && e.value[i - |job.stage.fed|] == b
  }

  /** The byte comes from the disk, in a round that missed, and the names up to it parse. */
  ghost predicate FromDisk(s: State, job: Job, i: nat, b: byte)
    requires job.req.HashReq?
  {
    && job.stage.Hashing? && job.stage.miss.Some? && !job.stage.failed
    && job.stage.round < Rounds(job.torrent, job.req.piece)
    && |job.stage.fed| <= i < PieceSize(job.torrent, job.req.piece) && i - |job.stage.fed| < BLOCK
    && s.Has(job.idx) && s.Vol(job.idx).torrent == job.torrent && PiecePos(job.torrent, job.req.piece, i) < Total(job.torrent)
    && b == DiskByte(s.Vol(job.idx), PiecePos(job.torrent, job.req.piece, i))
    && forall k :: |job.stage.fed| + |job.stage.miss.value.got| <= k <= i ==> Readable(job, k)
  }

  /** Byte `k` of the piece has a parseable name. */
  predicate Readable(job: Job, k: nat)
    requires job.req.HashReq?
  {
    var p := PiecePos(job.torrent, job.req.piece, k);
    p < Total(job.torrent) && Address(job.torrent.files, p).Some?
  }

  /** What one step can do to a hash job that is already under way. */
  ghost predicate HashMoves(s: State, job: Job, job': Job, i: nat)
    requires job.req.HashReq? && job'.req.HashReq?
  {
    && (Fed(job', i).Some? ==>
          || Fed(job, i) == Fed(job', i)
          || (OnItsStorage(s.slots.storages, job)
              && (FromEntry(s, job, i, Fed(job', i).value) || FromDisk(s, job, i, Fed(job', i).value))))
    && (job'.stage.Hashing? && job'.stage.miss.Some? ==>
          || (job.stage.Hashing? && job.stage.miss.Some? && job.stage.miss.value.since == job'.stage.miss.value.since
              && job.stage.fed == job'.stage.fed)
          || (job'.stage.miss.value.since == s.now && OnItsStorage(s.slots.storages, job) && job'.stage.miss.value.got == []
              && s.Entry(Loc(job.idx, job.req.piece, |job'.stage.fed|)).None?))
  }

  lemma LookupMoves(s: State, j: JobId, i: nat)
    requires CanHashLookup(s, j) && JobFits(s.jobs[j]) && OnItsStorage(s.slots.storages, s.jobs[j])
    requires var job := s.jobs[j]; s.Entry(Loc(job.idx, job.req.piece, |job.stage.fed|)).Some? ==> !job.stage.failed
    ensures HashMoves(s, s.jobs[j], HashLookup(s, j).jobs[j], i)
  {
  }

  /** The bytes of one transfer have parseable names. */
  lemma TransferReadable(s: State, j: JobId, n: nat, at: nat, k: nat)
    requires CanHashSome(s, j, n) && s.jobs[j].torrent == s.Vol(s.jobs[j].idx).torrent
    requires at == |s.jobs[j].stage.fed| + |s.jobs[j].stage.miss.value.got| && at <= k < at + n
    ensures Readable(s.jobs[j], k)
    ensures Peek(s.Vol(s.jobs[j].idx).disk, Address(s.jobs[j].torrent.files, HashPos(s, j)).value, n)[k - at]
      == DiskByte(s.Vol(s.jobs[j].idx), PiecePos(s.jobs[j].torrent, s.jobs[j].req.piece, k))
  {
    PeekLogical(s.Vol(s.jobs[j].idx), HashPos(s, j), n, k - at);
    assert PiecePos(s.jobs[j].torrent, s.jobs[j].req.piece, k) == HashPos(s, j) + (k - at);
  }

  lemma HashSomeMoves(s: State, j: JobId, n: nat, i: nat)
    requires CanHashSome(s, j, n) && JobFits(s.jobs[j]) && OnItsStorage(s.slots.storages, s.jobs[j])
    ensures HashMoves(s, s.jobs[j], HashSome(s, j, n).jobs[j], i)
  {
    var job := s.jobs[j];
    var at := |job.stage.fed| + |job.stage.miss.value.got|;
    if at <= i < at + n {
      forall k | at <= k <= i ensures Readable(job, k) {
        TransferReadable(s, j, n, at, k);
      }
      TransferReadable(s, j, n, at, i);
    }
  }

  lemma UpdateMoves(s: State, j: JobId, i: nat)
    requires j in s.jobs && s.jobs[j].req.HashReq?
    ensures CanHashUpdate(s, j) ==> HashMoves(s, s.jobs[j], HashUpdate(s, j).jobs[j], i)
    ensures CanFinishHash(s, j) ==> HashMoves(s, s.jobs[j], FinishHash(s, j).jobs[j], i)
    ensures CanHandle(s, j) ==> HashMoves(s, s.jobs[j], Handle(s, j).jobs[j], i)
  {
  }

  lemma HashStepMoves(s: State, step: Step, s': State, j: JobId, i: nat)
    requires Inv(s) && Enabled(s, step) && s' == Next(s, step)
    requires j in s.jobs && s.jobs[j].req.HashReq? && j in s'.jobs && s'.jobs[j].req.HashReq?
    ensures HashMoves(s, s.jobs[j], s'.jobs[j], i)
  {
    assert JobOk(s, j, s.jobs[j]) && JobFits(s.jobs[j]);
    if !IsStepOf(step, j) {
      OthersKeepJob(s, step, s', j);
    } else {
      match step {
        case SHashLookup(_) =>
          if s.Entry(Loc(s.jobs[j].idx, s.jobs[j].req.piece, |s.jobs[j].stage.fed|)).Some? {
            HitIsAligned(s, j);
          }
          LookupMoves(s, j, i);
        case SHashSome(_, n) => HashSomeMoves(s, j, n, i);
        case SHashUpdate(_) => UpdateMoves(s, j, i);
        case SFinishHash(_) => UpdateMoves(s, j, i);
        case SHandle(_) => UpdateMoves(s, j, i);
        case SFreeRead(_) =>
        case SFreeWrite(_) =>
      }
    }
  }

  lemma RunHashMoves(run: seq<State>, steps: seq<Step>, u: nat, j: JobId, i: nat)
    requires Execution(run, steps) && j + 1 < u < |run| && j in run[u].jobs && run[u].jobs[j].req.HashReq?
    ensures j in run[u - 1].jobs && SameJob(run[u - 1].jobs[j], run[u].jobs[j])
    ensures HashMoves(run[u - 1], run[u - 1].jobs[j], run[u].jobs[j], i)
  {
    RunJobStays(run, steps, u, j);
    RunInv(run, steps, u - 1);
    assert StepAt(run, steps, u - 1);
    HashStepMoves(run[u - 1], steps[u - 1], run[u], j, i);
  }

  lemma HashCallBorn(s: State, idx: nat, piece: nat, mallocOk: bool)
    requires CanIssueHash(s, idx, piece)
    ensures var s' := IssueHash(s, idx, piece, mallocOk);
      && s.now in s'.jobs && OnItsStorage(s.slots.storages, s'.jobs[s.now])
      && (s'.jobs[s.now].stage == Hashing(0, [], None, false) || s'.jobs[s.now].stage == Posted(Reply([], NoMemory)))
  {
  }

  /** A hash job starts with nothing fed. */
  lemma HashBirth(run: seq<State>, steps: seq<Step>, j: JobId, i: nat)
    requires Execution(run, steps) && j + 1 < |run| && j in run[j + 1].jobs && run[j + 1].jobs[j].req.HashReq?
    ensures Fed(run[j + 1].jobs[j], i).None?
    ensures run[j + 1].jobs[j].stage.Hashing? ==> run[j + 1].jobs[j].stage.miss.None?
    ensures OnItsStorage(run[j].slots.storages, run[j + 1].jobs[j])
  {
    RunJobBirth(run, steps, j);
    HashCallBorn(run[j], steps[j].idx, steps[j].piece, steps[j].mallocOk);
  }

  predicate SameMiss(job: Job, job': Job) {
    && job.stage.Hashing? && job.stage.miss.Some? && job'.stage.Hashing? && job'.stage.miss.Some?
    && job.stage.miss.value.since == job'.stage.miss.value.since && job.stage.fed == job'.stage.fed
  }

  lemma NewMiss(run: seq<State>, steps: seq<Step>, u: nat, j: JobId)
    requires Execution(run, steps) && j + 1 < u < |run| && j in run[u].jobs && run[u].jobs[j].req.HashReq?
    requires run[u].jobs[j].stage.Hashing? && run[u].jobs[j].stage.miss.Some?
    ensures var job := run[u].jobs[j];
      && j in run[u - 1].jobs && SameJob(run[u - 1].jobs[j], job)
      && (SameMiss(run[u - 1].jobs[j], job)
          || (job.stage.miss.value.since == u - 1 && job.stage.miss.value.got == [] && Loc(job.idx, job.req.piece, |job.stage.fed|) !in run[u - 1].store))
  {
    RunHashMoves(run, steps, u, j, 0);
    var s, job := run[u - 1], run[u].jobs[j];
    var loc := Loc(job.idx, job.req.piece, |job.stage.fed|);
    assert s.now == u - 1 && (s.Entry(loc).Some? <==> loc in s.store) by {
      RunInv(run, steps, u - 1);
      EntryIffIndexed(s, loc);
    }
  }

  /** A miss was a miss: at its moment the block had no entry, on this very storage. */
  lemma {:induction false} MissRecorded(run: seq<State>, steps: seq<Step>, u: nat, j: JobId)
    requires Execution(run, steps) && j < u < |run| && j in run[u].jobs && run[u].jobs[j].req.HashReq?
    requires run[u].jobs[j].stage.Hashing? && run[u].jobs[j].stage.miss.Some?
    ensures var job := run[u].jobs[j];
      j < job.stage.miss.value.since < u
      && Loc(job.idx, job.req.piece, |job.stage.fed|) !in run[job.stage.miss.value.since].store
    decreases u
  {
    if u == j + 1 {
      HashBirth(run, steps, j, 0);
    } else {
      NewMiss(run, steps, u, j);
      if SameMiss(run[u - 1].jobs[j], run[u].jobs[j]) {
        MissRecorded(run, steps, u - 1, j);
      }
    }
  }

  /** What a round has taken from the disk so far has parseable names. */
  lemma {:induction false} GotParses(run: seq<State>, steps: seq<Step>, u: nat, j: JobId, i: nat)
    requires Execution(run, steps) && j < u < |run| && j in run[u].jobs && run[u].jobs[j].req.HashReq?
    requires var st := run[u].jobs[j].stage; st.Hashing? && st.miss.Some? && |st.fed| <= i < |st.fed| + |st.miss.value.got|
    ensures Readable(run[u].jobs[j], i)
    decreases u
  {
    if u == j + 1 {
      HashBirth(run, steps, j, 0);
    } else {
      NewMiss(run, steps, u, j);
      RunHashMoves(run, steps, u, j, i);
      if i < |run[u - 1].jobs[j].stage.fed| + |run[u - 1].jobs[j].stage.miss.value.got| {
        GotParses(run, steps, u - 1, j, i);
      } else {
        assert Readable(run[u - 1].jobs[j], i);
      }
    }
  }

  /** Until a short read the loop's offset is the start of the block that the round is about. */
  lemma RoundIsBlock(job: Job, i: nat)
    requires job.req.HashReq? && job.stage.Hashing? && JobFits(job) && !job.stage.failed
    requires job.stage.round < Rounds(job.torrent, job.req.piece)
    requires |job.stage.fed| <= i < PieceSize(job.torrent, job.req.piece) && i - |job.stage.fed| < BLOCK
    ensures var p := PiecePos(job.torrent, job.req.piece, i);
      && p < Total(job.torrent)
      && LocOf(job.torrent, job.idx, p) == Loc(job.idx, job.req.piece, |job.stage.fed|)
      && OffsetInBlock(job.torrent, p) == i - |job.stage.fed|
  {
    LocOfPieceByte(job.torrent, job.idx, job.req.piece, i);
    RoundArithmetic(PieceSize(job.torrent, job.req.piece), job.stage.round, |job.stage.fed|);
    OffsetShift(|job.stage.fed|, i - |job.stage.fed|);
  }

  /** What hash coherence asks about byte `i` of the piece: it was in order at a moment `a` no later than the call. */
  ghost predicate HashWatched(run: seq<State>, a: nat, u: nat, j: JobId, job: Job, i: nat)
    requires job.req.HashReq?
  {
    a <= j && Tracked(run, a, u, job.idx, job.torrent, job.born, PiecePos(job.torrent, job.req.piece, i))
  }

  ghost predicate HashInOrder(run: seq<State>, u: nat, j: JobId, job: Job, i: nat)
    requires job.req.HashReq?
  {
    exists a :: HashWatched(run, a, u, j, job, i)
  }

  /** A byte that a hash takes from the disk is one that writes reach: its round began at the start of the block. */
  lemma HashedIsSolid(run: seq<State>, steps: seq<Step>, u: nat, j: JobId, i: nat, b: byte)
    requires Execution(run, steps) && j < u < |run| && j in run[u].jobs && run[u].jobs[j].req.HashReq?
    requires JobFits(run[u].jobs[j]) && FromDisk(run[u], run[u].jobs[j], i, b)
    ensures var job := run[u].jobs[j]; Solid(job.torrent, PiecePos(job.torrent, job.req.piece, i))
  {
    var job := run[u].jobs[j];
    var t, p, at := job.torrent, PiecePos(job.torrent, job.req.piece, i), |job.stage.fed| + |job.stage.miss.value.got|;
    RoundIsBlock(job, i);
    forall q: nat | p - OffsetInBlock(t, p) <= q <= p ensures Address(t.files, q).Some? {
      var k := q - PieceStart(t, job.req.piece);
      if k < at {
        GotParses(run, steps, u, j, k);
      }
      assert Readable(job, k);
    }
  }

  /** A byte that a running hash job takes from an entry or from the disk at moment `u`. */
  lemma HashNewByte(run: seq<State>, steps: seq<Step>, a: nat, u: nat, j: JobId, i: nat, b: byte)
    requires Execution(run, steps) && j < u < |run| && j in run[u].jobs && run[u].jobs[j].req.HashReq?
    requires OnItsStorage(run[u].slots.storages, run[u].jobs[j]) && HashWatched(run, a, u, j, run[u].jobs[j], i)
    requires FromEntry(run[u], run[u].jobs[j], i, b) || FromDisk(run[u], run[u].jobs[j], i, b)
    ensures var job := run[u].jobs[j]; InWindow(run, j, u, job.idx, job.born, PiecePos(job.torrent, job.req.piece, i), b)
  {
    var job := run[u].jobs[j];
    var p := PiecePos(job.torrent, job.req.piece, i);
    assert JobOk(run[u], j, job) && JobFits(job) by {
      RunInv(run, steps, u);
    }
    RoundIsBlock(job, i);
    if FromEntry(run[u], job, i, b) {
      CacheDiskAgreement(run, steps, a, u, job.idx, p);
      assert Shows(run[u], job.idx, job.born, p, b);
    } else {
      var since := job.stage.miss.value.since;
      MissRecorded(run, steps, u, j);
      HashedIsSolid(run, steps, u, j, i, b);
      DiskAfterMiss(run, steps, a, since, u, job.idx, p);
      WindowGrows(run, since, j, u, u, job.idx, job.born, p, b);
    }
  }

  /** Each byte that goes to the hasher is a value that the image had since the call. */
  lemma {:induction false} HashByteCoherent(run: seq<State>, steps: seq<Step>, a: nat, u: nat, j: JobId, i: nat)
    requires Execution(run, steps) && j < u < |run| && j in run[u].jobs && run[u].jobs[j].req.HashReq?
    requires Fed(run[u].jobs[j], i).Some? && HashWatched(run, a, u, j, run[u].jobs[j], i)
    ensures var job := run[u].jobs[j];
      InWindow(run, j, u, job.idx, job.born, PiecePos(job.torrent, job.req.piece, i), Fed(job, i).value)
    decreases u
  {
    var job := run[u].jobs[j];
    var p, b := PiecePos(job.torrent, job.req.piece, i), Fed(job, i).value;
    if u == j + 1 {
      HashBirth(run, steps, j, i);
    } else {
      RunHashMoves(run, steps, u, j, i);
      if Fed(run[u - 1].jobs[j], i) == Some(b) {
        HashByteCoherent(run, steps, a, u - 1, j, i);
      } else {
        HashNewByte(run, steps, a, u - 1, j, i, b);
      }
      WindowGrows(run, j, j, u - 1, u, job.idx, job.born, p, b);
    }
  }

  // ---------- a piece that nobody writes ----------

  /** A step that can change the image of some block of a piece. */
  ghost predicate Disturbs(s: State, step: Step, idx: nat, piece: nat) {
    exists offset: nat :: Repaints(s, step, Loc(idx, piece, offset))
  }

  lemma {:induction false} ImageStable(run: seq<State>, steps: seq<Step>, a: nat, m: nat, idx: nat, p: nat)
    requires Execution(run, steps) && a <= m < |run| && run[m].Has(idx) && run[m].Vol(idx).born < a
    requires p < Total(run[m].Vol(idx).torrent)
    requires forall i :: a <= i < m ==> !Repaints(run[i], steps[i], LocOf(run[m].Vol(idx).torrent, idx, p))
    ensures SameStorage(run[a], run[m], idx) && run[m].Vol(idx).image(p) == run[a].Vol(idx).image(p)
    decreases m
  {
    if a < m {
      RunImageStep(run, steps, m, idx, p);
      ImageStable(run, steps, a, m - 1, idx, p);
    }
  }

  /** Nothing was written to the piece from the call of job `j` to moment `u`. */
  ghost predicate PieceUndisturbed(run: seq<State>, steps: seq<Step>, j: JobId, u: nat, idx: nat, piece: nat)
    requires |run| == |steps| + 1 && u < |run|
  {
    forall m :: j <= m < u ==> !Disturbs(run[m], steps[m], idx, piece)
  }

  lemma QuietByte(run: seq<State>, steps: seq<Step>, a: nat, u: nat, j: JobId, i: nat)
    requires Execution(run, steps) && j < u < |run| && j in run[u].jobs && run[u].jobs[j].req.HashReq?
    requires Fed(run[u].jobs[j], i).Some? && HashWatched(run, a, u, j, run[u].jobs[j], i)
    requires i < PieceSize(run[u].jobs[j].torrent, run[u].jobs[j].req.piece)
    requires run[u].jobs[j].born < j && run[j].Has(run[u].jobs[j].idx)
    requires OnItsStorage(run[j].slots.storages, run[u].jobs[j])
    requires PieceUndisturbed(run, steps, j, u, run[u].jobs[j].idx, run[u].jobs[j].req.piece)
    ensures var job := run[u].jobs[j];
      Fed(job, i).value == run[j].Vol(job.idx).image(PiecePos(job.torrent, job.req.piece, i))
  {
    var job := run[u].jobs[j];
    var p := PiecePos(job.torrent, job.req.piece, i);
    HashByteCoherent(run, steps, a, u, j, i);
    var m :| j <= m <= u && m < |run| && Shows(run[m], job.idx, job.born, p, Fed(job, i).value);
    LocOfPieceByte(job.torrent, job.idx, job.req.piece, i);
    SameBornSameStorage(run, steps, j, m, job.idx);
    var loc := LocOf(job.torrent, job.idx, p);
    forall v | j <= v < m ensures !Repaints(run[v], steps[v], loc) {
      assert !Disturbs(run[v], steps[v], job.idx, job.req.piece);
      assert loc == Loc(job.idx, job.req.piece, loc.offset);
    }
    ImageStable(run, steps, j, m, job.idx, p);
  }

  /** The moment of attachment identifies a storage. */
  lemma {:induction false} SameBornSameStorage(run: seq<State>, steps: seq<Step>, a: nat, m: nat, idx: nat)
    requires Execution(run, steps) && a <= m < |run| && run[m].Has(idx) && run[m].Vol(idx).born < a
    ensures SameStorage(run[a], run[m], idx)
    decreases m
  {
    if a < m {
      RunVolumeStep(run, steps, m, idx);
      SameBornSameStorage(run, steps, a, m - 1, idx);
    }
  }

  lemma {:induction false} HashStorageAtCall(run: seq<State>, steps: seq<Step>, u: nat, j: JobId)
    requires Execution(run, steps) && j < u < |run| && j in run[u].jobs && run[u].jobs[j].req.HashReq?
    ensures run[u].jobs[j].born < j && OnItsStorage(run[j].slots.storages, run[u].jobs[j])
    decreases u
  {
    if u == j + 1 {
      HashBirth(run, steps, j, 0);
      RunInv(run, steps, u);
      assert JobOk(run[u], j, run[u].jobs[j]);
    } else {
      RunHashMoves(run, steps, u, j, 0);
      HashStorageAtCall(run, steps, u - 1, j);
    }
  }

  // ---------- the answer to a hash ----------

  /** A hash gets no buffer: 1024 read buffers are out at the call, or malloc fails. */
  predicate HashRefused(s: State, mallocOk: bool) {
    s.readPool.size >= 1024 || !mallocOk
  }

  ghost predicate HashCalled(run: seq<State>, steps: seq<Step>, j: JobId, job: Job) {
    && j < |steps| && j < |run| && steps[j].SHash? && job.req == HashReq(steps[j].piece) && job.idx == steps[j].idx
  }

  /** A running hash job got its buffer; a finished one has the no-memory error, and nothing hashed, exactly if it did not. */
  ghost predicate HashAnswers(run: seq<State>, steps: seq<Step>, j: JobId, job: Job) {
    && HashCalled(run, steps, j, job)
    && (job.stage.Hashing? ==> !HashRefused(run[j], steps[j].mallocOk))
    && (Answered(job) ==>
          && (job.stage.reply.failure == NoMemory <==> HashRefused(run[j], steps[j].mallocOk))
          && (job.stage.reply.failure == NoMemory ==> job.stage.reply.bytes == []))
  }

  lemma HashCallAnswers(s: State, idx: nat, piece: nat, mallocOk: bool)
    requires CanIssueHash(s, idx, piece)
    ensures var s' := IssueHash(s, idx, piece, mallocOk);
      && s.now in s'.jobs
      && s'.jobs[s.now].stage == if HashRefused(s, mallocOk) then Posted(Reply([], NoMemory)) else Hashing(0, [], None, false)
  {
  }

  lemma HashStages(s: State, step: Step, s': State, j: JobId)
    requires Enabled(s, step) && s' == Next(s, step) && IsStepOf(step, j) && j in s.jobs && j in s'.jobs && s.jobs[j].req.HashReq?
    requires s.jobs[j].stage.Hashing?
    ensures s'.jobs[j].stage.Hashing?
      || (s'.jobs[j].stage.Posted? && (s'.jobs[j].stage.reply.failure == Fine || s'.jobs[j].stage.reply.failure == ParseError))
  {
  }

  lemma RunHashStages(run: seq<State>, steps: seq<Step>, u: nat, j: JobId)
    requires Execution(run, steps) && j + 1 < u < |run| && j in run[u - 1].jobs && j in run[u].jobs
    requires run[u - 1].jobs[j].req.HashReq? && run[u - 1].jobs[j].stage.Hashing?
    ensures var stage := run[u].jobs[j].stage;
      stage.Hashing? || (stage.Posted? && (stage.reply.failure == Fine || stage.reply.failure == ParseError))
  {
    RunInv(run, steps, u - 1);
    assert StepAt(run, steps, u - 1);
    if IsStepOf(steps[u - 1], j) {
      HashStages(run[u - 1], steps[u - 1], run[u], j);
    } else {
      OthersKeepJob(run[u - 1], steps[u - 1], run[u], j);
    }
  }

  lemma HashOrAnswered(run: seq<State>, steps: seq<Step>, u: nat, j: JobId)
    requires Execution(run, steps) && u < |run| && j in run[u].jobs && run[u].jobs[j].req.HashReq?
    ensures run[u].jobs[j].stage.Hashing? || Answered(run[u].jobs[j])
  {
    RunInv(run, steps, u);
    assert JobFits(run[u].jobs[j]);
  }

  /** The no-memory answer of a hash is decided by its call alone, and is given with nothing hashed. */
  lemma {:induction false} HashIsAnswered(run: seq<State>, steps: seq<Step>, u: nat, j: JobId)
    requires Execution(run, steps) && j < u < |run| && j in run[u].jobs && run[u].jobs[j].req.HashReq?
    ensures HashAnswers(run, steps, j, run[u].jobs[j])
    decreases u
  {
    if u == j + 1 {
      RunJobBirth(run, steps, j);
      HashCallAnswers(run[j], steps[j].idx, steps[j].piece, steps[j].mallocOk);
    } else {
      RunJobStays(run, steps, u, j);
      HashIsAnswered(run, steps, u - 1, j);
      HashOrAnswered(run, steps, u - 1, j);
      if Answered(run[u - 1].jobs[j]) {
        RunReplyStays(run, steps, u, j);
      } else {
        RunHashStages(run, steps, u, j);
      }
    }
  }

  /**
    Hash coherence, for any mix of names: if nothing is written to the piece during the job, what
    is hashed is a prefix of the last-write-wins contents of the piece at the call, however
    pending writes drain between blocks, or between a miss and its disk read. It is
    the whole piece exactly when no error is recorded, and otherwise ends at a byte whose
    name does not parse.
   */
  lemma HashCoherent(run: seq<State>, steps: seq<Step>, u: nat, j: JobId)
    requires Execution(run, steps) && j < u < |run| && j in run[u].jobs && run[u].jobs[j].req.HashReq?
    requires var job := run[u].jobs[j];
      && Answered(job) && HashCalled(run, steps, j, job) && !HashRefused(run[j], steps[j].mallocOk)
      && (forall i :: 0 <= i < PieceSize(job.torrent, job.req.piece) ==> HashInOrder(run, u, j, job, i))
      && PieceUndisturbed(run, steps, j, u, job.idx, job.req.piece)
    ensures var job := run[u].jobs[j];
      && run[j].Has(job.idx) && |job.stage.reply.bytes| <= PieceSize(job.torrent, job.req.piece)
      && (forall i :: 0 <= i < |job.stage.reply.bytes| ==>
            job.stage.reply.bytes[i] == run[j].Vol(job.idx).image(PiecePos(job.torrent, job.req.piece, i)))
      && (|job.stage.reply.bytes| == PieceSize(job.torrent, job.req.piece) <==> job.stage.reply.failure == Fine)
      && (job.stage.reply.failure != Fine ==>
            Unparseable(job.torrent, PiecePos(job.torrent, job.req.piece, |job.stage.reply.bytes|)))
  {
    var job := run[u].jobs[j];
    HashIsAnswered(run, steps, u, j);
    assert JobFits(job) by {
      RunInv(run, steps, u);
    }
    HashStorageAtCall(run, steps, u, j);
    forall i | 0 <= i < |job.stage.reply.bytes|
      ensures job.stage.reply.bytes[i] == run[j].Vol(job.idx).image(PiecePos(job.torrent, job.req.piece, i))
    {
      assert HashInOrder(run, u, j, job, i);
      var a :| HashWatched(run, a, u, j, job, i);
      QuietByte(run, steps, a, u, j, i);
    }
  }

  /** Where every name of the torrent parses, the whole piece is hashed. */
  lemma CleanHashIsWhole(run: seq<State>, steps: seq<Step>, u: nat, j: JobId)
    requires Execution(run, steps) && j < u < |run| && j in run[u].jobs && run[u].jobs[j].req.HashReq?
    requires var job := run[u].jobs[j];
      Answered(job) && HashCalled(run, steps, j, job) && !HashRefused(run[j], steps[j].mallocOk) && Parses(job.torrent.files)
    ensures var job := run[u].jobs[j];
      job.stage.reply.failure == Fine && |job.stage.reply.bytes| == PieceSize(job.torrent, job.req.piece)
  {
    HashIsAnswered(run, steps, u, j);
    RunInv(run, steps, u);
    assert JobFits(run[u].jobs[j]);
  }
}
