/**
  What becomes of the bytes that a failing write does not reach. A write stops at the first
  file name that does not parse, and its entry is erased all the same.
 */
module FailedWrites {
  import opened Basics
  import opened Extents
  import opened Torrents
  import opened DiskSystem
  import opened Safety
  import opened Completion
  import opened Coherence

  // ---------- no write gets past an unparseable name ----------

  /** A write whose block does not start behind byte `q` has not got past `q`. */
  predicate StopsAt(job: Job, q: nat) {
    job.req.WriteReq? && job.stage.Writing? && BlockStart(job.torrent, job.req.loc) <= q ==>
      BlockStart(job.torrent, job.req.loc) + job.stage.done <= q
  }

  lemma NewWriteStops(s: State, step: Step, s': State, q: nat)
    requires Enabled(s, step) && s' == Next(s, step) && s.now in s'.jobs && BornOf(step, s'.jobs[s.now])
    ensures StopsAt(s'.jobs[s.now], q)
  {
  }

  lemma FlushStops(s: State, j: JobId, n: nat, q: nat)
    requires CanFlush(s, j, n) && JobHere(s, j) && StopsAt(s.jobs[j], q)
    requires q < Total(s.jobs[j].torrent) && Address(s.jobs[j].torrent.files, q).None?
    ensures StopsAt(Flush(s, j, n).jobs[j], q)
  {
    var pos := WritePos(s, j);
    if pos <= q < pos + n {
      FileRun(s.jobs[j].torrent.files, 0, pos, q - pos);
      assert false;
    }
  }

  lemma OwnStepStops(s: State, step: Step, s': State, j: JobId, q: nat)
    requires Enabled(s, step) && s' == Next(s, step) && IsStepOf(step, j) && j in s.jobs && j in s'.jobs
    requires JobOk(s, j, s.jobs[j]) && JobFits(s.jobs[j]) && StopsAt(s.jobs[j], q)
    requires q < Total(s.jobs[j].torrent) && Address(s.jobs[j].torrent.files, q).None?
    ensures StopsAt(s'.jobs[j], q)
  {
    if step.SFlush? {
      FlushStops(s, j, step.n, q);
    }
  }

  lemma StepStops(s: State, step: Step, s': State, j: JobId, q: nat)
    requires Inv(s) && Enabled(s, step) && s' == Next(s, step) && j in s.jobs && j in s'.jobs && j != s.now
    requires q < Total(s.jobs[j].torrent) && Address(s.jobs[j].torrent.files, q).None? && StopsAt(s.jobs[j], q)
    ensures StopsAt(s'.jobs[j], q)
  {
    if !IsStepOf(step, j) {
      OthersKeepJob(s, step, s', j);
    } else {
      assert JobOk(s, j, s.jobs[j]) && JobFits(s.jobs[j]);
      OwnStepStops(s, step, s', j, q);
    }
  }

  lemma BirthStops(run: seq<State>, steps: seq<Step>, j: JobId, q: nat)
    requires Execution(run, steps) && j + 1 < |run| && j in run[j + 1].jobs
    ensures StopsAt(run[j + 1].jobs[j], q)
  {
    RunJobBirth(run, steps, j);
    NewWriteStops(run[j], steps[j], run[j + 1], q);
  }

  lemma RunStepStops(run: seq<State>, steps: seq<Step>, u: nat, j: JobId, q: nat)
    requires Execution(run, steps) && j + 1 < u < |run| && j in run[u].jobs && j in run[u - 1].jobs
    requires q < Total(run[u - 1].jobs[j].torrent) && Address(run[u - 1].jobs[j].torrent.files, q).None?
    requires StopsAt(run[u - 1].jobs[j], q)
    ensures StopsAt(run[u].jobs[j], q)
  {
    RunInv(run, steps, u - 1);
    assert StepAt(run, steps, u - 1);
    StepStops(run[u - 1], steps[u - 1], run[u], j, q);
  }

  /** In every run a write of a block never gets past a byte of the block whose name does not parse. */
  lemma {:induction false} WriteStopsAt(run: seq<State>, steps: seq<Step>, u: nat, j: JobId, q: nat)
    requires Execution(run, steps) && j < u < |run| && j in run[u].jobs
    requires q < Total(run[u].jobs[j].torrent) && Address(run[u].jobs[j].torrent.files, q).None?
    ensures StopsAt(run[u].jobs[j], q)
    decreases u
  {
    if u == j + 1 {
      BirthStops(run, steps, j, q);
    } else {
      RunJobStays(run, steps, u, j);
      WriteStopsAt(run, steps, u - 1, j, q);
      RunStepStops(run, steps, u, j, q);
    }
  }

  // ---------- the answer to a write ----------

  /** Some byte of the range has a name that does not parse. */
  ghost predicate BadInRange(t: Torrent, pos: nat, size: nat) {
    exists q: nat :: pos <= q < pos + size && Unparseable(t, q)
  }

  /** The answer that a write of a block must get. */
  ghost function WriteAnswer(job: Job): Reply
    requires job.req.WriteReq?
  {
    Reply([], if BadInRange(job.torrent, BlockStart(job.torrent, job.req.loc), job.req.size) then ParseError else Fine)
  }

  lemma WholeBlockParses(run: seq<State>, steps: seq<Step>, u: nat, j: JobId)
    requires Execution(run, steps) && j < u < |run| && j in run[u].jobs && run[u].jobs[j].req.WriteReq?
    requires run[u].jobs[j].stage.Writing? && run[u].jobs[j].stage.done == run[u].jobs[j].req.size
    ensures var job := run[u].jobs[j]; !BadInRange(job.torrent, BlockStart(job.torrent, job.req.loc), job.req.size)
  {
    var job := run[u].jobs[j];
    var pos := BlockStart(job.torrent, job.req.loc);
    forall q: nat | pos <= q < pos + job.req.size ensures !Unparseable(job.torrent, q) {
      if Unparseable(job.torrent, q) {
        WriteStopsAt(run, steps, u, j, q);
      }
    }
  }

  lemma FinishPosts(s: State, j: JobId)
    requires CanFinishWrite(s, j)
    ensures FinishWrite(s, j).jobs[j].stage == Posted(Reply([], if s.jobs[j].stage.failed then ParseError else Fine))
  {
  }

  /** The last step of a write's loop: it posts the answer. */
  lemma WriteEnds(run: seq<State>, steps: seq<Step>, u: nat, j: JobId)
    requires Execution(run, steps) && j + 1 < u < |run| && j in run[u - 1].jobs && j in run[u].jobs
    requires run[u - 1].jobs[j].req.WriteReq? && run[u - 1].jobs[j].stage.Writing? && Answered(run[u].jobs[j])
    ensures CanFinishWrite(run[u - 1], j)
    ensures run[u].jobs[j].stage == Posted(Reply([], if run[u - 1].jobs[j].stage.failed then ParseError else Fine))
  {
    var s, step := run[u - 1], steps[u - 1];
    RunInv(run, steps, u - 1);
    assert StepAt(run, steps, u - 1);
    if IsStepOf(step, j) {
      assert step.SFinishWrite?;
      FinishPosts(s, j);
    } else {
      OthersKeepJob(s, step, run[u], j);
    }
  }

  lemma WriteEndsRight(run: seq<State>, steps: seq<Step>, u: nat, j: JobId)
    requires Execution(run, steps) && j + 1 < u < |run| && j in run[u - 1].jobs && j in run[u].jobs
    requires run[u - 1].jobs[j].req.WriteReq? && run[u - 1].jobs[j].stage.Writing? && Answered(run[u].jobs[j])
    ensures run[u].jobs[j].stage.reply == WriteAnswer(run[u - 1].jobs[j])
  {
    var job := run[u - 1].jobs[j];
    WriteEnds(run, steps, u, j);
    if job.stage.failed {
      assert JobFits(job) by {
        RunInv(run, steps, u - 1);
      }
      assert Unparseable(job.torrent, BlockStart(job.torrent, job.req.loc) + job.stage.done);
    } else {
      WholeBlockParses(run, steps, u - 1, j);
    }
  }

  lemma WriteOrAnswered(run: seq<State>, steps: seq<Step>, u: nat, j: JobId)
    requires Execution(run, steps) && u < |run| && j in run[u].jobs && run[u].jobs[j].req.WriteReq?
    ensures run[u].jobs[j].stage.Writing? || Answered(run[u].jobs[j])
  {
    RunInv(run, steps, u);
    assert JobFits(run[u].jobs[j]);
  }

  /**
    The answer to a write, asynchronous or synchronous: its handler gets the parse error if and
    only if some byte of its block has a name that does not parse, and no error otherwise.
   */
  lemma {:induction false} WriteIsAnswered(run: seq<State>, steps: seq<Step>, u: nat, j: JobId)
    requires Execution(run, steps) && j < u < |run| && j in run[u].jobs && run[u].jobs[j].req.WriteReq? && Answered(run[u].jobs[j])
    ensures steps[j].SWrite? && run[u].jobs[j].req == WriteReq(steps[j].loc, |steps[j].data|)
    ensures run[u].jobs[j].stage.reply == WriteAnswer(run[u].jobs[j])
    decreases u
  {
    WriteRequest(run, steps, u, j);
    if u > j + 1 {
      RunJobStays(run, steps, u, j);
      WriteOrAnswered(run, steps, u - 1, j);
      if Answered(run[u - 1].jobs[j]) {
        WriteIsAnswered(run, steps, u - 1, j);
        RunReplyStays(run, steps, u, j);
      } else {
        WriteEndsRight(run, steps, u, j);
      }
    }
  }

  /** A write job is the call whose number it has, and is writing when it is new. */
  lemma {:induction false} WriteRequest(run: seq<State>, steps: seq<Step>, u: nat, j: JobId)
    requires Execution(run, steps) && j < u < |run| && j in run[u].jobs && run[u].jobs[j].req.WriteReq?
    ensures steps[j].SWrite? && run[u].jobs[j].req == WriteReq(steps[j].loc, |steps[j].data|)
    ensures u == j + 1 ==> run[u].jobs[j].stage.Writing?
    decreases u
  {
    if u == j + 1 {
      RunJobBirth(run, steps, j);
    } else {
      RunJobStays(run, steps, u, j);
      WriteRequest(run, steps, u - 1, j);
    }
  }

  // ---------- bytes behind an unparseable name ----------

  /** Byte `q` has an unparseable name and comes no later than `p` in the same block. */
  ghost predicate Shadows(t: Torrent, q: nat, p: nat) {
    p < Total(t) && p - OffsetInBlock(t, p) <= q <= p && Address(t.files, q).None?
  }

  lemma SameBlock(t: Torrent, idx: nat, q: nat, p: nat)
    requires p < Total(t) && p - OffsetInBlock(t, p) <= q <= p
    ensures LocOf(t, idx, q) == LocOf(t, idx, p) && OffsetInBlock(t, q) == OffsetInBlock(t, p) - (p - q)
  {
    OffsetIsDistance(t, idx, p);
    OffsetIsDistance(t, idx, q);
    LocOfIsBlock(t, idx, p);
    BlocksTile(t, LocOf(t, idx, p), q);
  }

  lemma FlushKeepsByte(s: State, j: JobId, n: nat, idx: nat, p: nat)
    requires CanFlush(s, j, n) && JobHere(s, j) && s.Has(idx)
    requires Disjoint(s.Vol(idx).torrent.files) && p < Total(s.Vol(idx).torrent)
    requires s.jobs[j].req.loc == LocOf(s.Vol(idx).torrent, idx, p) ==>
      s.jobs[j].stage.done + n <= OffsetInBlock(s.Vol(idx).torrent, p)
    ensures Flush(s, j, n).Has(idx) && DiskByte(Flush(s, j, n).Vol(idx), p) == DiskByte(s.Vol(idx), p)
  {
    var job, v := s.jobs[j], s.Vol(idx);
    if job.idx == idx {
      var bytes := Source(s, j)[job.stage.done..job.stage.done + n];
      PokeLogical(v.torrent, v.disk, WritePos(s, j), bytes, p);
      if job.req.loc == LocOf(v.torrent, idx, p) {
        OffsetIsDistance(v.torrent, idx, p);
      } else {
        PaintElsewhere(v.torrent, v.image, job.req.loc, job.stage.done, bytes, p);
      }
    }
  }

  /** Only a flush changes a disk. */
  lemma DiskStep(s: State, step: Step, idx: nat)
    requires s.slots.Valid() && Enabled(s, step) && !step.SFlush? && s.Has(idx) && Next(s, step).Has(idx)
    ensures Next(s, step).Vol(idx).disk == s.Vol(idx).disk
  {
    if Aside(step) {
      AsideUntouched(s, step, Loc(idx, 0, 0));
    } else {
      match step {
        case SAttach(t, disk) => s.slots.AddKeepsValid(Volume(t, disk, InitialImage(t, disk), s.now));
        case SDetach(_) =>
        case SWrite(_, _, _, _, _) =>
        case SFailFlush(_) =>
        case SFinishWrite(_) =>
      }
    }
  }

  lemma ShadowedFlush(s: State, j: JobId, n: nat, idx: nat, p: nat, q: nat)
    requires CanFlush(s, j, n) && JobHere(s, j) && s.Has(idx) && StopsAt(Flush(s, j, n).jobs[j], q)
    requires Disjoint(s.Vol(idx).torrent.files) && Shadows(s.Vol(idx).torrent, q, p)
    ensures Flush(s, j, n).Has(idx) && DiskByte(Flush(s, j, n).Vol(idx), p) == DiskByte(s.Vol(idx), p)
  {
    if s.jobs[j].req.loc == LocOf(s.Vol(idx).torrent, idx, p) {
      OffsetIsDistance(s.Vol(idx).torrent, idx, p);
    }
    FlushKeepsByte(s, j, n, idx, p);
  }

  lemma FlushOf(run: seq<State>, steps: seq<Step>, u: nat)
    requires Execution(run, steps) && 0 < u < |run| && steps[u - 1].SFlush?
    ensures var s, j, n := run[u - 1], steps[u - 1].j, steps[u - 1].n;
      CanFlush(s, j, n) && JobHere(s, j) && run[u] == Flush(s, j, n) && j < u - 1
  {
    RunInv(run, steps, u - 1);
    assert StepAt(run, steps, u - 1);
    assert JobOk(run[u - 1], steps[u - 1].j, run[u - 1].jobs[steps[u - 1].j]);
  }

  lemma RunDiskStep(run: seq<State>, steps: seq<Step>, u: nat, idx: nat)
    requires Execution(run, steps) && 0 < u < |run| && run[u - 1].Has(idx) && run[u].Has(idx) && !steps[u - 1].SFlush?
    ensures run[u].Vol(idx).disk == run[u - 1].Vol(idx).disk
  {
    RunInv(run, steps, u - 1);
    assert StepAt(run, steps, u - 1);
    DiskStep(run[u - 1], steps[u - 1], idx);
  }

  /** The step into moment `u` does not change the disk byte. */
  lemma ShadowedStep(run: seq<State>, steps: seq<Step>, u: nat, idx: nat, p: nat, q: nat)
    requires Execution(run, steps) && 0 < u < |run| && run[u - 1].Has(idx) && run[u].Has(idx)
    requires SameStorage(run[u - 1], run[u], idx)
    requires Disjoint(run[u].Vol(idx).torrent.files) && Shadows(run[u].Vol(idx).torrent, q, p)
    ensures DiskByte(run[u].Vol(idx), p) == DiskByte(run[u - 1].Vol(idx), p)
  {
    var s, step := run[u - 1], steps[u - 1];
    if step.SFlush? {
      FlushOf(run, steps, u);
      if s.jobs[step.j].idx == idx {
        WriteStopsAt(run, steps, u, step.j, q);
        ShadowedFlush(s, step.j, step.n, idx, p, q);
      }
    } else {
      RunDiskStep(run, steps, u, idx);
    }
  }

  /** The state right after a storage was added: its image is its disk. */
  ghost predicate FreshAt(run: seq<State>, steps: seq<Step>, b: nat, idx: nat, t: Torrent) {
    && b + 1 < |run| && b < |steps| && steps[b].SAttach? && steps[b].t == t && run[b + 1].Has(idx)
    && run[b + 1].Vol(idx) == Volume(t, steps[b].disk, InitialImage(t, steps[b].disk), b)
  }

  lemma AttachedFresh(run: seq<State>, steps: seq<Step>, u: nat, idx: nat)
    requires Execution(run, steps) && 0 < u < |run| && run[u].Has(idx) && !run[u - 1].Has(idx)
    ensures run[u].Vol(idx).born == u - 1 && FreshAt(run, steps, u - 1, idx, run[u].Vol(idx).torrent)
  {
    RunVolumeStep(run, steps, u, idx);
    AttachAt(run, steps, u);
    assert run[u - 1].now == u - 1 by {
      RunInv(run, steps, u - 1);
    }
  }

  /** Every storage is the one that was added at the moment it was born, with that torrent and that partition. */
  lemma {:induction false} StorageWasFresh(run: seq<State>, steps: seq<Step>, u: nat, idx: nat)
    requires Execution(run, steps) && u < |run| && run[u].Has(idx)
    ensures run[u].Vol(idx).born < u && FreshAt(run, steps, run[u].Vol(idx).born, idx, run[u].Vol(idx).torrent)
  {
    if u > 0 {
      RunVolumeStep(run, steps, u, idx);
      if run[u - 1].Has(idx) {
        StorageWasFresh(run, steps, u - 1, idx);
      } else {
        AttachedFresh(run, steps, u, idx);
      }
    }
  }

  /**
    A byte behind an unparseable name of its block never changes on disk, whatever is written
    and however writes overlap: it stays what the partition held when the storage was added.
   */
  lemma {:induction false} ShadowedByteFrozen(run: seq<State>, steps: seq<Step>, u: nat, idx: nat, p: nat, q: nat)
    requires Execution(run, steps) && u < |run| && run[u].Has(idx)
    requires Disjoint(run[u].Vol(idx).torrent.files) && Shadows(run[u].Vol(idx).torrent, q, p)
    ensures run[u].Vol(idx).born < u && FreshAt(run, steps, run[u].Vol(idx).born, idx, run[u].Vol(idx).torrent)
    ensures DiskByte(run[u].Vol(idx), p) == run[run[u].Vol(idx).born + 1].Vol(idx).image(p)
  {
    StorageWasFresh(run, steps, u, idx);
    RunVolumeStep(run, steps, u, idx);
    if run[u - 1].Has(idx) {
      ShadowedByteFrozen(run, steps, u - 1, idx, p, q);
      ShadowedStep(run, steps, u, idx, p, q);
    }
  }

  /** What the partition held at a logical byte when the storage was added. */
  function Original(run: seq<State>, idx: nat, born: nat, p: nat): Option<byte> {
    if born + 1 < |run| && run[born + 1].Has(idx) then Some(run[born + 1].Vol(idx).image(p)) else None
  }

  /**
    Exactly when the agreement of store buffer, disk and image holds, for any mix of names: for
    a byte that writes reach, while the block has an entry, and otherwise only where the last
    value written is the one that the partition held before.
   */
  lemma AgreementExactly(run: seq<State>, steps: seq<Step>, a: nat, u: nat, idx: nat, p: nat)
    requires Execution(run, steps) && Watched(run, a, u, idx, p)
    ensures var v := run[u].Vol(idx);
      Current(run[u], idx, v, p) == v.image(p)
      <==> Solid(v.torrent, p) || LocOf(v.torrent, idx, p) in run[u].store || Original(run, idx, v.born, p) == Some(v.image(p))
  {
    var v := run[u].Vol(idx);
    if Solid(v.torrent, p) || LocOf(v.torrent, idx, p) in run[u].store {
      CacheDiskAgreement(run, steps, a, u, idx, p);
    } else {
      var q: nat :| p - OffsetInBlock(v.torrent, p) <= q <= p && Address(v.torrent.files, q).None?;
      ShadowedByteFrozen(run, steps, u, idx, p, q);
    }
  }

  /** When a failed write ends, its entry goes, and a byte it did not reach reads as the partition's original byte again. */
  lemma FailedWriteDropsByte(run: seq<State>, steps: seq<Step>, u: nat, j: JobId, p: nat, q: nat)
    requires Execution(run, steps) && 0 < u < |run| && steps[u - 1] == SFinishWrite(j)
    requires CanFinishWrite(run[u - 1], j) && run[u - 1].jobs[j].AsyncWriting() && run[u - 1].jobs[j].stage.failed
    requires var idx := run[u - 1].jobs[j].idx;
      var t := run[u - 1].Vol(idx).torrent;
      Disjoint(t.files) && Shadows(t, q, p) && run[u - 1].jobs[j].req.loc == LocOf(t, idx, p)
    ensures var idx := run[u - 1].jobs[j].idx;
      && run[u].Has(idx) && run[u].Vol(idx) == run[u - 1].Vol(idx) && run[u - 1].jobs[j].req.loc !in run[u].store
      && Original(run, idx, run[u].Vol(idx).born, p) == Some(Current(run[u], idx, run[u].Vol(idx), p))
  {
    assert StepAt(run, steps, u - 1);
    ShadowedByteFrozen(run, steps, u, run[u - 1].jobs[j].idx, p, q);
  }
}
