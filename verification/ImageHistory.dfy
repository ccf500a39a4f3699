/** The image of a storage over time: it is what the last write of each block says. */
module ImageHistory {
  import opened Basics
  import opened Extents
  import opened Torrents
  import opened BufferPools
  import opened DiskSystem
  import opened Safety
  import opened Completion
  import opened Coherence
  import opened FailedWrites

  /** A step that can change the image of a block: a write call, or a slice of a synchronous write. */
  predicate Repaints(s: State, step: Step, loc: Loc) {
    || (step.SWrite? && step.loc == loc)
    || (step.SFlush? && step.j in s.jobs && s.jobs[step.j].req.WriteReq? && s.jobs[step.j].stage.Writing?
        && s.jobs[step.j].stage.direct.Some? && s.jobs[step.j].req.loc == loc)
  }

  lemma WriteCallImage(s: State, loc: Loc, data: seq<byte>, o: Option<Observer>, mallocOk: bool, junk: seq<byte>, idx: nat, p: nat)
    requires CanIssueWrite(s, loc, data, junk) && s.Has(idx) && p < Total(s.Vol(idx).torrent)
    requires loc != LocOf(s.Vol(idx).torrent, idx, p)
    ensures var s' := IssueWrite(s, loc, data, o, mallocOk, junk); s'.Has(idx) && s'.Vol(idx).image(p) == s.Vol(idx).image(p)
  {
    if loc.torrent == idx {
      PaintElsewhere(s.Vol(idx).torrent, s.Vol(idx).image, loc, 0, data, p);
    }
  }

  lemma FlushImage(s: State, j: JobId, n: nat, idx: nat, p: nat)
    requires CanFlush(s, j, n) && JobHere(s, j) && s.Has(idx) && p < Total(s.Vol(idx).torrent)
    requires s.jobs[j].stage.direct.None? || s.jobs[j].req.loc != LocOf(s.Vol(idx).torrent, idx, p)
    ensures Flush(s, j, n).Has(idx) && Flush(s, j, n).Vol(idx).image(p) == s.Vol(idx).image(p)
  {
    var job, v := s.jobs[j], s.Vol(idx);
    if job.stage.direct.Some? && job.idx == idx {
      PaintElsewhere(v.torrent, v.image, job.req.loc, job.stage.done, Source(s, j)[job.stage.done..job.stage.done + n], p);
    }
  }

  lemma WriteImageStep(s: State, step: Step, s': State, idx: nat, p: nat)
    requires Inv(s) && Enabled(s, step) && s' == Next(s, step) && SameStorage(s, s', idx) && p < Total(s.Vol(idx).torrent)
    requires WriteStep(step) && !Repaints(s, step, LocOf(s.Vol(idx).torrent, idx, p))
    ensures s'.Vol(idx).image(p) == s.Vol(idx).image(p)
  {
    match step {
      case SWrite(loc, data, o, mallocOk, junk) => WriteCallImage(s, loc, data, o, mallocOk, junk, idx, p);
      case SFlush(j, n) =>
        assert JobOk(s, j, s.jobs[j]) && JobFits(s.jobs[j]);
        FlushImage(s, j, n, idx, p);
      case SFailFlush(_) =>
      case SFinishWrite(_) =>
    }
  }

  /** Only those steps do. */
  lemma ImageStep(s: State, step: Step, s': State, idx: nat, p: nat)
    requires Inv(s) && Enabled(s, step) && s' == Next(s, step) && SameStorage(s, s', idx) && p < Total(s.Vol(idx).torrent)
    requires !Repaints(s, step, LocOf(s.Vol(idx).torrent, idx, p))
    ensures s'.Vol(idx).image(p) == s.Vol(idx).image(p)
  {
    if WriteStep(step) {
      WriteImageStep(s, step, s', idx, p);
    } else if Aside(step) {
      AsideUntouched(s, step, Loc(idx, 0, 0));
    } else {
      match step {
        case SAttach(t, disk) => s.slots.AddKeepsValid(Volume(t, disk, InitialImage(t, disk), s.now));
        case SDetach(_) =>
      }
    }
  }

  lemma RunImageStep(run: seq<State>, steps: seq<Step>, m: nat, idx: nat, p: nat)
    requires Execution(run, steps) && 0 < m < |run| && run[m].Has(idx) && run[m].Vol(idx).born < m - 1
    requires p < Total(run[m].Vol(idx).torrent)
    requires !Repaints(run[m - 1], steps[m - 1], LocOf(run[m].Vol(idx).torrent, idx, p))
    ensures SameStorage(run[m - 1], run[m], idx) && run[m].Vol(idx).image(p) == run[m - 1].Vol(idx).image(p)
  {
    RunInv(run, steps, m - 1);
    assert StepAt(run, steps, m - 1);
    VolumeStep(run[m - 1], steps[m - 1], idx);
    ImageStep(run[m - 1], steps[m - 1], run[m], idx, p);
  }

  /** The step stores byte `p` of the storage on its disk. */
  predicate Stores(s: State, step: Step, idx: nat, p: nat) {
    && step.SFlush? && CanFlush(s, step.j, step.n) && s.jobs[step.j].idx == idx
    && WritePos(s, step.j) <= p < WritePos(s, step.j) + step.n
  }

  lemma FlushElsewhereInStorage(s: State, j: JobId, n: nat, idx: nat, p: nat)
    requires CanFlush(s, j, n) && s.Has(idx) && !Stores(s, SFlush(j, n), idx, p)
    requires Disjoint(s.Vol(idx).torrent.files) && p < Total(s.Vol(idx).torrent)
    ensures Flush(s, j, n).Has(idx) && SameByte(s.Vol(idx), Flush(s, j, n).Vol(idx), p)
  {
    if s.jobs[j].idx == idx {
      PokeLogical(s.Vol(idx).torrent, s.Vol(idx).disk, WritePos(s, j),
                  Source(s, j)[s.jobs[j].stage.done..s.jobs[j].stage.done + n], p);
    }
  }

  lemma NoStoreNoChange(s: State, step: Step, s': State, idx: nat, p: nat)
    requires Inv(s) && Enabled(s, step) && s' == Next(s, step) && SameStorage(s, s', idx)
    requires Disjoint(s.Vol(idx).torrent.files) && p < Total(s.Vol(idx).torrent) && !Stores(s, step, idx, p)
    ensures DiskByte(s'.Vol(idx), p) == DiskByte(s.Vol(idx), p)
  {
    if step.SFlush? {
      FlushElsewhereInStorage(s, step.j, step.n, idx, p);
    } else {
      DiskStep(s, step, idx);
    }
  }

  // ---------- image and disk are what the last write says ----------

  /**
    How far write `m` of `data` has got with byte `k` of its block: an asynchronous write paints the
    image at once and the disk as it is flushed, a synchronous one both as it is flushed.
   */
  predicate StagePainted(stage: Stage, data: seq<byte>, k: nat, image: byte, disk: byte)
    requires k < |data|
  {
    if !stage.Writing? then image == data[k] && disk == data[k]
    else
      && (stage.direct.Some? ==> stage.direct.value == data)
      && (stage.direct.None? || k < stage.done ==> image == data[k])
      && (k < stage.done ==> disk == data[k])
  }

  /** Write `m` is the only outstanding write of the block, if it still is, and byte `p` is byte `k` of its data. */
  ghost predicate Painted(s: State, m: JobId, idx: nat, loc: Loc, data: seq<byte>, k: nat, p: nat) {
    && m in s.jobs && s.jobs[m].req == WriteReq(loc, |data|) && s.Has(idx) && k < |data| <= BLOCK
    && s.jobs[m].torrent == s.Vol(idx).torrent && s.jobs[m].idx == idx && p < Total(s.Vol(idx).torrent)
    && (forall i :: Outstanding(s, i, loc) ==> i == m)
    && (s.jobs[m].AsyncWriting() ==> m in s.heap && forall i :: 0 <= i < |data| ==> s.heap[m][i] == data[i])
    && StagePainted(s.jobs[m].stage, data, k, s.Vol(idx).image(p), DiskByte(s.Vol(idx), p))
  }

  /** What is asked of the byte. */
  ghost predicate Reached(t: Torrent, idx: nat, loc: Loc, k: nat, p: nat) {
    Disjoint(t.files) && p < Total(t) && loc == LocOf(t, idx, p) && k == OffsetInBlock(t, p) && Solid(t, p)
  }

  lemma AsyncCallPaints(s: State, loc: Loc, data: seq<byte>, o: Option<Observer>, mallocOk: bool, junk: seq<byte>, p: nat, k: nat)
    requires CanIssueWrite(s, loc, data, junk) && AllocateWatched(s.writePool, mallocOk, o).1
    requires p == BlockStart(s.Vol(loc.torrent).torrent, loc) + k && k < |data|
    ensures var s' := IssueWrite(s, loc, data, o, mallocOk, junk);
      && s.now in s'.heap && (forall i :: 0 <= i < |data| ==> s'.heap[s.now][i] == data[i]) && s'.Vol(loc.torrent).image(p) == data[k]
      && s'.jobs[s.now].stage == Writing(None, 0, false)
  {
  }

  lemma WritePaints(s: State, loc: Loc, data: seq<byte>, o: Option<Observer>, mallocOk: bool, junk: seq<byte>, p: nat, k: nat)
    requires CanIssueWrite(s, loc, data, junk) && p < Total(s.Vol(loc.torrent).torrent)
    requires p == BlockStart(s.Vol(loc.torrent).torrent, loc) + k && k < |data|
    requires Exclusive(IssueWrite(s, loc, data, o, mallocOk, junk), loc)
    ensures Painted(IssueWrite(s, loc, data, o, mallocOk, junk), s.now, loc.torrent, loc, data, k, p)
  {
    var s' := IssueWrite(s, loc, data, o, mallocOk, junk);
    assert Outstanding(s', s.now, loc);
    if AllocateWatched(s.writePool, mallocOk, o).1 {
      AsyncCallPaints(s, loc, data, o, mallocOk, junk, p, k);
    } else {
      assert s'.jobs[s.now].stage == Writing(Some(data), 0, false);
    }
  }

  lemma NewJobElsewhere(s: State, step: Step, s': State, loc: Loc)
    requires Enabled(s, step) && s' == Next(s, step) && s.now in s'.jobs && BornOf(step, s'.jobs[s.now])
    requires !(step.SWrite? && step.loc == loc)
    ensures !Outstanding(s', s.now, loc)
  {
  }

  /** A step makes no write of the block outstanding other than a call that writes it. */
  lemma OutstandingBefore(s: State, step: Step, s': State, loc: Loc, i: JobId)
    requires Inv(s) && Enabled(s, step) && s' == Next(s, step) && Outstanding(s', i, loc)
    requires !(step.SWrite? && step.loc == loc)
    ensures Outstanding(s, i, loc)
  {
    if i == s.now {
      JobBirth(s, step, s');
      NewJobElsewhere(s, step, s', loc);
    } else if !IsStepOf(step, i) {
      OthersKeepJob(s, step, s', i);
    } else {
      RankStep(s, step, i);
      JobKeepsRequest(s, step, s', i);
      match step {
        case SFlush(_, _) =>
        case SFailFlush(_) =>
        case _ =>
      }
    }
  }

  lemma FlushPaints(s: State, m: JobId, n: nat, idx: nat, loc: Loc, data: seq<byte>, k: nat, p: nat)
    requires CanFlush(s, m, n) && Painted(s, m, idx, loc, data, k, p) && Reached(s.Vol(idx).torrent, idx, loc, k, p)
    ensures var s' := Flush(s, m, n);
      s'.Has(idx) && StagePainted(s'.jobs[m].stage, data, k, s'.Vol(idx).image(p), DiskByte(s'.Vol(idx), p))
  {
    var v, done := s.Vol(idx), s.jobs[m].stage.done;
    OffsetIsDistance(v.torrent, idx, p);
    var bytes := Source(s, m)[done..done + n];
    PokeLogical(v.torrent, v.disk, WritePos(s, m), bytes, p);
    if WritePos(s, m) <= p < WritePos(s, m) + n {
      assert Source(s, m)[k] == bytes[p - WritePos(s, m)];
    }
  }

  /** The steps of write `m` itself that neither paint nor flush. */
  lemma EndPaints(s: State, step: Step, s': State, m: JobId, idx: nat, loc: Loc, data: seq<byte>, k: nat, p: nat)
    requires Enabled(s, step) && s' == Next(s, step) && IsStepOf(step, m) && !step.SFlush? && s'.Has(idx)
    requires Painted(s, m, idx, loc, data, k, p) && Reached(s.Vol(idx).torrent, idx, loc, k, p) && m in s'.jobs
    requires SameByte(s.Vol(idx), s'.Vol(idx), p) && JobFits(s.jobs[m])
    ensures StagePainted(s'.jobs[m].stage, data, k, s'.Vol(idx).image(p), DiskByte(s'.Vol(idx), p))
  {
    if step.SFinishWrite? {
      EndedWriteReaches(s.jobs[m], p);
    }
  }

  /** A flush that stores a byte belongs to an outstanding write of the byte's block. */
  lemma StoresOwnBlock(s: State, j: JobId, n: nat, idx: nat, p: nat)
    requires Stores(s, SFlush(j, n), idx, p) && JobHere(s, j) && p < Total(s.Vol(idx).torrent)
    ensures Outstanding(s, j, LocOf(s.Vol(idx).torrent, idx, p))
  {
    BlocksTile(s.Vol(idx).torrent, s.jobs[j].req.loc, p);
  }

  lemma OthersDoNotStore(s: State, step: Step, m: JobId, idx: nat, loc: Loc, p: nat)
    requires Inv(s) && s.Has(idx) && !(IsStepOf(step, m) && step.SFlush?) && forall i :: Outstanding(s, i, loc) ==> i == m
    requires p < Total(s.Vol(idx).torrent) && loc == LocOf(s.Vol(idx).torrent, idx, p)
    ensures !Stores(s, step, idx, p)
  {
    if Stores(s, step, idx, p) {
      assert JobOk(s, step.j, s.jobs[step.j]) && JobFits(s.jobs[step.j]);
      StoresOwnBlock(s, step.j, step.n, idx, p);
    }
  }

  lemma OthersDoNotFlush(s: State, step: Step, s': State, m: JobId, idx: nat, loc: Loc, p: nat)
    requires Inv(s) && Enabled(s, step) && s' == Next(s, step) && SameStorage(s, s', idx) && !(IsStepOf(step, m) && step.SFlush?)
    requires forall i :: Outstanding(s, i, loc) ==> i == m
    requires Disjoint(s.Vol(idx).torrent.files) && p < Total(s.Vol(idx).torrent) && loc == LocOf(s.Vol(idx).torrent, idx, p)
    ensures DiskByte(s'.Vol(idx), p) == DiskByte(s.Vol(idx), p)
  {
    OthersDoNotStore(s, step, m, idx, loc, p);
    NoStoreNoChange(s, step, s', idx, p);
  }

  lemma OthersDoNotPaint(s: State, step: Step, s': State, m: JobId, idx: nat, loc: Loc, p: nat)
    requires Inv(s) && Enabled(s, step) && s' == Next(s, step) && SameStorage(s, s', idx)
    requires !(step.SWrite? && step.loc == loc) && !(IsStepOf(step, m) && step.SFlush?)
    requires forall i :: Outstanding(s, i, loc) ==> i == m
    requires p < Total(s.Vol(idx).torrent) && loc == LocOf(s.Vol(idx).torrent, idx, p)
    ensures s'.Vol(idx).image(p) == s.Vol(idx).image(p)
  {
    assert Repaints(s, step, loc) ==> Outstanding(s, step.j, loc);
    ImageStep(s, step, s', idx, p);
  }

  lemma StageStep(s: State, step: Step, s': State, m: JobId, idx: nat, loc: Loc, data: seq<byte>, k: nat, p: nat)
    requires Inv(s) && Enabled(s, step) && s' == Next(s, step) && SameStorage(s, s', idx) && m < s.now && m in s'.jobs
    requires Painted(s, m, idx, loc, data, k, p) && !(step.SWrite? && step.loc == loc)
    requires Reached(s.Vol(idx).torrent, idx, loc, k, p)
    ensures StagePainted(s'.jobs[m].stage, data, k, s'.Vol(idx).image(p), DiskByte(s'.Vol(idx), p))
  {
    if IsStepOf(step, m) && step.SFlush? {
      FlushPaints(s, m, step.n, idx, loc, data, k, p);
    } else {
      OthersDoNotFlush(s, step, s', m, idx, loc, p);
      OthersDoNotPaint(s, step, s', m, idx, loc, p);
      if IsStepOf(step, m) {
        assert JobFits(s.jobs[m]);
        EndPaints(s, step, s', m, idx, loc, data, k, p);
      } else {
        OthersKeepJob(s, step, s', m);
      }
    }
  }

  lemma ReadCallKeepsHeap(s: State, step: Step)
    requires step.SRead? && Enabled(s, step)
    ensures Next(s, step).heap == s.heap
  {
  }

  lemma HeapStep(s: State, step: Step)
    requires Enabled(s, step) && !step.SWrite? && !step.SFreeWrite?
    ensures Next(s, step).heap == s.heap
  {
    if step.SRead? {
      ReadCallKeepsHeap(s, step);
    }
  }

  /** The buffer of an asynchronous write stays as it is until the write has ended. */
  lemma BufferStays(s: State, step: Step, m: JobId)
    requires Enabled(s, step) && m in s.jobs && s.jobs[m].stage.Writing? && m != s.now && m in s.heap
    ensures m in Next(s, step).heap && Next(s, step).heap[m] == s.heap[m]
  {
    if !step.SWrite? && !step.SFreeWrite? {
      HeapStep(s, step);
    }
  }

  lemma JobStays(s: State, step: Step, s': State, m: JobId)
    requires Inv(s) && Enabled(s, step) && s' == Next(s, step) && m in s.jobs && m < s.now
    ensures m in s'.jobs && SameJob(s.jobs[m], s'.jobs[m]) && (s'.jobs[m].AsyncWriting() ==> s.jobs[m].AsyncWriting())
  {
    RankStep(s, step, m);
    JobKeepsRequest(s, step, s', m);
    if !IsStepOf(step, m) {
      OthersKeepJob(s, step, s', m);
    }
  }

  lemma PaintedStep(s: State, step: Step, s': State, m: JobId, idx: nat, loc: Loc, data: seq<byte>, k: nat, p: nat)
    requires Inv(s) && Enabled(s, step) && s' == Next(s, step) && SameStorage(s, s', idx) && m < s.now
    requires Painted(s, m, idx, loc, data, k, p) && !(step.SWrite? && step.loc == loc)
    requires Reached(s.Vol(idx).torrent, idx, loc, k, p)
    ensures Painted(s', m, idx, loc, data, k, p)
  {
    forall i | Outstanding(s', i, loc) ensures i == m {
      OutstandingBefore(s, step, s', loc, i);
    }
    JobStays(s, step, s', m);
    if s.jobs[m].AsyncWriting() {
      BufferStays(s, step, m);
    }
    StageStep(s, step, s', m, idx, loc, data, k, p);
  }

  /** Call `m` is the last of the first `u` steps that writes the block. */
  ghost predicate LastWrite(steps: seq<Step>, u: nat, m: nat, loc: Loc) {
    && m < u <= |steps| && steps[m].SWrite? && steps[m].loc == loc
    && forall i :: m < i < u ==> !(steps[i].SWrite? && steps[i].loc == loc)
  }

  /** Call `m` is the last write of the byte's block, and was made with no other write of the block outstanding. */
  ghost predicate LastWritten(run: seq<State>, steps: seq<Step>, u: nat, m: nat, idx: nat, p: nat) {
    && u < |run| && run[u].Has(idx) && p < Total(run[u].Vol(idx).torrent) && run[u].Vol(idx).born < m
    && Disjoint(run[u].Vol(idx).torrent.files) && Solid(run[u].Vol(idx).torrent, p)
    && LastWrite(steps, u, m, LocOf(run[u].Vol(idx).torrent, idx, p))
    && m + 1 < |run| && Exclusive(run[m + 1], LocOf(run[u].Vol(idx).torrent, idx, p))
  }

  lemma CallPaints(run: seq<State>, steps: seq<Step>, m: nat, idx: nat, p: nat)
    requires Execution(run, steps) && LastWritten(run, steps, m + 1, m, idx, p)
    ensures var t := run[m + 1].Vol(idx).torrent;
      Painted(run[m + 1], m, idx, LocOf(t, idx, p), steps[m].data, OffsetInBlock(t, p), p)
  {
    var step := steps[m];
    RunVolumeStep(run, steps, m + 1, idx);
    assert run[m].now == m by {
      RunInv(run, steps, m);
    }
    assert StepAt(run, steps, m);
    var t := run[m].Vol(idx).torrent;
    OffsetIsDistance(t, idx, p);
    BlocksTile(t, step.loc, p);
    WritePaints(run[m], step.loc, step.data, step.o, step.mallocOk, step.junk, p, OffsetInBlock(t, p));
  }

  lemma RunPaintedStep(run: seq<State>, steps: seq<Step>, u: nat, m: nat, idx: nat, p: nat, loc: Loc, k: nat)
    requires Execution(run, steps) && m + 1 < u < |run| && run[u].Has(idx) && SameStorage(run[u - 1], run[u], idx)
    requires !(steps[u - 1].SWrite? && steps[u - 1].loc == loc) && steps[m].SWrite?
    requires Reached(run[u].Vol(idx).torrent, idx, loc, k, p) && Painted(run[u - 1], m, idx, loc, steps[m].data, k, p)
    ensures Painted(run[u], m, idx, loc, steps[m].data, k, p)
  {
    RunInv(run, steps, u - 1);
    assert StepAt(run, steps, u - 1);
    PaintedStep(run[u - 1], steps[u - 1], run[u], m, idx, loc, steps[m].data, k, p);
  }

  lemma {:induction false} LastWritePaints(run: seq<State>, steps: seq<Step>, u: nat, m: nat, idx: nat, p: nat)
    requires Execution(run, steps) && LastWritten(run, steps, u, m, idx, p)
    ensures var t := run[u].Vol(idx).torrent;
      Painted(run[u], m, idx, LocOf(t, idx, p), steps[m].data, OffsetInBlock(t, p), p)
    decreases u
  {
    if u == m + 1 {
      CallPaints(run, steps, m, idx, p);
    } else {
      var t := run[u].Vol(idx).torrent;
      RunVolumeStep(run, steps, u, idx);
      LastWritePaints(run, steps, u - 1, m, idx, p);
      RunPaintedStep(run, steps, u, m, idx, p, LocOf(t, idx, p), OffsetInBlock(t, p));
    }
  }

  /**
    The last write wins: if the last write of a block was made with no other one outstanding, then
    once it has ended, a byte of the block that writes reach is that write's data in the image
    and on the disk, whatever overlaps there were before and whether it was written
    from a buffer or at once.
   */
  lemma LastWriteWins(run: seq<State>, steps: seq<Step>, u: nat, m: nat, idx: nat, p: nat)
    requires Execution(run, steps) && LastWritten(run, steps, u, m, idx, p)
    ensures var v, k := run[u].Vol(idx), OffsetInBlock(run[u].Vol(idx).torrent, p);
      && m in run[u].jobs && k < |steps[m].data|
      && (!run[u].jobs[m].Running() ==> v.image(p) == steps[m].data[k] && DiskByte(v, p) == steps[m].data[k])
  {
    LastWritePaints(run, steps, u, m, idx, p);
  }

  /** So such a write, once ended, puts its bytes in order again, whatever happened before. */
  lemma InOrderAfterWrite(run: seq<State>, steps: seq<Step>, u: nat, m: nat, idx: nat, p: nat)
    requires Execution(run, steps) && LastWritten(run, steps, u, m, idx, p)
    requires m in run[u].jobs && !run[u].jobs[m].Running()
    ensures Watched(run, u, u, idx, p)
  {
    var loc := LocOf(run[u].Vol(idx).torrent, idx, p);
    LastWritePaints(run, steps, u, m, idx, p);
    assert forall j :: AsyncAt(run[u], j, loc) ==> Outstanding(run[u], j, loc);
    RunInv(run, steps, u);
    NoEntryWithoutWrite(run[u], loc);
  }
}
