/**
  Where bytes come from, with no assumption on overlapping writes: nothing that the backend
  stores or returns is made up, and what is on the disk is decided by the last flush.
 */
module Provenance {
  import opened Basics
  import opened Extents
  import opened Torrents
  import opened BufferPools
  import opened DiskSystem
  import opened Safety
  import opened Completion
  import opened Coherence
  import opened FailedWrites
  import opened ImageHistory
  import opened ReadCoherence
  import opened HashCoherence

  // ---------- what a write carries ----------

  /** Whatever a write job still has of its data is what it was called with. */
  ghost predicate Carries(s: State, j: JobId, loc: Loc, data: seq<byte>) {
    && j in s.jobs && s.jobs[j].req == WriteReq(loc, |data|) && |data| <= BLOCK
    && (s.jobs[j].stage.Writing? && s.jobs[j].stage.direct.Some? ==> s.jobs[j].stage.direct.value == data)
    && (j in s.heap ==> forall k :: 0 <= k < |data| ==> s.heap[j][k] == data[k])
  }

  lemma CallCarries(s: State, loc: Loc, data: seq<byte>, o: Option<Observer>, mallocOk: bool, junk: seq<byte>)
    requires CanIssueWrite(s, loc, data, junk) && s.now !in s.heap
    ensures Carries(IssueWrite(s, loc, data, o, mallocOk, junk), s.now, loc, data)
  {
  }

  lemma OwnStepKeepsData(s: State, step: Step, s': State, j: JobId)
    requires Enabled(s, step) && s' == Next(s, step) && IsStepOf(step, j) && j in s.jobs && j in s'.jobs && s'.jobs[j].stage.Writing?
    requires s.jobs[j].req.WriteReq?
    ensures s.jobs[j].stage.Writing? && s'.jobs[j].stage.direct == s.jobs[j].stage.direct
  {
    match step {
      case SFlush(_, _) =>
      case SFailFlush(_) =>
      case _ =>
    }
  }

  lemma HeapOnlyLoses(s: State, step: Step, j: JobId)
    requires Enabled(s, step) && j != s.now && j in Next(s, step).heap
    ensures j in s.heap && Next(s, step).heap[j] == s.heap[j]
  {
    if !step.SWrite? && !step.SFreeWrite? {
      HeapStep(s, step);
    }
  }

  lemma BufferAt(run: seq<State>, steps: seq<Step>, u: nat, j: JobId)
    requires Execution(run, steps) && j + 1 < u < |run| && j in run[u].heap
    ensures j in run[u - 1].heap && run[u].heap[j] == run[u - 1].heap[j]
  {
    assert run[u - 1].now == u - 1 by {
      RunInv(run, steps, u - 1);
    }
    assert StepAt(run, steps, u - 1);
    HeapOnlyLoses(run[u - 1], steps[u - 1], j);
  }

  lemma DirectAt(run: seq<State>, steps: seq<Step>, u: nat, j: JobId)
    requires Execution(run, steps) && j + 1 < u < |run| && j in run[u - 1].jobs && j in run[u].jobs
    requires run[u - 1].jobs[j].req.WriteReq? && run[u].jobs[j].stage.Writing?
    ensures run[u - 1].jobs[j].stage.Writing? && run[u].jobs[j].stage.direct == run[u - 1].jobs[j].stage.direct
  {
    var s, step := run[u - 1], steps[u - 1];
    RunInv(run, steps, u - 1);
    assert StepAt(run, steps, u - 1);
    if IsStepOf(step, j) {
      OwnStepKeepsData(s, step, run[u], j);
    } else {
      OthersKeepJob(s, step, run[u], j);
    }
  }

  lemma RunCarriesStep(run: seq<State>, steps: seq<Step>, u: nat, j: JobId, loc: Loc, data: seq<byte>)
    requires Execution(run, steps) && j + 1 < u < |run| && j in run[u].jobs && Carries(run[u - 1], j, loc, data)
    ensures Carries(run[u], j, loc, data)
  {
    RunJobStays(run, steps, u, j);
    if j in run[u].heap {
      BufferAt(run, steps, u, j);
    }
    if run[u].jobs[j].stage.Writing? {
      DirectAt(run, steps, u, j);
    }
  }

  lemma BirthCarries(run: seq<State>, steps: seq<Step>, j: JobId)
    requires Execution(run, steps) && j + 1 < |run| && j in run[j + 1].jobs && run[j + 1].jobs[j].req.WriteReq?
    ensures steps[j].SWrite? && Carries(run[j + 1], j, steps[j].loc, steps[j].data)
  {
    RunJobBirth(run, steps, j);
    assert j !in run[j].heap by {
      RunInv(run, steps, j);
      NameIsFresh(run[j]);
    }
    CallCarries(run[j], steps[j].loc, steps[j].data, steps[j].o, steps[j].mallocOk, steps[j].junk);
  }

  /** In every run a write job is the call whose number it has, and its buffer holds that call's data as long as it lives. */
  lemma {:induction false} WriteCarries(run: seq<State>, steps: seq<Step>, u: nat, j: JobId)
    requires Execution(run, steps) && j < u < |run| && j in run[u].jobs && run[u].jobs[j].req.WriteReq?
    ensures steps[j].SWrite? && Carries(run[u], j, steps[j].loc, steps[j].data)
    decreases u
  {
    if u == j + 1 {
      BirthCarries(run, steps, j);
    } else {
      RunJobStays(run, steps, u, j);
      WriteCarries(run, steps, u - 1, j);
      RunCarriesStep(run, steps, u, j, steps[j].loc, steps[j].data);
    }
  }

  // ---------- the last flush and the last paint ----------

  /** The write whose flush stored byte `p` last since the storage was added. */
  function FlushedBy(run: seq<State>, steps: seq<Step>, u: nat, idx: nat, born: nat, p: nat): Option<JobId>
    requires u <= |steps| && u < |run|
  {
    if u <= born + 1 then None
    else if Stores(run[u - 1], steps[u - 1], idx, p) then Some(steps[u - 1].j)
    else FlushedBy(run, steps, u - 1, idx, born, p)
  }

  /** The write that gave the image its byte `p` last: at its call if it got a buffer, and else as it was flushed. */
  function PaintedBy(run: seq<State>, steps: seq<Step>, u: nat, idx: nat, born: nat, p: nat, loc: Loc): Option<JobId>
    requires u <= |steps| && u < |run|
  {
    if u <= born + 1 then None
    else
      var s, step := run[u - 1], steps[u - 1];
      if step.SWrite? && step.loc == loc && AllocateWatched(s.writePool, step.mallocOk, step.o).1 then Some(u - 1)
      else if Stores(s, step, idx, p) && s.jobs[step.j].stage.direct.Some? then Some(step.j)
      else PaintedBy(run, steps, u - 1, idx, born, p, loc)
  }

  /** Byte `k` of the data of a write call, or the partition's original byte when there was none. */
  function ByteFrom(run: seq<State>, steps: seq<Step>, idx: nat, born: nat, p: nat, k: nat, writer: Option<JobId>): Option<byte> {
    match writer
    case None => Original(run, idx, born, p)
    case Some(j) =>
      if j < |steps| && steps[j].SWrite? && k < |steps[j].data| then Some(steps[j].data[k]) else None
  }

  /** What a flush stores is the data of its own call, at the byte's place in its block. */
  lemma StoresData(s: State, j: JobId, n: nat, idx: nat, p: nat, loc: Loc, data: seq<byte>)
    requires Stores(s, SFlush(j, n), idx, p) && JobHere(s, j) && Carries(s, j, loc, data)
    requires Disjoint(s.Vol(idx).torrent.files) && p < Total(s.Vol(idx).torrent)
    ensures var v, k := Flush(s, j, n).Vol(idx), OffsetInBlock(s.Vol(idx).torrent, p);
      && loc == LocOf(s.Vol(idx).torrent, idx, p) && k < |data| && DiskByte(v, p) == data[k]
      && (s.jobs[j].stage.direct.Some? ==> v.image(p) == data[k])
  {
    var v, done := s.Vol(idx), s.jobs[j].stage.done;
    BlocksTile(v.torrent, loc, p);
    OffsetIsDistance(v.torrent, idx, p);
    var bytes := Source(s, j)[done..done + n];
    PokeLogical(v.torrent, v.disk, WritePos(s, j), bytes, p);
    assert Source(s, j)[OffsetInBlock(v.torrent, p)] == bytes[p - WritePos(s, j)];
  }

  /** A write that has stored or painted a byte of a storage was called on that storage, for that byte's block. */
  ghost predicate IsWriterOf(steps: seq<Step>, u: nat, j: JobId, born: nat, loc: Loc, k: nat) {
    born < j < u <= |steps| && steps[j].SWrite? && steps[j].loc == loc && k < |steps[j].data|
  }

  /** A flush step of a run: the job it belongs to is on this storage and carries the data of its call. */
  lemma FlushInRun(run: seq<State>, steps: seq<Step>, u: nat, idx: nat, p: nat)
    requires Execution(run, steps) && 0 < u < |run| && Stores(run[u - 1], steps[u - 1], idx, p)
    requires Disjoint(run[u - 1].Vol(idx).torrent.files) && p < Total(run[u - 1].Vol(idx).torrent)
    ensures run[u].Has(idx)
    ensures var v, j := run[u - 1].Vol(idx), steps[u - 1].j;
      var loc, k := LocOf(v.torrent, idx, p), OffsetInBlock(v.torrent, p);
      && IsWriterOf(steps, u, j, v.born, loc, k) && run[u].Vol(idx).torrent == v.torrent
      && DiskByte(run[u].Vol(idx), p) == steps[j].data[k]
      && (run[u - 1].jobs[j].stage.direct.Some? ==> run[u].Vol(idx).image(p) == steps[j].data[k])
  {
    var j, n := steps[u - 1].j, steps[u - 1].n;
    FlushOf(run, steps, u);
    WriteCarries(run, steps, u - 1, j);
    StoresData(run[u - 1], j, n, idx, p, steps[j].loc, steps[j].data);
  }

  lemma RunNoStore(run: seq<State>, steps: seq<Step>, u: nat, idx: nat, p: nat)
    requires Execution(run, steps) && 0 < u < |run| && SameStorage(run[u - 1], run[u], idx) && !Stores(run[u - 1], steps[u - 1], idx, p)
    requires Disjoint(run[u].Vol(idx).torrent.files) && p < Total(run[u].Vol(idx).torrent)
    ensures DiskByte(run[u].Vol(idx), p) == DiskByte(run[u - 1].Vol(idx), p)
  {
    RunInv(run, steps, u - 1);
    assert StepAt(run, steps, u - 1);
    NoStoreNoChange(run[u - 1], steps[u - 1], run[u], idx, p);
  }

  /** Writer and value of a byte. */
  ghost predicate ComesFrom(run: seq<State>, steps: seq<Step>, u: nat, idx: nat, v: Volume, p: nat, writer: Option<JobId>, b: byte) {
    var loc, k := LocOf(v.torrent, idx, p), OffsetInBlock(v.torrent, p);
    && (writer.Some? ==> u <= |steps| && IsWriterOf(steps, u, writer.value, v.born, loc, k))
    && ByteFrom(run, steps, idx, v.born, p, k, writer) == Some(b)
  }

  lemma FreshByte(run: seq<State>, steps: seq<Step>, u: nat, idx: nat, p: nat)
    requires Execution(run, steps) && u < |run| && run[u].Has(idx) && run[u].Vol(idx).born + 1 == u && p < Total(run[u].Vol(idx).torrent)
    ensures ComesFrom(run, steps, u, idx, run[u].Vol(idx), p, None, DiskByte(run[u].Vol(idx), p))
    ensures ComesFrom(run, steps, u, idx, run[u].Vol(idx), p, None, run[u].Vol(idx).image(p))
  {
    StorageWasFresh(run, steps, u, idx);
  }

  /** In every state a disk byte is the data of the write that flushed it last, or what the partition held before. */
  lemma {:induction false} DiskIsLastFlush(run: seq<State>, steps: seq<Step>, u: nat, idx: nat, p: nat)
    requires Execution(run, steps) && u < |run| && run[u].Has(idx)
    requires Disjoint(run[u].Vol(idx).torrent.files) && p < Total(run[u].Vol(idx).torrent)
    ensures var v := run[u].Vol(idx);
      ComesFrom(run, steps, u, idx, v, p, FlushedBy(run, steps, u, idx, v.born, p), DiskByte(v, p))
  {
    var v := run[u].Vol(idx);
    StorageWasFresh(run, steps, u, idx);
    RunVolumeStep(run, steps, u, idx);
    if u == v.born + 1 {
      FreshByte(run, steps, u, idx, p);
    } else if Stores(run[u - 1], steps[u - 1], idx, p) {
      FlushInRun(run, steps, u, idx, p);
    } else {
      DiskIsLastFlush(run, steps, u - 1, idx, p);
      RunNoStore(run, steps, u, idx, p);
    }
  }

  /** The step gives the image its byte `p`. */
  predicate Paints(s: State, step: Step, idx: nat, p: nat, loc: Loc) {
    || (step.SWrite? && step.loc == loc && AllocateWatched(s.writePool, step.mallocOk, step.o).1)
    || (Stores(s, step, idx, p) && s.jobs[step.j].stage.direct.Some?)
  }

  lemma SyncCallKeepsImage(s: State, step: Step, s': State, idx: nat)
    requires step.SWrite? && Enabled(s, step) && s' == Next(s, step) && s.Has(idx)
    requires !AllocateWatched(s.writePool, step.mallocOk, step.o).1
    ensures s'.slots == s.slots
  {
  }

  lemma FlushPaintsNothing(s: State, j: JobId, n: nat, idx: nat, p: nat)
    requires CanFlush(s, j, n) && s.Has(idx) && s.jobs[j].stage.direct.None?
    ensures Flush(s, j, n).Has(idx) && Flush(s, j, n).Vol(idx).image == s.Vol(idx).image
  {
  }

  lemma NoPaintNoChange(s: State, step: Step, s': State, idx: nat, p: nat, loc: Loc)
    requires Inv(s) && Enabled(s, step) && s' == Next(s, step) && SameStorage(s, s', idx) && Disjoint(s.Vol(idx).torrent.files)
    requires p < Total(s.Vol(idx).torrent) && loc == LocOf(s.Vol(idx).torrent, idx, p) && !Paints(s, step, idx, p, loc)
    ensures s'.Vol(idx).image(p) == s.Vol(idx).image(p)
  {
    if step.SFlush? {
      if Stores(s, step, idx, p) {
        FlushPaintsNothing(s, step.j, step.n, idx, p);
      } else {
        FlushElsewhereInStorage(s, step.j, step.n, idx, p);
      }
    } else if step.SWrite? && step.loc == loc {
      SyncCallKeepsImage(s, step, s', idx);
    } else {
      ImageStep(s, step, s', idx, p);
    }
  }

  lemma RunNoPaint(run: seq<State>, steps: seq<Step>, u: nat, idx: nat, p: nat, loc: Loc)
    requires Execution(run, steps) && 0 < u < |run| && SameStorage(run[u - 1], run[u], idx) && !Paints(run[u - 1], steps[u - 1], idx, p, loc)
    requires Disjoint(run[u].Vol(idx).torrent.files) && p < Total(run[u].Vol(idx).torrent)
    requires loc == LocOf(run[u].Vol(idx).torrent, idx, p)
    ensures run[u].Vol(idx).image(p) == run[u - 1].Vol(idx).image(p)
  {
    RunInv(run, steps, u - 1);
    assert StepAt(run, steps, u - 1);
    NoPaintNoChange(run[u - 1], steps[u - 1], run[u], idx, p, loc);
  }

  lemma CallInRun(run: seq<State>, steps: seq<Step>, u: nat, idx: nat, p: nat)
    requires Execution(run, steps) && 0 < u < |run| && run[u - 1].Has(idx) && steps[u - 1].SWrite?
    requires AllocateWatched(run[u - 1].writePool, steps[u - 1].mallocOk, steps[u - 1].o).1
    requires p < Total(run[u - 1].Vol(idx).torrent) && steps[u - 1].loc == LocOf(run[u - 1].Vol(idx).torrent, idx, p)
    ensures var k := OffsetInBlock(run[u - 1].Vol(idx).torrent, p);
      run[u].Has(idx) && k < |steps[u - 1].data| && run[u].Vol(idx).image(p) == steps[u - 1].data[k]
  {
    var s, step, t := run[u - 1], steps[u - 1], run[u - 1].Vol(idx).torrent;
    assert StepAt(run, steps, u - 1);
    OffsetIsDistance(t, idx, p);
    BlocksTile(t, step.loc, p);
    AsyncCallPaints(s, step.loc, step.data, step.o, step.mallocOk, step.junk, p, OffsetInBlock(t, p));
  }

  /** In every state an image byte is the data of the write that painted it last, or what the partition held before. */
  lemma {:induction false} ImageIsLastPaint(run: seq<State>, steps: seq<Step>, u: nat, idx: nat, p: nat)
    requires Execution(run, steps) && u < |run| && run[u].Has(idx)
    requires Disjoint(run[u].Vol(idx).torrent.files) && p < Total(run[u].Vol(idx).torrent)
    ensures var v := run[u].Vol(idx);
      ComesFrom(run, steps, u, idx, v, p, PaintedBy(run, steps, u, idx, v.born, p, LocOf(v.torrent, idx, p)), v.image(p))
  {
    var v, loc := run[u].Vol(idx), LocOf(run[u].Vol(idx).torrent, idx, p);
    StorageWasFresh(run, steps, u, idx);
    RunVolumeStep(run, steps, u, idx);
    if u == v.born + 1 {
      FreshByte(run, steps, u, idx, p);
    } else if !Paints(run[u - 1], steps[u - 1], idx, p, loc) {
      ImageIsLastPaint(run, steps, u - 1, idx, p);
      RunNoPaint(run, steps, u, idx, p, loc);
    } else if steps[u - 1].SWrite? {
      CallInRun(run, steps, u, idx, p);
    } else {
      FlushInRun(run, steps, u, idx, p);
    }
  }

  /**
    Exactly when the disk has the image's byte, in every state of every run and however writes
    overlap: when the write that was flushed last and the write that painted last wrote the
    same value there, in particular when they are the same write.
   */
  lemma DiskIsImageExactly(run: seq<State>, steps: seq<Step>, u: nat, idx: nat, p: nat)
    requires Execution(run, steps) && u < |run| && run[u].Has(idx)
    requires Disjoint(run[u].Vol(idx).torrent.files) && p < Total(run[u].Vol(idx).torrent)
    ensures var v, k := run[u].Vol(idx), OffsetInBlock(run[u].Vol(idx).torrent, p);
      var flushed, painted := FlushedBy(run, steps, u, idx, v.born, p), PaintedBy(run, steps, u, idx, v.born, p, LocOf(v.torrent, idx, p));
      && (DiskByte(v, p) == v.image(p)
          <==> ByteFrom(run, steps, idx, v.born, p, k, flushed) == ByteFrom(run, steps, idx, v.born, p, k, painted))
      && (flushed == painted ==> DiskByte(v, p) == v.image(p))
  {
    DiskIsLastFlush(run, steps, u, idx, p);
    ImageIsLastPaint(run, steps, u, idx, p);
  }

  // ---------- what the store buffer holds ----------

  /** A write call that gets a buffer. */
  predicate Buffered(s: State, step: Step, loc: Loc) {
    step.SWrite? && step.loc == loc && s.writePool.size < 1024 && step.mallocOk
  }

  /** The end of an asynchronous write of the block. */
  predicate UnIndexes(s: State, step: Step, loc: Loc) {
    step.SFinishWrite? && step.j in s.jobs && s.jobs[step.j].AsyncWriting() && s.jobs[step.j].req.loc == loc
  }

  /** The first write of the block that got a buffer since an asynchronous write of the block last ended. */
  function IndexedBy(run: seq<State>, steps: seq<Step>, u: nat, loc: Loc): Option<JobId>
    requires u <= |steps| && u < |run|
  {
    if u == 0 || UnIndexes(run[u - 1], steps[u - 1], loc) then None
    else
      var before := IndexedBy(run, steps, u - 1, loc);
      if before.None? && Buffered(run[u - 1], steps[u - 1], loc) then Some(u - 1) else before
  }

  function Lookup(store: map<Loc, JobId>, loc: Loc): Option<JobId> {
    if loc in store then Some(store[loc]) else None
  }

  lemma CallIndexes(s: State, step: Step, loc: Loc)
    requires step.SWrite? && Enabled(s, step)
    ensures Lookup(Next(s, step).store, loc)
      == if Lookup(s.store, loc).None? && Buffered(s, step, loc) then Some(s.now) else Lookup(s.store, loc)
  {
    AllocationAnswer(s.writePool, step.mallocOk);
  }

  lemma EndUnIndexes(s: State, step: Step, loc: Loc)
    requires step.SFinishWrite? && Enabled(s, step)
    ensures Lookup(Next(s, step).store, loc) == if UnIndexes(s, step, loc) then None else Lookup(s.store, loc)
  {
  }

  lemma ReadCallKeepsStore(s: State, step: Step)
    requires step.SRead? && Enabled(s, step)
    ensures Next(s, step).store == s.store
  {
  }

  lemma StoreStep(s: State, step: Step)
    requires Enabled(s, step) && !step.SWrite? && !step.SFinishWrite?
    ensures Next(s, step).store == s.store
  {
    if step.SRead? {
      ReadCallKeepsStore(s, step);
    }
  }

  lemma RunStoreStep(run: seq<State>, steps: seq<Step>, u: nat, loc: Loc)
    requires Execution(run, steps) && 0 < u < |run|
    ensures Lookup(run[u].store, loc)
      == if UnIndexes(run[u - 1], steps[u - 1], loc) then None
         else if Lookup(run[u - 1].store, loc).None? && Buffered(run[u - 1], steps[u - 1], loc) then Some(u - 1)
         else Lookup(run[u - 1].store, loc)
  {
    var s, step := run[u - 1], steps[u - 1];
    assert s.now == u - 1 by {
      RunInv(run, steps, u - 1);
    }
    assert StepAt(run, steps, u - 1);
    if step.SWrite? {
      CallIndexes(s, step, loc);
    } else if step.SFinishWrite? {
      EndUnIndexes(s, step, loc);
    } else {
      StoreStep(s, step);
    }
  }

  /**
    Exactly what the store buffer holds, in every run and however writes overlap: a block has an
    entry from the first write of it that gets a buffer until an asynchronous write of
    it ends, and the entry is the buffer of that first write.
   */
  lemma {:induction false} IndexExactly(run: seq<State>, steps: seq<Step>, u: nat, loc: Loc)
    requires Execution(run, steps) && u < |run|
    ensures Lookup(run[u].store, loc) == IndexedBy(run, steps, u, loc)
  {
    if u > 0 {
      IndexExactly(run, steps, u - 1, loc);
      RunStoreStep(run, steps, u, loc);
    }
  }

  // ---------- nothing is made up ----------

  /** `b` is what some write call of the byte's own block, on this very storage, had there, or the partition's original byte. */
  ghost predicate Genuine(run: seq<State>, steps: seq<Step>, u: nat, idx: nat, t: Torrent, born: nat, p: nat, b: byte) {
    || Original(run, idx, born, p) == Some(b)
    || exists j: nat :: IsWriterOf(steps, u, j, born, LocOf(t, idx, p), OffsetInBlock(t, p)) && steps[j].data[OffsetInBlock(t, p)] == b
  }

  lemma GenuineLater(run: seq<State>, steps: seq<Step>, u: nat, u': nat, idx: nat, t: Torrent, born: nat, p: nat, b: byte)
    requires u <= u' <= |steps| && Genuine(run, steps, u, idx, t, born, p, b)
    ensures Genuine(run, steps, u', idx, t, born, p, b)
  {
    if Original(run, idx, born, p) != Some(b) {
      var j: nat :| IsWriterOf(steps, u, j, born, LocOf(t, idx, p), OffsetInBlock(t, p)) && steps[j].data[OffsetInBlock(t, p)] == b;
      assert IsWriterOf(steps, u', j, born, LocOf(t, idx, p), OffsetInBlock(t, p));
    }
  }

  lemma DiskIsGenuine(run: seq<State>, steps: seq<Step>, u: nat, idx: nat, p: nat)
    requires Execution(run, steps) && u < |run| && run[u].Has(idx)
    requires Disjoint(run[u].Vol(idx).torrent.files) && p < Total(run[u].Vol(idx).torrent)
    ensures var v := run[u].Vol(idx); Genuine(run, steps, u, idx, v.torrent, v.born, p, DiskByte(v, p))
  {
    DiskIsLastFlush(run, steps, u, idx, p);
  }

  lemma EntryIsGenuine(run: seq<State>, steps: seq<Step>, u: nat, idx: nat, p: nat)
    requires Execution(run, steps) && u < |run| && run[u].Has(idx) && p < Total(run[u].Vol(idx).torrent)
    requires LocOf(run[u].Vol(idx).torrent, idx, p) in run[u].store
    ensures var v := run[u].Vol(idx);
      var e := run[u].Entry(LocOf(v.torrent, idx, p));
      e.Some? && Genuine(run, steps, u, idx, v.torrent, v.born, p, e.value[OffsetInBlock(v.torrent, p)])
  {
    var v := run[u].Vol(idx);
    var loc, k := LocOf(v.torrent, idx, p), OffsetInBlock(v.torrent, p);
    NoDanglingEntries(run, steps, u, loc);
    SlotReuseIsolation(run, steps, u, loc);
    var j := run[u].store[loc];
    WriteCarries(run, steps, u, j);
    LocOfIsBlock(v.torrent, idx, p);
    OffsetIsDistance(v.torrent, idx, p);
    EntrySize(run, steps, u, j);
    assert IsWriterOf(steps, u, j, v.born, loc, k);
  }

  lemma EntrySize(run: seq<State>, steps: seq<Step>, u: nat, j: JobId)
    requires Execution(run, steps) && u < |run| && j in run[u].jobs && run[u].jobs[j].AsyncWriting()
    ensures var job := run[u].jobs[j]; IsBlock(job.torrent, job.req.loc) && job.req.size == BlockLen(job.torrent, job.req.loc)
  {
    RunInv(run, steps, u);
    assert JobFits(run[u].jobs[j]);
  }

  lemma ReadAtBirth(run: seq<State>, steps: seq<Step>, j: JobId, i: nat)
    requires Execution(run, steps) && j + 1 < |run| && j in run[j + 1].jobs
    requires run[j + 1].jobs[j].req.ReadReq? && i < run[j + 1].jobs[j].req.length && Delivered(run[j + 1].jobs[j], i).Some?
    ensures var job := run[j + 1].jobs[j];
      && 0 <= job.req.start && ReplyPos(job.torrent, job.req, i) < Total(job.torrent)
      && Genuine(run, steps, j, job.idx, job.torrent, job.born, ReplyPos(job.torrent, job.req, i), Delivered(job, i).value)
  {
    var job := run[j + 1].jobs[j];
    ReadBirth(run, steps, j, i);
    EntryIsGenuine(run, steps, j, job.idx, ReplyPos(job.torrent, job.req, i));
  }

  /** Every byte that a read delivers is genuine, in every run and however writes overlap. */
  lemma {:induction false} ReadIsGenuine(run: seq<State>, steps: seq<Step>, u: nat, j: JobId, i: nat)
    requires Execution(run, steps) && j < u < |run| && j in run[u].jobs && Disjoint(run[u].jobs[j].torrent.files)
    requires run[u].jobs[j].req.ReadReq? && i < run[u].jobs[j].req.length && Delivered(run[u].jobs[j], i).Some?
    ensures var job := run[u].jobs[j];
      && 0 <= job.req.start && ReplyPos(job.torrent, job.req, i) < Total(job.torrent)
      && Genuine(run, steps, u, job.idx, job.torrent, job.born, ReplyPos(job.torrent, job.req, i), Delivered(job, i).value)
    decreases u
  {
    var job := run[u].jobs[j];
    if u == j + 1 {
      ReadAtBirth(run, steps, j, i);
      GenuineLater(run, steps, j, u, job.idx, job.torrent, job.born, ReplyPos(job.torrent, job.req, i), Delivered(job, i).value);
    } else {
      RunReadMoves(run, steps, u, j, i);
      if Delivered(run[u - 1].jobs[j], i) == Delivered(job, i) {
        ReadIsGenuine(run, steps, u - 1, j, i);
      } else {
        DiskIsGenuine(run, steps, u - 1, job.idx, ReplyPos(job.torrent, job.req, i));
      }
      GenuineLater(run, steps, u - 1, u, job.idx, job.torrent, job.born, ReplyPos(job.torrent, job.req, i), Delivered(job, i).value);
    }
  }

  lemma HashedNow(run: seq<State>, steps: seq<Step>, u: nat, j: JobId, i: nat, b: byte)
    requires Execution(run, steps) && j < u < |run| && j in run[u].jobs && run[u].jobs[j].req.HashReq?
    requires Disjoint(run[u].jobs[j].torrent.files) && OnItsStorage(run[u].slots.storages, run[u].jobs[j])
    requires FromEntry(run[u], run[u].jobs[j], i, b) || FromDisk(run[u], run[u].jobs[j], i, b)
    ensures var job := run[u].jobs[j];
      && PiecePos(job.torrent, job.req.piece, i) < Total(job.torrent)
      && Genuine(run, steps, u, job.idx, job.torrent, job.born, PiecePos(job.torrent, job.req.piece, i), b)
  {
    var job := run[u].jobs[j];
    var p := PiecePos(job.torrent, job.req.piece, i);
    assert JobFits(job) by {
      RunInv(run, steps, u);
    }
    RoundIsBlock(job, i);
    if FromEntry(run[u], job, i, b) {
      EntryIsGenuine(run, steps, u, job.idx, p);
    } else {
      DiskIsGenuine(run, steps, u, job.idx, p);
    }
  }

  /** Every byte that goes to the hasher is genuine, in every run and however writes overlap. */
  lemma {:induction false} HashIsGenuine(run: seq<State>, steps: seq<Step>, u: nat, j: JobId, i: nat)
    requires Execution(run, steps) && j < u < |run| && j in run[u].jobs && Disjoint(run[u].jobs[j].torrent.files)
    requires run[u].jobs[j].req.HashReq? && Fed(run[u].jobs[j], i).Some?
    ensures var job := run[u].jobs[j];
      && PiecePos(job.torrent, job.req.piece, i) < Total(job.torrent)
      && Genuine(run, steps, u, job.idx, job.torrent, job.born, PiecePos(job.torrent, job.req.piece, i), Fed(job, i).value)
    decreases u
  {
    var job := run[u].jobs[j];
    if u == j + 1 {
      HashBirth(run, steps, j, i);
    } else {
      RunHashMoves(run, steps, u, j, i);
      if Fed(run[u - 1].jobs[j], i) == Fed(job, i) {
        HashIsGenuine(run, steps, u - 1, j, i);
      } else {
        HashedNow(run, steps, u - 1, j, i, Fed(job, i).value);
      }
      GenuineLater(run, steps, u - 1, u, job.idx, job.torrent, job.born, PiecePos(job.torrent, job.req.piece, i), Fed(job, i).value);
    }
  }
}
