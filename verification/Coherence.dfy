/**
  The store buffer and the disk against the last-write-wins image, byte by byte. The only
  assumption on callers is that writes of the byte's own block do not overlap in time. File
  names may fail to parse: a write then stops early, and which bytes it never reaches is
  decided by the layout alone.
 */
module Coherence {
  import opened Basics
  import opened Extents
  import opened Torrents
  import opened BufferPools
  import opened DiskSystem
  import opened Safety

  /** A write of block `loc` that has not yet been un-indexed, or not yet ended in the synchronous case. */
  predicate Outstanding(s: State, j: JobId, loc: Loc) {
    j in s.jobs && s.jobs[j].req.WriteReq? && s.jobs[j].stage.Writing? && s.jobs[j].req.loc == loc
  }

  /** At most one outstanding write of the block. */
  ghost predicate Exclusive(s: State, loc: Loc) {
    forall i, j :: Outstanding(s, i, loc) && Outstanding(s, j, loc) ==> i == j
  }

  /** Offset of a logical byte in its block. */
  function OffsetInBlock(t: Torrent, p: nat): (k: nat)
    ensures k < BLOCK
  {
    Within(p % t.pieceLength)
  }

  lemma OffsetIsDistance(t: Torrent, idx: nat, p: nat)
    ensures p == BlockStart(t, LocOf(t, idx, p)) + OffsetInBlock(t, p)
  {
    assert p == PieceStart(t, p / t.pieceLength) + p % t.pieceLength;
  }

  /** No name fails to parse from the start of the byte's block up to the byte, so a write of the block reaches it. */
  ghost predicate Solid(t: Torrent, p: nat)
    requires p < Total(t)
  {
    forall q: nat :: p - OffsetInBlock(t, p) <= q <= p ==> Address(t.files, q).Some?
  }

  /** Where every name parses every byte is reached. */
  lemma ParsedIsSolid(t: Torrent, p: nat)
    requires Parses(t.files) && p < Total(t)
    ensures Solid(t, p)
  {
  }

  function DiskByte(v: Volume, p: nat): byte
    requires p < Total(v.torrent)
  {
    if Address(v.torrent.files, p).Some? then v.disk(Address(v.torrent.files, p).value) else 0
  }

  predicate AsyncAt(s: State, j: JobId, loc: Loc) {
    j in s.jobs && s.jobs[j].AsyncWriting() && s.jobs[j].req.loc == loc
  }

  /** A pending write of the block is the indexed one, its buffer has the byte, and so has the disk once flushed. */
  predicate PendingOk(s: State, j: JobId, loc: Loc, v: Volume, p: nat)
    requires p < Total(v.torrent) && AsyncAt(s, j, loc)
  {
    var k := OffsetInBlock(v.torrent, p);
    && loc in s.store && s.store[loc] == j
    && j in s.heap && s.heap[j][k] == v.image(p)
    && (k < s.jobs[j].stage.done ==> DiskByte(v, p) == v.image(p))
  }

  /** The invariant of one logical byte: a pending write has it, and otherwise the disk has it if writes reach it. */
  ghost predicate ByteOk(s: State, idx: nat, v: Volume, p: nat)
    requires p < Total(v.torrent)
  {
    var loc := LocOf(v.torrent, idx, p);
    && (forall j :: AsyncAt(s, j, loc) ==> PendingOk(s, j, loc, v, p))
    && (loc !in s.store && Solid(v.torrent, p) ==> DiskByte(v, p) == v.image(p))
  }

  // ---------- what a pwrite does to one logical byte ----------

  lemma PokeLogical(t: Torrent, disk: Disk, pos: nat, bytes: seq<byte>, q: nat)
    requires Disjoint(t.files) && Transferable(t, pos, |bytes|) && q < Total(t)
    ensures Address(t.files, pos).Some? && (pos <= q < pos + |bytes| ==> Address(t.files, q).Some?)
    ensures Address(t.files, q).Some? ==>
      Poke(disk, Address(t.files, pos).value, bytes)(Address(t.files, q).value)
      == if pos <= q < pos + |bytes| then bytes[q - pos] else disk(Address(t.files, q).value)
  {
    if pos <= q < pos + |bytes| {
      FileRun(t.files, 0, pos, q - pos);
    } else if Address(t.files, q).Some? {
      var a, b := Address(t.files, pos).value, Address(t.files, q).value;
      if a <= b < a + |bytes| {
        FileRun(t.files, 0, pos, b - a);
        AddressInjective(t.files, q, pos + (b - a));
      }
    }
  }

  /** A transfer of `n` bytes from logical position `pos` delivers the disk byte of each position in it. */
  lemma PeekLogical(v: Volume, pos: nat, n: nat, i: nat)
    requires Transferable(v.torrent, pos, n) && i < n
    ensures pos + i < Total(v.torrent) && Address(v.torrent.files, pos).Some? && Address(v.torrent.files, pos + i).Some?
    ensures Peek(v.disk, Address(v.torrent.files, pos).value, n)[i] == DiskByte(v, pos + i)
  {
    FileRun(v.torrent.files, 0, pos, i);
  }

  // ---------- steps that leave a byte alone ----------

  /** Pending writes of the block keep their stage and their buffers, and its index entry stays. */
  ghost predicate KeepsWrites(s: State, s': State, loc: Loc) {
    && (loc in s'.store <==> loc in s.store) && (loc in s.store ==> s'.store[loc] == s.store[loc])
    && forall j :: AsyncAt(s', j, loc) ==>
      && AsyncAt(s, j, loc) && s'.jobs[j].stage == s.jobs[j].stage
      && (j in s.heap ==> j in s'.heap && s'.heap[j] == s.heap[j])
  }

  /** Two versions of a volume that agree on one logical byte. */
  predicate SameByte(v: Volume, v': Volume, p: nat)
    requires p < Total(v.torrent)
  {
    v'.torrent == v.torrent && v'.image(p) == v.image(p) && DiskByte(v', p) == DiskByte(v, p)
  }

  lemma ByteFrame(s: State, s': State, idx: nat, v: Volume, v': Volume, p: nat)
    requires p < Total(v.torrent) && ByteOk(s, idx, v, p) && SameByte(v, v', p)
    requires KeepsWrites(s, s', LocOf(v.torrent, idx, p))
    ensures ByteOk(s', idx, v', p)
  {
    var loc := LocOf(v.torrent, idx, p);
    forall j | AsyncAt(s', j, loc) ensures PendingOk(s', j, loc, v', p) {
      assert AsyncAt(s, j, loc) && PendingOk(s, j, loc, v, p);
    }
  }

  /** Steps that concern no storage, no index entry and no pending write. */
  predicate Aside(step: Step) {
    step.SFreeWrite? || step.SRead? || step.SReadSome? || step.SFinishRead? || step.SHash? || step.SHashLookup?
    || step.SHashSome? || step.SHashUpdate? || step.SFinishHash? || step.SHandle? || step.SFreeRead?
  }

  ghost predicate Untouched(s: State, s': State, loc: Loc) {
    s'.slots == s.slots && KeepsWrites(s, s', loc)
  }

  lemma ReadCallUntouched(s: State, idx: nat, piece: nat, start: int, length: int, mallocOk: bool, junk: seq<byte>, loc: Loc)
    requires CanIssueRead(s, idx, piece, start, length, junk)
    ensures Untouched(s, IssueRead(s, idx, piece, start, length, mallocOk, junk), loc)
  {
    if 0 < length && 0 <= start {
      FrontBounds(s, idx, piece, start - Within(start), Within(start), length, junk);
    }
  }

  lemma StageUntouched(s: State, j: JobId, stage: Stage, s': State, loc: Loc)
    requires j in s.jobs && s'.jobs == s.jobs[j := s.jobs[j].(stage := stage)] && !stage.Writing?
    requires s'.slots == s.slots && s'.store == s.store && s'.heap == s.heap
    ensures Untouched(s, s', loc)
  {
  }

  lemma ReadUntouched(s: State, j: JobId, n: nat, loc: Loc)
    ensures CanReadSome(s, j, n) ==> Untouched(s, ReadSome(s, j, n), loc)
    ensures CanFinishRead(s, j) ==> Untouched(s, FinishRead(s, j), loc)
  {
    if CanReadSome(s, j, n) {
      StageUntouched(s, j, ReadSome(s, j, n).jobs[j].stage, ReadSome(s, j, n), loc);
    }
    if CanFinishRead(s, j) {
      StageUntouched(s, j, FinishRead(s, j).jobs[j].stage, FinishRead(s, j), loc);
    }
  }

  lemma HashUntouched(s: State, j: JobId, n: nat, loc: Loc)
    ensures CanHashLookup(s, j) ==> Untouched(s, HashLookup(s, j), loc)
    ensures CanHashSome(s, j, n) ==> Untouched(s, HashSome(s, j, n), loc)
    ensures CanHashUpdate(s, j) ==> Untouched(s, HashUpdate(s, j), loc)
    ensures CanFinishHash(s, j) ==> Untouched(s, FinishHash(s, j), loc)
  {
    if CanHashLookup(s, j) {
      StageUntouched(s, j, HashLookup(s, j).jobs[j].stage, HashLookup(s, j), loc);
    }
    if CanHashSome(s, j, n) {
      StageUntouched(s, j, HashSome(s, j, n).jobs[j].stage, HashSome(s, j, n), loc);
    }
    if CanHashUpdate(s, j) {
      StageUntouched(s, j, HashUpdate(s, j).jobs[j].stage, HashUpdate(s, j), loc);
    }
    if CanFinishHash(s, j) {
      StageUntouched(s, j, FinishHash(s, j).jobs[j].stage, FinishHash(s, j), loc);
    }
  }

  lemma EndUntouched(s: State, j: JobId, loc: Loc)
    ensures CanFreeWrite(s, j) ==> Untouched(s, FreeWrite(s, j), loc)
    ensures CanHandle(s, j) ==> Untouched(s, Handle(s, j), loc)
    ensures CanFreeRead(s, j) ==> Untouched(s, FreeRead(s, j), loc)
  {
    if CanHandle(s, j) {
      StageUntouched(s, j, Handle(s, j).jobs[j].stage, Handle(s, j), loc);
    }
  }

  lemma AsideUntouched(s: State, step: Step, loc: Loc)
    requires Enabled(s, step) && Aside(step)
    ensures Untouched(s, Next(s, step), loc)
  {
    match step {
      case SRead(idx, piece, start, length, mallocOk, junk) =>
        ReadCallUntouched(s, idx, piece, start, length, mallocOk, junk, loc);
      case SReadSome(j, n) => ReadUntouched(s, j, n, loc);
      case SFinishRead(j) => ReadUntouched(s, j, 0, loc);
      case SHash(_, _, _) =>
      case SHashLookup(j) => HashUntouched(s, j, 0, loc);
      case SHashSome(j, n) => HashUntouched(s, j, n, loc);
      case SHashUpdate(j) => HashUntouched(s, j, 0, loc);
      case SFinishHash(j) => HashUntouched(s, j, 0, loc);
      case SFreeWrite(j) => EndUntouched(s, j, loc);
      case SHandle(j) => EndUntouched(s, j, loc);
      case SFreeRead(j) => EndUntouched(s, j, loc);
    }
  }

  // ---------- writes ----------

  /** What a step does to one byte of a storage that stays: the disk byte is kept or becomes current. */
  ghost predicate ByteKept(s: State, s': State, idx: nat, p: nat) {
    && SameStorage(s, s', idx) && p < Total(s.Vol(idx).torrent)
    && ByteOk(s', idx, s'.Vol(idx), p)
    && (DiskByte(s'.Vol(idx), p) == DiskByte(s.Vol(idx), p) || DiskByte(s'.Vol(idx), p) == s'.Vol(idx).image(p))
  }

  /** The byte's storage and its invariant before a step. */
  ghost predicate ByteBefore(s: State, idx: nat, p: nat) {
    s.Has(idx) && Disjoint(s.Vol(idx).torrent.files) && p < Total(s.Vol(idx).torrent) && ByteOk(s, idx, s.Vol(idx), p)
  }

  /** With no pending write of the block it has no entry, so the disk byte is current. */
  lemma NoEntryWithoutWrite(s: State, loc: Loc)
    requires Inv(s) && forall j :: !AsyncAt(s, j, loc)
    ensures loc !in s.store
  {
    if loc in s.store {
      assert AsyncAt(s, s.store[loc], loc);
    }
  }

  lemma PaintElsewhere(t: Torrent, image: Image, loc: Loc, from: nat, bytes: seq<byte>, p: nat)
    requires IsBlock(t, loc) && from + |bytes| <= BlockLen(t, loc) && p < Total(t)
    requires LocOf(t, loc.torrent, p) != loc
    ensures Paint(image, BlockStart(t, loc) + from, bytes)(p) == image(p)
    ensures !(BlockStart(t, loc) + from <= p < BlockStart(t, loc) + from + |bytes|)
  {
    BlocksTile(t, loc, p);
  }

  lemma FreshWriteInOrder(s: State, loc: Loc, data: seq<byte>, o: Option<Observer>, mallocOk: bool, junk: seq<byte>, p: nat)
    requires CanIssueWrite(s, loc, data, junk) && AllocateWatched(s.writePool, mallocOk, o).1
    requires p < Total(s.Vol(loc.torrent).torrent) && loc == LocOf(s.Vol(loc.torrent).torrent, loc.torrent, p)
    requires loc !in s.store && forall j :: !AsyncAt(s, j, loc)
    ensures var s' := IssueWrite(s, loc, data, o, mallocOk, junk);
      s'.Has(loc.torrent) && s'.Vol(loc.torrent).torrent == s.Vol(loc.torrent).torrent
      && s'.Vol(loc.torrent).born == s.Vol(loc.torrent).born && ByteOk(s', loc.torrent, s'.Vol(loc.torrent), p)
  {
    var s', t := IssueWrite(s, loc, data, o, mallocOk, junk), s.Vol(loc.torrent).torrent;
    OffsetIsDistance(t, loc.torrent, p);
    BlocksTile(t, loc, p);
    forall j | AsyncAt(s', j, loc) ensures PendingOk(s', j, loc, s'.Vol(loc.torrent), p) {
      assert j == s.now by { assert !AsyncAt(s, j, loc); }
    }
  }

  lemma WriteCallSameBlock(s: State, loc: Loc, data: seq<byte>, o: Option<Observer>, mallocOk: bool, junk: seq<byte>, p: nat)
    requires ByteBefore(s, loc.torrent, p) && CanIssueWrite(s, loc, data, junk)
    requires AllocateWatched(s.writePool, mallocOk, o).1
    requires loc == LocOf(s.Vol(loc.torrent).torrent, loc.torrent, p)
    requires loc !in s.store && forall j :: !AsyncAt(s, j, loc)
    ensures ByteKept(s, IssueWrite(s, loc, data, o, mallocOk, junk), loc.torrent, p)
  {
    FreshWriteInOrder(s, loc, data, o, mallocOk, junk, p);
  }

  lemma WriteCallOtherBlock(s: State, loc: Loc, data: seq<byte>, o: Option<Observer>, mallocOk: bool, junk: seq<byte>, idx: nat, p: nat)
    requires ByteBefore(s, idx, p) && CanIssueWrite(s, loc, data, junk) && s.now !in s.jobs && s.now !in s.heap
    requires AllocateWatched(s.writePool, mallocOk, o).1 && loc != LocOf(s.Vol(idx).torrent, idx, p)
    ensures ByteKept(s, IssueWrite(s, loc, data, o, mallocOk, junk), idx, p)
  {
    var s' := IssueWrite(s, loc, data, o, mallocOk, junk);
    var v := s.Vol(idx);
    if loc.torrent == idx {
      PaintElsewhere(v.torrent, v.image, loc, 0, data, p);
    }
    ByteFrame(s, s', idx, v, s'.Vol(idx), p);
  }

  lemma WriteCallDirect(s: State, loc: Loc, data: seq<byte>, o: Option<Observer>, mallocOk: bool, junk: seq<byte>, idx: nat, p: nat)
    requires ByteBefore(s, idx, p) && CanIssueWrite(s, loc, data, junk)
    requires !AllocateWatched(s.writePool, mallocOk, o).1
    ensures ByteKept(s, IssueWrite(s, loc, data, o, mallocOk, junk), idx, p)
  {
    ByteFrame(s, IssueWrite(s, loc, data, o, mallocOk, junk), idx, s.Vol(idx), s.Vol(idx), p);
  }

  lemma OnlyTheNewWrite(s: State, loc: Loc, data: seq<byte>, o: Option<Observer>, mallocOk: bool, junk: seq<byte>)
    requires CanIssueWrite(s, loc, data, junk) && AllocateWatched(s.writePool, mallocOk, o).1 && s.now !in s.jobs
    requires Exclusive(IssueWrite(s, loc, data, o, mallocOk, junk), loc)
    ensures forall j :: !AsyncAt(s, j, loc)
  {
    var s' := IssueWrite(s, loc, data, o, mallocOk, junk);
    forall j ensures !AsyncAt(s, j, loc) {
      assert Outstanding(s', s.now, loc);
      assert AsyncAt(s, j, loc) ==> Outstanding(s', j, loc);
    }
  }

  lemma ByteWriteCall(s: State, loc: Loc, data: seq<byte>, o: Option<Observer>, mallocOk: bool, junk: seq<byte>, idx: nat, p: nat)
    requires Inv(s) && ByteBefore(s, idx, p) && CanIssueWrite(s, loc, data, junk)
    requires Exclusive(IssueWrite(s, loc, data, o, mallocOk, junk), LocOf(s.Vol(idx).torrent, idx, p))
    ensures ByteKept(s, IssueWrite(s, loc, data, o, mallocOk, junk), idx, p)
  {
    NameIsFresh(s);
    if !AllocateWatched(s.writePool, mallocOk, o).1 {
      WriteCallDirect(s, loc, data, o, mallocOk, junk, idx, p);
    } else if loc != LocOf(s.Vol(idx).torrent, idx, p) {
      WriteCallOtherBlock(s, loc, data, o, mallocOk, junk, idx, p);
    } else {
      OnlyTheNewWrite(s, loc, data, o, mallocOk, junk);
      NoEntryWithoutWrite(s, loc);
      WriteCallSameBlock(s, loc, data, o, mallocOk, junk, p);
    }
  }

  // ---------- flushes ----------

  /** A job's own block, as the steps of the job see it. */
  ghost predicate JobHere(s: State, j: JobId) {
    IsWriting(s, j) && JobOk(s, j, s.jobs[j]) && JobFits(s.jobs[j])
  }

  lemma FlushElsewhere(s: State, j: JobId, n: nat, idx: nat, p: nat)
    requires ByteBefore(s, idx, p) && CanFlush(s, j, n) && JobHere(s, j)
    requires s.jobs[j].req.loc != LocOf(s.Vol(idx).torrent, idx, p)
    ensures ByteKept(s, Flush(s, j, n), idx, p)
  {
    var s' := Flush(s, j, n);
    var job, v := s.jobs[j], s.Vol(idx);
    if job.idx == idx {
      var bytes := Source(s, j)[job.stage.done..job.stage.done + n];
      PaintElsewhere(v.torrent, v.image, job.req.loc, job.stage.done, bytes, p);
      PokeLogical(v.torrent, v.disk, WritePos(s, j), bytes, p);
    }
    ByteFrame(s, s', idx, v, s'.Vol(idx), p);
  }

  lemma FlushHereAsync(s: State, j: JobId, n: nat, p: nat)
    requires CanFlush(s, j, n) && JobHere(s, j) && ByteBefore(s, s.jobs[j].idx, p)
    requires s.jobs[j].stage.direct.None?
    requires s.jobs[j].req.loc == LocOf(s.Vol(s.jobs[j].idx).torrent, s.jobs[j].idx, p)
    requires forall i :: AsyncAt(s, i, s.jobs[j].req.loc) ==> i == j
    ensures ByteKept(s, Flush(s, j, n), s.jobs[j].idx, p)
  {
    var s' := Flush(s, j, n);
    var job, v := s.jobs[j], s.Vol(s.jobs[j].idx);
    var loc := job.req.loc;
    OffsetIsDistance(v.torrent, job.idx, p);
    PokeLogical(v.torrent, v.disk, WritePos(s, j), s.heap[j][job.stage.done..job.stage.done + n], p);
    assert AsyncAt(s, j, loc) && PendingOk(s, j, loc, v, p);
    assert PendingOk(s', j, loc, s'.Vol(job.idx), p);
    forall i | AsyncAt(s', i, loc) ensures i == j {
      assert AsyncAt(s, i, loc);
    }
  }

  lemma FlushHereDirect(s: State, j: JobId, n: nat, p: nat)
    requires CanFlush(s, j, n) && JobHere(s, j) && ByteBefore(s, s.jobs[j].idx, p)
    requires s.jobs[j].stage.direct.Some?
    requires s.jobs[j].req.loc == LocOf(s.Vol(s.jobs[j].idx).torrent, s.jobs[j].idx, p)
    requires s.jobs[j].req.loc !in s.store && forall i :: !AsyncAt(s, i, s.jobs[j].req.loc)
    ensures ByteKept(s, Flush(s, j, n), s.jobs[j].idx, p)
  {
    var s' := Flush(s, j, n);
    var job, v := s.jobs[j], s.Vol(s.jobs[j].idx);
    PokeLogical(v.torrent, v.disk, WritePos(s, j), Source(s, j)[job.stage.done..job.stage.done + n], p);
    forall i ensures !AsyncAt(s', i, job.req.loc) {
      assert !AsyncAt(s, i, job.req.loc);
    }
  }

  lemma ByteFlush(s: State, j: JobId, n: nat, idx: nat, p: nat)
    requires Inv(s) && ByteBefore(s, idx, p) && CanFlush(s, j, n)
    requires Exclusive(s, LocOf(s.Vol(idx).torrent, idx, p))
    ensures ByteKept(s, Flush(s, j, n), idx, p)
  {
    var job, loc := s.jobs[j], LocOf(s.Vol(idx).torrent, idx, p);
    assert JobOk(s, j, job) && JobFits(job);
    if job.req.loc != loc {
      FlushElsewhere(s, j, n, idx, p);
    } else {
      assert Outstanding(s, j, loc);
      assert forall i :: AsyncAt(s, i, loc) ==> Outstanding(s, i, loc);
      if job.stage.direct.None? {
        FlushHereAsync(s, j, n, p);
      } else {
        NoEntryWithoutWrite(s, loc);
        FlushHereDirect(s, j, n, p);
      }
    }
  }

  lemma FinishHereAsync(s: State, j: JobId, p: nat)
    requires CanFinishWrite(s, j) && JobHere(s, j) && ByteBefore(s, s.jobs[j].idx, p)
    requires s.jobs[j].stage.direct.None?
    requires Solid(s.Vol(s.jobs[j].idx).torrent, p) ==> OffsetInBlock(s.Vol(s.jobs[j].idx).torrent, p) < s.jobs[j].stage.done
    requires s.jobs[j].req.loc == LocOf(s.Vol(s.jobs[j].idx).torrent, s.jobs[j].idx, p)
    requires forall i :: AsyncAt(s, i, s.jobs[j].req.loc) ==> i == j
    ensures ByteKept(s, FinishWrite(s, j), s.jobs[j].idx, p)
  {
    var s' := FinishWrite(s, j);
    var job, v := s.jobs[j], s.Vol(s.jobs[j].idx);
    assert AsyncAt(s, j, job.req.loc) && PendingOk(s, j, job.req.loc, v, p);
    forall i ensures !AsyncAt(s', i, job.req.loc) {
      assert AsyncAt(s', i, job.req.loc) ==> AsyncAt(s, i, job.req.loc);
    }
  }

  lemma FinishElsewhere(s: State, j: JobId, idx: nat, p: nat)
    requires ByteBefore(s, idx, p) && CanFinishWrite(s, j)
    requires s.jobs[j].stage.direct.Some? || s.jobs[j].req.loc != LocOf(s.Vol(idx).torrent, idx, p)
    ensures ByteKept(s, FinishWrite(s, j), idx, p)
  {
    ByteFrame(s, FinishWrite(s, j), idx, s.Vol(idx), s.Vol(idx), p);
  }

  /** A write that ends, failed or not, has stored every byte of its block that writes reach. */
  lemma EndedWriteReaches(job: Job, p: nat)
    requires job.req.WriteReq? && job.stage.Writing? && JobFits(job) && p < Total(job.torrent)
    requires job.req.loc == LocOf(job.torrent, job.req.loc.torrent, p) && Solid(job.torrent, p)
    requires job.stage.failed || job.stage.done == job.req.size
    ensures OffsetInBlock(job.torrent, p) < job.stage.done
  {
    OffsetIsDistance(job.torrent, job.req.loc.torrent, p);
    BlocksTile(job.torrent, job.req.loc, p);
  }

  lemma ByteFinishWrite(s: State, j: JobId, idx: nat, p: nat)
    requires Inv(s) && ByteBefore(s, idx, p) && CanFinishWrite(s, j)
    requires Exclusive(s, LocOf(s.Vol(idx).torrent, idx, p))
    ensures ByteKept(s, FinishWrite(s, j), idx, p)
  {
    var job, loc := s.jobs[j], LocOf(s.Vol(idx).torrent, idx, p);
    assert JobOk(s, j, job) && JobFits(job);
    if job.stage.direct.Some? || job.req.loc != loc {
      FinishElsewhere(s, j, idx, p);
    } else {
      if Solid(job.torrent, p) {
        EndedWriteReaches(job, p);
      }
      assert Outstanding(s, j, loc);
      assert forall i :: AsyncAt(s, i, loc) ==> Outstanding(s, i, loc);
      FinishHereAsync(s, j, p);
    }
  }

  lemma FailElsewhere(s: State, j: JobId, idx: nat, p: nat)
    requires ByteBefore(s, idx, p) && CanFailFlush(s, j)
    requires s.jobs[j].req.loc != LocOf(s.Vol(idx).torrent, idx, p)
    ensures ByteKept(s, FailFlush(s, j), idx, p)
  {
    ByteFrame(s, FailFlush(s, j), idx, s.Vol(idx), s.Vol(idx), p);
  }

  /** A failed transfer changes no byte: it only ends the loop over the slices. */
  lemma FailHere(s: State, j: JobId, p: nat)
    requires CanFailFlush(s, j) && ByteBefore(s, s.jobs[j].idx, p)
    requires s.jobs[j].req.loc == LocOf(s.Vol(s.jobs[j].idx).torrent, s.jobs[j].idx, p)
    ensures ByteKept(s, FailFlush(s, j), s.jobs[j].idx, p)
  {
    var s', loc, v := FailFlush(s, j), s.jobs[j].req.loc, s.Vol(s.jobs[j].idx);
    forall i | AsyncAt(s', i, loc) ensures PendingOk(s', i, loc, v, p) {
      assert AsyncAt(s, i, loc) && PendingOk(s, i, loc, v, p);
    }
  }

  lemma ByteFailFlush(s: State, j: JobId, idx: nat, p: nat)
    requires Inv(s) && ByteBefore(s, idx, p) && CanFailFlush(s, j)
    ensures ByteKept(s, FailFlush(s, j), idx, p)
  {
    assert s.jobs[j].idx == s.jobs[j].req.loc.torrent by { assert JobFits(s.jobs[j]); }
    if s.jobs[j].req.loc != LocOf(s.Vol(idx).torrent, idx, p) {
      FailElsewhere(s, j, idx, p);
    } else {
      FailHere(s, j, p);
    }
  }

  // ---------- all steps, all runs ----------

  lemma ByteAside(s: State, s': State, idx: nat, p: nat)
    requires ByteBefore(s, idx, p) && Untouched(s, s', LocOf(s.Vol(idx).torrent, idx, p))
    ensures ByteKept(s, s', idx, p)
  {
    ByteFrame(s, s', idx, s.Vol(idx), s.Vol(idx), p);
  }

  lemma ByteSlots(s: State, s': State, idx: nat, p: nat)
    requires ByteBefore(s, idx, p) && s'.Has(idx) && s'.Vol(idx) == s.Vol(idx)
    requires s' == s.(slots := s'.slots, now := s'.now)
    ensures ByteKept(s, s', idx, p)
  {
    ByteFrame(s, s', idx, s.Vol(idx), s.Vol(idx), p);
  }

  lemma ByteAttach(s: State, t: Torrent, disk: Disk, idx: nat, p: nat)
    requires s.slots.Valid() && ByteBefore(s, idx, p)
    ensures ByteKept(s, Attach(s, t, disk), idx, p)
  {
    s.slots.AddKeepsValid(Volume(t, disk, InitialImage(t, disk), s.now));
    ByteSlots(s, Attach(s, t, disk), idx, p);
  }

  /** Steps of the write path. */
  predicate WriteStep(step: Step) {
    step.SWrite? || step.SFlush? || step.SFailFlush? || step.SFinishWrite?
  }

  lemma ByteWriteStep(s: State, step: Step, s': State, idx: nat, p: nat)
    requires Inv(s) && Enabled(s, step) && s' == Next(s, step) && ByteBefore(s, idx, p) && WriteStep(step)
    requires Exclusive(s, LocOf(s.Vol(idx).torrent, idx, p)) && Exclusive(s', LocOf(s.Vol(idx).torrent, idx, p))
    ensures ByteKept(s, s', idx, p)
  {
    match step {
      case SWrite(loc, data, o, mallocOk, junk) => ByteWriteCall(s, loc, data, o, mallocOk, junk, idx, p);
      case SFlush(j, n) => ByteFlush(s, j, n, idx, p);
      case SFailFlush(j) => ByteFailFlush(s, j, idx, p);
      case SFinishWrite(j) => ByteFinishWrite(s, j, idx, p);
    }
  }

  lemma ByteAsideStep(s: State, step: Step, s': State, idx: nat, p: nat)
    requires Enabled(s, step) && s' == Next(s, step) && ByteBefore(s, idx, p) && Aside(step)
    ensures ByteKept(s, s', idx, p)
  {
    AsideUntouched(s, step, LocOf(s.Vol(idx).torrent, idx, p));
    ByteAside(s, s', idx, p);
  }

  /** One step, for a storage that was there before and is still there. */
  lemma ByteStep(s: State, step: Step, s': State, idx: nat, p: nat)
    requires Inv(s) && Enabled(s, step) && s' == Next(s, step) && ByteBefore(s, idx, p) && step != SDetach(idx)
    requires Exclusive(s, LocOf(s.Vol(idx).torrent, idx, p)) && Exclusive(s', LocOf(s.Vol(idx).torrent, idx, p))
    ensures ByteKept(s, s', idx, p)
  {
    if WriteStep(step) {
      ByteWriteStep(s, step, s', idx, p);
    } else if Aside(step) {
      ByteAsideStep(s, step, s', idx, p);
    } else {
      match step {
        case SAttach(t, disk) => ByteAttach(s, t, disk, idx, p);
        case SDetach(_) => ByteSlots(s, s', idx, p);
      }
    }
  }

  /** No write and no entry is left of an earlier owner of the index. */
  ghost predicate Unused(s: State, idx: nat) {
    && (forall j, loc: Loc :: loc.torrent == idx ==> !AsyncAt(s, j, loc))
    && (forall loc :: loc in s.store ==> loc.torrent != idx)
  }

  lemma FreeIndexUnused(s: State, idx: nat)
    requires Inv(s) && !s.Has(idx)
    ensures Unused(s, idx)
  {
    forall j, loc: Loc | loc.torrent == idx ensures !AsyncAt(s, j, loc) {
      if j in s.jobs && s.jobs[j].AsyncWriting() {
        assert JobOk(s, j, s.jobs[j]) && JobFits(s.jobs[j]);
      }
    }
    forall loc | loc in s.store ensures loc.torrent != idx {
      assert AsyncAt(s, s.store[loc], loc);
    }
  }

  /** A storage starts with an image that is its disk, and with no entry of an earlier owner. */
  lemma ByteAtAttach(s: State, t: Torrent, disk: Disk, s': State, idx: nat, p: nat)
    requires idx == s.slots.NextIndex() && !s.Has(idx) && Unused(s, idx) && s' == Attach(s, t, disk)
    requires s'.Has(idx) && p < Total(s'.Vol(idx).torrent)
    ensures ByteOk(s', idx, s'.Vol(idx), p)
  {
    var loc := LocOf(t, idx, p);
    forall j ensures !AsyncAt(s', j, loc) {
      assert !AsyncAt(s, j, loc);
    }
  }

  // ---------- runs ----------

  /** Storage `idx` is there before and after, and is the same one. */
  predicate SameStorage(s: State, s': State, idx: nat) {
    s.Has(idx) && s'.Has(idx) && s'.Vol(idx).torrent == s.Vol(idx).torrent && s'.Vol(idx).born == s.Vol(idx).born
  }

  lemma WriteSameStorage(s: State, loc: Loc, data: seq<byte>, o: Option<Observer>, mallocOk: bool, junk: seq<byte>, idx: nat)
    requires CanIssueWrite(s, loc, data, junk) && IssueWrite(s, loc, data, o, mallocOk, junk).Has(idx)
    ensures SameStorage(s, IssueWrite(s, loc, data, o, mallocOk, junk), idx)
  {
  }

  lemma FlushSameStorage(s: State, j: JobId, n: nat, idx: nat)
    ensures CanFlush(s, j, n) && Flush(s, j, n).Has(idx) ==> SameStorage(s, Flush(s, j, n), idx)
    ensures CanFailFlush(s, j) && FailFlush(s, j).Has(idx) ==> SameStorage(s, FailFlush(s, j), idx)
    ensures CanFinishWrite(s, j) && FinishWrite(s, j).Has(idx) ==> SameStorage(s, FinishWrite(s, j), idx)
  {
  }

  lemma AttachStorage(s: State, t: Torrent, disk: Disk, idx: nat)
    requires s.slots.Valid() && Attach(s, t, disk).Has(idx)
    ensures if s.Has(idx) then SameStorage(s, Attach(s, t, disk), idx)
      else idx == s.slots.NextIndex() && Attach(s, t, disk).Vol(idx).born == s.now
  {
    s.slots.AddKeepsValid(Volume(t, disk, InitialImage(t, disk), s.now));
  }

  /** A storage present after a step was there before and is the same one, or has just been attached. */
  lemma VolumeStep(s: State, step: Step, idx: nat)
    requires s.slots.Valid() && Enabled(s, step) && Next(s, step).Has(idx)
    ensures if s.Has(idx)
      then step != SDetach(idx) && SameStorage(s, Next(s, step), idx)
      else step.SAttach? && idx == s.slots.NextIndex() && Next(s, step).Vol(idx).born == s.now
  {
    match step {
      case SAttach(t, disk) => AttachStorage(s, t, disk, idx);
      case SDetach(_) =>
      case SWrite(loc, data, o, mallocOk, junk) => WriteSameStorage(s, loc, data, o, mallocOk, junk, idx);
      case SFlush(j, n) => FlushSameStorage(s, j, n, idx);
      case SFailFlush(j) => FlushSameStorage(s, j, 0, idx);
      case SFinishWrite(j) => FlushSameStorage(s, j, 0, idx);
      case _ => AsideUntouched(s, step, Loc(idx, 0, 0));
    }
  }

  /** Writes of the block do not overlap from moment `a` to moment `u`. */
  ghost predicate ExclusiveFrom(run: seq<State>, a: nat, u: nat, loc: Loc) {
    forall m :: a <= m <= u && m < |run| ==> Exclusive(run[m], loc)
  }

  /** Byte `p` of the storage added at moment `born` was in order at moment `a`, and its block has seen no overlap from then to `u`. */
  ghost predicate Tracked(run: seq<State>, a: nat, u: nat, idx: nat, t: Torrent, born: nat, p: nat) {
    && born < a < |run| && run[a].Has(idx) && run[a].Vol(idx).torrent == t && run[a].Vol(idx).born == born
    && Disjoint(t.files) && p < Total(t) && ByteOk(run[a], idx, run[a].Vol(idx), p)
    && ExclusiveFrom(run, a, u, LocOf(t, idx, p))
  }

  /** The same for a storage that is still there at moment `u`. */
  ghost predicate Watched(run: seq<State>, a: nat, u: nat, idx: nat, p: nat) {
    a <= u < |run| && run[u].Has(idx) && Tracked(run, a, u, idx, run[u].Vol(idx).torrent, run[u].Vol(idx).born, p)
  }

  /** A storage present at moment `u` was there one moment earlier, or has just been attached. */
  lemma RunVolumeStep(run: seq<State>, steps: seq<Step>, u: nat, idx: nat)
    requires Execution(run, steps) && 0 < u < |run| && run[u].Has(idx)
    ensures if run[u - 1].Has(idx)
      then steps[u - 1] != SDetach(idx) && SameStorage(run[u - 1], run[u], idx) && run[u].Vol(idx).born < u - 1
      else steps[u - 1].SAttach? && idx == run[u - 1].slots.NextIndex() && run[u].Vol(idx).born == u - 1
  {
    RunInv(run, steps, u - 1);
    assert StepAt(run, steps, u - 1);
    VolumeStep(run[u - 1], steps[u - 1], idx);
  }

  /** One moment earlier. */
  lemma WatchedBefore(run: seq<State>, steps: seq<Step>, a: nat, u: nat, idx: nat, p: nat)
    requires Execution(run, steps) && a < u && Watched(run, a, u, idx, p)
    ensures Watched(run, a, u - 1, idx, p) && steps[u - 1] != SDetach(idx) && SameStorage(run[u - 1], run[u], idx)
  {
    RunVolumeStep(run, steps, u, idx);
  }

  lemma RunByteStep(run: seq<State>, steps: seq<Step>, u: nat, idx: nat, p: nat)
    requires Execution(run, steps) && 0 < u < |run| && steps[u - 1] != SDetach(idx) && ByteBefore(run[u - 1], idx, p)
    requires var loc := LocOf(run[u - 1].Vol(idx).torrent, idx, p); Exclusive(run[u - 1], loc) && Exclusive(run[u], loc)
    ensures ByteKept(run[u - 1], run[u], idx, p)
  {
    RunInv(run, steps, u - 1);
    assert StepAt(run, steps, u - 1);
    ByteStep(run[u - 1], steps[u - 1], run[u], idx, p);
  }

  lemma AttachAt(run: seq<State>, steps: seq<Step>, u: nat)
    requires Execution(run, steps) && 0 < u < |run| && steps[u - 1].SAttach?
    ensures run[u] == Attach(run[u - 1], steps[u - 1].t, steps[u - 1].disk)
  {
    assert StepAt(run, steps, u - 1);
  }

  lemma UnusedAt(run: seq<State>, steps: seq<Step>, u: nat, idx: nat)
    requires Execution(run, steps) && u < |run| && !run[u].Has(idx)
    ensures Unused(run[u], idx)
  {
    RunInv(run, steps, u);
    FreeIndexUnused(run[u], idx);
  }

  lemma {:induction false} ByteRun(run: seq<State>, steps: seq<Step>, a: nat, u: nat, idx: nat, p: nat)
    requires Execution(run, steps) && Watched(run, a, u, idx, p)
    ensures ByteOk(run[u], idx, run[u].Vol(idx), p)
    decreases u
  {
    if a < u {
      WatchedBefore(run, steps, a, u, idx, p);
      ByteRun(run, steps, a, u - 1, idx, p);
      RunByteStep(run, steps, u, idx, p);
    }
  }

  // ---------- moments at which a byte is in order ----------

  /** From the moment a storage is added, all its bytes are in order as long as writes do not overlap. */
  lemma {:induction false} InOrderFromBirth(run: seq<State>, steps: seq<Step>, u: nat, idx: nat, p: nat)
    requires Execution(run, steps) && u < |run| && run[u].Has(idx)
    requires Disjoint(run[u].Vol(idx).torrent.files) && p < Total(run[u].Vol(idx).torrent)
    requires ExclusiveFrom(run, run[u].Vol(idx).born + 1, u, LocOf(run[u].Vol(idx).torrent, idx, p))
    ensures Watched(run, run[u].Vol(idx).born + 1, u, idx, p)
  {
    if u > 0 {
      RunVolumeStep(run, steps, u, idx);
      if run[u - 1].Has(idx) {
        InOrderFromBirth(run, steps, u - 1, idx, p);
      } else {
        AttachAt(run, steps, u);
        UnusedAt(run, steps, u - 1, idx);
        ByteAtAttach(run[u - 1], steps[u - 1].t, steps[u - 1].disk, run[u], idx, p);
      }
    }
  }

  lemma NoneOutstanding(s: State, loc: Loc)
    requires Inv(s) && forall j :: !Outstanding(s, j, loc)
    ensures loc !in s.store && forall j :: !AsyncAt(s, j, loc)
  {
    forall j ensures !AsyncAt(s, j, loc) {
      assert !Outstanding(s, j, loc);
    }
    NoEntryWithoutWrite(s, loc);
  }

  lemma FreshWriteExclusive(s: State, loc: Loc, data: seq<byte>, o: Option<Observer>, mallocOk: bool, junk: seq<byte>)
    requires CanIssueWrite(s, loc, data, junk) && forall j :: !Outstanding(s, j, loc)
    ensures Exclusive(IssueWrite(s, loc, data, o, mallocOk, junk), loc)
  {
    var s' := IssueWrite(s, loc, data, o, mallocOk, junk);
    forall j | Outstanding(s', j, loc) ensures j == s.now {
      assert !Outstanding(s, j, loc);
    }
  }

  /** The moment of a write call, before anything is known about what it does. */
  lemma WriteCallAt(run: seq<State>, steps: seq<Step>, m: nat)
    requires Execution(run, steps) && m < |steps| && steps[m].SWrite?
    ensures CanIssueWrite(run[m], steps[m].loc, steps[m].data, steps[m].junk)
    ensures run[m + 1] == IssueWrite(run[m], steps[m].loc, steps[m].data, steps[m].o, steps[m].mallocOk, steps[m].junk)
  {
    assert StepAt(run, steps, m);
  }

  lemma FreshWriteAt(run: seq<State>, steps: seq<Step>, m: nat, idx: nat, p: nat)
    requires Execution(run, steps) && m < |steps| && steps[m].SWrite? && run[m].Has(idx) && idx == steps[m].loc.torrent
    requires AllocateWatched(run[m].writePool, steps[m].mallocOk, steps[m].o).1
    requires forall j :: !Outstanding(run[m], j, steps[m].loc)
    requires var t := run[m].Vol(idx).torrent; p < Total(t) && steps[m].loc == LocOf(t, idx, p)
    ensures SameStorage(run[m], run[m + 1], idx) && ByteOk(run[m + 1], idx, run[m + 1].Vol(idx), p)
    ensures Exclusive(run[m + 1], steps[m].loc) && run[m].Vol(idx).born < m
  {
    var s, step := run[m], steps[m];
    WriteCallAt(run, steps, m);
    RunInv(run, steps, m);
    NoneOutstanding(s, step.loc);
    FreshWriteExclusive(s, step.loc, step.data, step.o, step.mallocOk, step.junk);
    FreshWriteInOrder(s, step.loc, step.data, step.o, step.mallocOk, step.junk, p);
  }

  /** An asynchronous write issued with no write of the block outstanding puts its bytes in order again, whatever happened before. */
  lemma InOrderFromWrite(run: seq<State>, steps: seq<Step>, m: nat, idx: nat, p: nat)
    requires Execution(run, steps) && m < |steps| && steps[m].SWrite? && run[m].Has(idx) && idx == steps[m].loc.torrent
    requires AllocateWatched(run[m].writePool, steps[m].mallocOk, steps[m].o).1
    requires forall j :: !Outstanding(run[m], j, steps[m].loc)
    requires var t := run[m].Vol(idx).torrent; Disjoint(t.files) && p < Total(t) && steps[m].loc == LocOf(t, idx, p)
    ensures Watched(run, m + 1, m + 1, idx, p)
  {
    FreshWriteAt(run, steps, m, idx, p);
  }

  /** A logical byte as a reader that looks in the store buffer first would find it. */
  function Current(s: State, idx: nat, v: Volume, p: nat): byte
    requires p < Total(v.torrent)
  {
    match s.Entry(LocOf(v.torrent, idx, p))
    case Some(entry) => entry[OffsetInBlock(v.torrent, p)]
    case None => DiskByte(v, p)
  }

  lemma CurrentIsImage(s: State, idx: nat, v: Volume, p: nat)
    requires Inv(s) && p < Total(v.torrent) && ByteOk(s, idx, v, p)
    ensures LocOf(v.torrent, idx, p) in s.store || Solid(v.torrent, p) ==> Current(s, idx, v, p) == v.image(p)
    ensures s.Entry(LocOf(v.torrent, idx, p)).None? <==> LocOf(v.torrent, idx, p) !in s.store
  {
    var loc := LocOf(v.torrent, idx, p);
    if loc in s.store {
      var j := s.store[loc];
      assert AsyncAt(s, j, loc) && PendingOk(s, j, loc, v, p);
    }
  }

  /**
    Cache and disk agree with the last-write-wins image in every reachable state, in the
    middle of a flush too and whatever writes fail: the byte's value is in its block's entry
    if there is one, and on the disk at its mapped address otherwise.
   */
  lemma CacheDiskAgreement(run: seq<State>, steps: seq<Step>, a: nat, u: nat, idx: nat, p: nat)
    requires Execution(run, steps) && Watched(run, a, u, idx, p)
    requires Solid(run[u].Vol(idx).torrent, p) || LocOf(run[u].Vol(idx).torrent, idx, p) in run[u].store
    ensures Current(run[u], idx, run[u].Vol(idx), p) == run[u].Vol(idx).image(p)
  {
    RunInv(run, steps, u);
    ByteRun(run, steps, a, u, idx, p);
    CurrentIsImage(run[u], idx, run[u].Vol(idx), p);
  }

  predicate Shows(s: State, idx: nat, born: nat, p: nat, b: byte) {
    s.Has(idx) && s.Vol(idx).born == born && s.Vol(idx).image(p) == b
  }

  /** At some moment from `a` to `u` the image of this storage had value `b` at byte `p`. */
  ghost predicate InWindow(run: seq<State>, a: nat, u: nat, idx: nat, born: nat, p: nat, b: byte) {
    exists m :: a <= m <= u && m < |run| && Shows(run[m], idx, born, p, b)
  }

  lemma WindowGrows(run: seq<State>, a: nat, a': nat, u: nat, u': nat, idx: nat, born: nat, p: nat, b: byte)
    requires a' <= a && u <= u' && InWindow(run, a, u, idx, born, p, b)
    ensures InWindow(run, a', u', idx, born, p, b)
  {
    var m :| a <= m <= u && m < |run| && Shows(run[m], idx, born, p, b);
    assert a' <= m <= u' && m < |run| && Shows(run[m], idx, born, p, b);
  }

  /**
    From the moment of a miss on, whatever flushes run, the disk byte is always a value
    that the image has had since the miss.
   */
  lemma {:induction false} DiskAfterMiss(run: seq<State>, steps: seq<Step>, a: nat, since: nat, u: nat, idx: nat, p: nat)
    requires Execution(run, steps) && a <= since <= u && Watched(run, a, u, idx, p)
    requires LocOf(run[u].Vol(idx).torrent, idx, p) !in run[since].store && Solid(run[u].Vol(idx).torrent, p)
    ensures InWindow(run, since, u, idx, run[u].Vol(idx).born, p, DiskByte(run[u].Vol(idx), p))
    decreases u
  {
    var v := run[u].Vol(idx);
    ByteRun(run, steps, a, u, idx, p);
    if u == since {
      assert Shows(run[u], idx, v.born, p, DiskByte(v, p));
    } else {
      WatchedBefore(run, steps, a, u, idx, p);
      DiskAfterMiss(run, steps, a, since, u - 1, idx, p);
      ByteRun(run, steps, a, u - 1, idx, p);
      RunByteStep(run, steps, u, idx, p);
      if DiskByte(v, p) == v.image(p) {
        assert Shows(run[u], idx, v.born, p, DiskByte(v, p));
      } else {
        WindowGrows(run, since, since, u - 1, u, idx, v.born, p, DiskByte(v, p));
      }
    }
  }

  lemma SecondWriteNotIndexed(s: State, loc: Loc, data: seq<byte>, o: Option<Observer>, mallocOk: bool, junk: seq<byte>, p: nat)
    requires CanIssueWrite(s, loc, data, junk) && AllocateWatched(s.writePool, mallocOk, o).1
    requires loc in s.store && s.store[loc] in s.heap && s.store[loc] != s.now
    requires var t := s.Vol(loc.torrent).torrent;
      p < Total(t) && BlockStart(t, loc) + OffsetInBlock(t, p) == p && OffsetInBlock(t, p) < |data|
    ensures var s', k := IssueWrite(s, loc, data, o, mallocOk, junk), OffsetInBlock(s.Vol(loc.torrent).torrent, p);
      s'.Entry(loc) == Some(s.heap[s.store[loc]]) && s'.Vol(loc.torrent).image(p) == data[k]
  {
  }

  /**
    Why the assumption is there: a second write of a block that still has an entry is not
    indexed, so after the call the byte agrees with the image exactly when the older write
    already had the same value.
   */
  lemma OverlapAgreesOnlyByChance(s: State, loc: Loc, data: seq<byte>, o: Option<Observer>, mallocOk: bool, junk: seq<byte>, p: nat)
    requires Inv(s) && CanIssueWrite(s, loc, data, junk) && AllocateWatched(s.writePool, mallocOk, o).1
    requires loc in s.store && p < Total(s.Vol(loc.torrent).torrent)
    requires loc == LocOf(s.Vol(loc.torrent).torrent, loc.torrent, p)
    ensures var s', k := IssueWrite(s, loc, data, o, mallocOk, junk), OffsetInBlock(s.Vol(loc.torrent).torrent, p);
      && k < |data| && s.store[loc] in s.heap
      && (Current(s', loc.torrent, s'.Vol(loc.torrent), p) == s'.Vol(loc.torrent).image(p)
          <==> s.heap[s.store[loc]][k] == data[k])
  {
    var t := s.Vol(loc.torrent).torrent;
    assert s.store[loc] in s.heap && s.store[loc] < s.now by {
      assert JobOk(s, s.store[loc], s.jobs[s.store[loc]]);
    }
    OffsetIsDistance(t, loc.torrent, p);
    BlocksTile(t, loc, p);
    SecondWriteNotIndexed(s, loc, data, o, mallocOk, junk, p);
  }

  lemma FlushHidden(s: State, j: JobId, n: nat, p: nat)
    requires CanFlush(s, j, n) && s.jobs[j].stage.direct.Some? && WritePos(s, j) <= p < WritePos(s, j) + n
    ensures var s', idx := Flush(s, j, n), s.jobs[j].idx;
      && s'.store == s.store && s'.heap == s.heap && s'.Vol(idx).torrent == s.Vol(idx).torrent
      && s'.Vol(idx).image(p) == s.jobs[j].stage.direct.value[s.jobs[j].stage.done + (p - WritePos(s, j))]
  {
  }

  lemma FlushBehindEntry(s: State, j: JobId, n: nat, p: nat, loc: Loc, k: nat)
    requires CanFlush(s, j, n) && s.jobs[j].stage.direct.Some? && loc in s.store && s.store[loc] in s.heap
    requires WritePos(s, j) <= p < WritePos(s, j) + n && k == s.jobs[j].stage.done + (p - WritePos(s, j)) && k < BLOCK
    requires var t := s.Vol(s.jobs[j].idx).torrent;
      p < Total(t) && loc == LocOf(t, s.jobs[j].idx, p) && k == OffsetInBlock(t, p)
    ensures var s', idx := Flush(s, j, n), s.jobs[j].idx;
      Current(s', idx, s'.Vol(idx), p) == s.heap[s.store[loc]][k] && s'.Vol(idx).image(p) == s.jobs[j].stage.direct.value[k]
  {
    FlushHidden(s, j, n, p);
  }

  /** The same for a synchronous write of a block that has an entry: each byte it stores is hidden behind the entry. */
  lemma SyncOverlapAgreesOnlyByChance(s: State, j: JobId, n: nat, p: nat)
    requires Inv(s) && CanFlush(s, j, n) && s.jobs[j].stage.direct.Some? && s.jobs[j].req.loc in s.store
    requires var t := s.Vol(s.jobs[j].idx).torrent;
      && p < Total(t) && s.jobs[j].req.loc == LocOf(t, s.jobs[j].idx, p)
      && s.jobs[j].stage.done <= OffsetInBlock(t, p) < s.jobs[j].stage.done + n
    ensures var s', idx, loc := Flush(s, j, n), s.jobs[j].idx, s.jobs[j].req.loc;
      var k := OffsetInBlock(s.Vol(idx).torrent, p);
      && s.store[loc] in s.heap
      && (Current(s', idx, s'.Vol(idx), p) == s'.Vol(idx).image(p)
          <==> s.heap[s.store[loc]][k] == s.jobs[j].stage.direct.value[k])
  {
    var loc := s.jobs[j].req.loc;
    assert s.store[loc] in s.heap by {
      assert JobOk(s, s.store[loc], s.jobs[s.store[loc]]);
    }
    OffsetIsDistance(s.Vol(s.jobs[j].idx).torrent, s.jobs[j].idx, p);
    FlushBehindEntry(s, j, n, p, loc, OffsetInBlock(s.Vol(s.jobs[j].idx).torrent, p));
  }
}
