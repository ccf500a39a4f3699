/**
  Two small runs that show why the coherence theorems ask what they ask: a write that fails in
  the middle of a block, and two writes of one block at the same time.
 */
module Counterexamples {
  import opened Basics
  import opened Extents
  import opened Torrents
  import opened DiskSystem
  import opened Completion

  /** A torrent of one file of one byte, at partition offset `base`. */
  predicate OneByte(t: Torrent, base: int) {
    t.pieceLength == 1 && t.files == [File(Some(base), 1)]
  }

  /** A torrent of two files of one byte each, the first with a name that does not parse. */
  predicate BadName(t: Torrent, base: int) {
    t.pieceLength == 2 && t.files == [File(None, 1), File(Some(base), 1)]
  }

  lemma OneByteLayout(t: Torrent, base: int, loc: Loc)
    requires OneByte(t, base) && loc == Loc(0, 0, 0)
    ensures Total(t) == 1 && PieceSize(t, 0) == 1 && IsBlock(t, loc) && BlockStart(t, loc) == 0 && BlockLen(t, loc) == 1
    ensures FileFrom(t.files, 0, 0) == (0, 0) && Address(t.files, 0) == Some(base) && Transferable(t, 0, 1)
  {
    assert TotalFrom(t.files, 1) == 0;
  }

  lemma BadNameLayout(t: Torrent, base: int, loc: Loc)
    requires BadName(t, base) && loc == Loc(0, 0, 0)
    ensures Total(t) == 2 && PieceSize(t, 0) == 2 && IsBlock(t, loc) && BlockStart(t, loc) == 0 && BlockLen(t, loc) == 2
    ensures Unparseable(t, 0) && FileFrom(t.files, 0, 1) == (1, 0) && Address(t.files, 1) == Some(base) && Transferable(t, 1, 1)
  {
    assert TotalFrom(t.files, 2) == 0;
    assert TotalFrom(t.files, 1) == 1;
    assert FileFrom(t.files, 1, 0) == (1, 0);
  }

  // ---------- two writes of one block ----------

  /** Writes 1 and 2 of the same one-byte block, with values `a` and `b`, and the partition's byte. */
  ghost predicate TwoWrites(s: State, t: Torrent, base: int, a: byte, b: byte, onDisk: byte, stage1: Stage, stage2: Stage) {
    && OneByte(t, base) && s.Has(0) && s.Vol(0).torrent == t && s.Vol(0).disk(base) == onDisk && s.Vol(0).image(0) == b
    && s.jobs == map[1 := Job(0, t, 0, WriteReq(Loc(0, 0, 0), 1), stage1), 2 := Job(0, t, 0, WriteReq(Loc(0, 0, 0), 1), stage2)]
    && s.heap.Keys == {1, 2} && s.heap[1][0] == a && s.heap[2][0] == b && s.readBufs == {} && s.writePool.size == 2
  }

  lemma FirstWriteIssued(t: Torrent, base: int, disk: Disk, a: byte, junk: seq<byte>)
    returns (run: seq<State>, steps: seq<Step>)
    requires OneByte(t, base) && |junk| == BLOCK
    ensures Execution(run, steps)
    ensures var s := run[|steps|];
      && s.now == 2 && s.Has(0) && s.Vol(0).torrent == t && s.Vol(0).born == 0 && s.Vol(0).disk == disk
      && s.jobs == map[1 := Job(0, t, 0, WriteReq(Loc(0, 0, 0), 1), Writing(None, 0, false))]
      && s.heap.Keys == {1} && s.heap[1][0] == a && s.readBufs == {} && s.writePool.size == 1
  {
    OneByteLayout(t, base, Loc(0, 0, 0));
    run, steps := Extend([INITIAL], [], SAttach(t, disk));
    run, steps := Extend(run, steps, SWrite(Loc(0, 0, 0), [a], None, true, junk));
  }

  lemma TwoWritesIssued(t: Torrent, base: int, disk: Disk, a: byte, b: byte, junk: seq<byte>)
    returns (run: seq<State>, steps: seq<Step>)
    requires OneByte(t, base) && |junk| == BLOCK
    ensures Execution(run, steps)
    ensures TwoWrites(run[|steps|], t, base, a, b, disk(base), Writing(None, 0, false), Writing(None, 0, false))
  {
    OneByteLayout(t, base, Loc(0, 0, 0));
    run, steps := FirstWriteIssued(t, base, disk, a, junk);
    run, steps := Extend(run, steps, SWrite(Loc(0, 0, 0), [b], None, true, junk));
  }

  /** Write `j` stores its byte and ends. */
  lemma OneWriteEnds(run: seq<State>, steps: seq<Step>, t: Torrent, base: int, a: byte, b: byte, onDisk: byte, j: JobId,
                     stage1: Stage, stage2: Stage)
    returns (run': seq<State>, steps': seq<Step>)
    requires Execution(run, steps) && TwoWrites(run[|steps|], t, base, a, b, onDisk, stage1, stage2)
    requires (j == 1 && stage1 == Writing(None, 0, false)) || (j == 2 && stage2 == Writing(None, 0, false))
    ensures Execution(run', steps')
    ensures TwoWrites(run'[|steps'|], t, base, a, b, if j == 1 then a else b,
                      if j == 1 then Posted(Reply([], Fine)) else stage1, if j == 2 then Posted(Reply([], Fine)) else stage2)
  {
    OneByteLayout(t, base, Loc(0, 0, 0));
    run', steps' := Extend(run, steps, SFlush(j, 1));
    run', steps' := Extend(run', steps', SFinishWrite(j));
  }

  lemma QuietWhenOver(s: State)
    requires forall j :: j in s.jobs ==> s.jobs[j].stage.Handled?
    requires s.heap == map[] && s.readBufs == {}
    ensures Quiet(s)
  {
  }

  lemma BothHandled(run: seq<State>, steps: seq<Step>, t: Torrent, base: int, a: byte, b: byte, onDisk: byte)
    returns (run': seq<State>, steps': seq<Step>)
    requires Execution(run, steps)
    requires TwoWrites(run[|steps|], t, base, a, b, onDisk, Posted(Reply([], Fine)), Posted(Reply([], Fine)))
    ensures Execution(run', steps')
    ensures TwoWrites(run'[|steps'|], t, base, a, b, onDisk, Handled(Reply([], Fine)), Handled(Reply([], Fine)))
  {
    run', steps' := Extend(run, steps, SHandle(1));
    run', steps' := Extend(run', steps', SHandle(2));
  }

  /** Both handlers are called and both buffers freed; nothing is left to do. */
  lemma BothDone(run: seq<State>, steps: seq<Step>, t: Torrent, base: int, a: byte, b: byte, onDisk: byte)
    returns (run': seq<State>, steps': seq<Step>)
    requires Execution(run, steps)
    requires TwoWrites(run[|steps|], t, base, a, b, onDisk, Posted(Reply([], Fine)), Posted(Reply([], Fine)))
    ensures Execution(run', steps')
    ensures var s := run'[|steps'|];
      Quiet(s) && s.Has(0) && s.Vol(0).torrent == t && s.Vol(0).image(0) == b && s.Vol(0).disk(base) == onDisk
  {
    run', steps' := BothHandled(run, steps, t, base, a, b, onDisk);
    run', steps' := Extend(run', steps', SFreeWrite(1));
    run', steps' := Extend(run', steps', SFreeWrite(2));
    assert run'[|steps'|].heap.Keys == {};
    QuietWhenOver(run'[|steps'|]);
  }

  /**
    Overlapping writes of one block can be lost for good: the newer one is flushed first and
    the older one last, and the backend comes to rest with the older byte on the partition.
   */
  lemma OverlapEndsWithOlderByte(t: Torrent, base: int, disk: Disk, a: byte, b: byte, junk: seq<byte>)
    returns (run: seq<State>, steps: seq<Step>)
    requires OneByte(t, base) && |junk| == BLOCK
    ensures Execution(run, steps)
    ensures var s := run[|steps|];
      Quiet(s) && s.Has(0) && s.Vol(0).torrent == t && s.Vol(0).image(0) == b && s.Vol(0).disk(base) == a
  {
    run, steps := TwoWritesIssued(t, base, disk, a, b, junk);
    run, steps := OneWriteEnds(run, steps, t, base, a, b, disk(base), 2, Writing(None, 0, false), Writing(None, 0, false));
    run, steps := OneWriteEnds(run, steps, t, base, a, b, b, 1, Writing(None, 0, false), Posted(Reply([], Fine)));
    run, steps := BothDone(run, steps, t, base, a, b, a);
  }

  // ---------- a name that does not parse ----------

  /** Write 1, of both bytes, is under way: the partition's byte and the image of the second. */
  ghost predicate Lone(s: State, t: Torrent, base: int, b: byte, onDisk: byte, stage: Stage) {
    && BadName(t, base) && s.Has(0) && s.Vol(0).torrent == t && s.Vol(0).disk(base) == onDisk && s.Vol(0).image(1) == b
    && s.jobs == map[1 := Job(0, t, 0, WriteReq(Loc(0, 0, 0), 2), stage)] && s.readBufs == {} && s.readPool.size == 0
  }

  lemma WriteIssued(t: Torrent, base: int, disk: Disk, b: byte, junk: seq<byte>) returns (run: seq<State>, steps: seq<Step>)
    requires BadName(t, base) && |junk| == BLOCK
    ensures Execution(run, steps) && |steps| == 2 && run[2].now == 2 && run[2].store == map[Loc(0, 0, 0) := 1]
    ensures Lone(run[2], t, base, b, disk(base), Writing(None, 0, false))
  {
    BadNameLayout(t, base, Loc(0, 0, 0));
    run, steps := Extend([INITIAL], [], SAttach(t, disk));
    run, steps := Extend(run, steps, SWrite(Loc(0, 0, 0), [0, b], None, true, junk));
  }

  lemma WriteFails(run: seq<State>, steps: seq<Step>, t: Torrent, base: int, b: byte, onDisk: byte)
    returns (run': seq<State>, steps': seq<Step>)
    requires Execution(run, steps) && |steps| == 2 && run[2].now == 2 && run[2].store == map[Loc(0, 0, 0) := 1]
    requires Lone(run[2], t, base, b, onDisk, Writing(None, 0, false))
    ensures Execution(run', steps') && |steps'| == 4 && run'[4].now == 4 && run'[4].store == map[]
    ensures Lone(run'[4], t, base, b, onDisk, Posted(Reply([], ParseError)))
  {
    BadNameLayout(t, base, Loc(0, 0, 0));
    run', steps' := Extend(run, steps, SFailFlush(1));
    run', steps' := Extend(run', steps', SFinishWrite(1));
  }

  /** The read is posted: its block has no entry any more. */
  lemma ReadIssued(run: seq<State>, steps: seq<Step>, t: Torrent, base: int, b: byte, onDisk: byte, junk: seq<byte>)
    returns (run': seq<State>, steps': seq<Step>)
    requires Execution(run, steps) && |steps| == 4 && run[4].now == 4 && run[4].store == map[] && |junk| == BLOCK
    requires Lone(run[4], t, base, b, onDisk, Posted(Reply([], ParseError)))
    ensures Execution(run', steps') && |steps'| == 5 && run'[..5] == run && run'[5].slots == run[4].slots
    ensures var s := run'[5];
      4 in s.jobs && s.jobs[4].idx == 0 && s.jobs[4].req == ReadReq(0, 1, 1) && s.jobs[4].stage == Reading(junk, 0, 1, 0)
  {
    BadNameLayout(t, base, Loc(0, 0, 0));
    run', steps' := Extend(run, steps, SRead(0, 0, 1, 1, true, junk));
  }

  /**
    A successful read that starts behind a name that does not parse, in the same block: after the
    failed write it returns the partition's old byte, although the image has had the new one
    since before the call.
   */
  lemma StaleReadBehindBadName(t: Torrent, base: int, disk: Disk, b: byte, junk: seq<byte>)
    returns (run: seq<State>, steps: seq<Step>)
    requires BadName(t, base) && |junk| == BLOCK
    ensures Execution(run, steps) && |steps| == 7
    ensures 4 in run[7].jobs && run[7].jobs[4].req == ReadReq(0, 1, 1)
    ensures run[7].jobs[4].stage == Posted(Reply([disk(base)], Fine))
    ensures forall m :: 4 <= m <= 7 ==> run[m].Has(0) && run[m].Vol(0).image(1) == b
  {
    BadNameLayout(t, base, Loc(0, 0, 0));
    run, steps := WriteIssued(t, base, disk, b, junk);
    run, steps := WriteFails(run, steps, t, base, b, disk(base));
    run, steps := ReadIssued(run, steps, t, base, b, disk(base), junk);
    run, steps := Extend(run, steps, SReadSome(4, 1));
    run, steps := Extend(run, steps, SFinishRead(4));
  }
}
