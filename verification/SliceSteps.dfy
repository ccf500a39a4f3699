/**
  The slice loop of `partition_storage::write` inside the transition system: performed one
  slice at a time with nothing in between, the flush steps of a write job end in what the
  contract of the sequential write says.
 */
module SliceSteps {
  import opened Basics
  import opened Extents
  import opened Torrents
  import opened DiskSystem

  /** The flush steps of one pass over a slice list; it ends at the first name that does not parse. */
  ghost function FlushSlices(s: State, j: JobId, slices: seq<Slice>): State
    decreases |slices|
  {
    if slices == [] then s
    else if CanFlush(s, j, slices[0].size) then FlushSlices(Flush(s, j, slices[0].size), j, slices[1..])
    else if CanFailFlush(s, j) then FailFlush(s, j)
    else s
  }

  /** The slices that a write job has not stored yet. */
  function Remaining(s: State, j: JobId): seq<Slice>
    requires IsWriting(s, j) && s.jobs[j].stage.done <= s.jobs[j].req.size
  {
    MapFrom(s.Vol(s.jobs[j].idx).torrent.files, 0, WritePos(s, j), s.jobs[j].req.size - s.jobs[j].stage.done)
  }

  /** Job `j` is writing `data` to logical position `pos` of disk `before`, and is `done` bytes into it. */
  ghost predicate Under(files: seq<File>, before: Disk, pos: nat, data: seq<byte>, done: nat, disk: Disk) {
    && pos + |data| <= TotalFrom(files, 0) && done <= |data|
    && var addrs := Addresses(files, pos, |data|);
      (forall k :: 0 <= k < done ==> addrs[k].Some?) && AllStored(before, addrs[..done], data, disk)
  }

  ghost predicate UnderWay(s: State, j: JobId, files: seq<File>, before: Disk, pos: nat, data: seq<byte>) {
    && IsWriting(s, j) && !s.jobs[j].stage.failed
    && s.jobs[j].req.size == |data| <= |Source(s, j)| && Source(s, j)[..|data|] == data
    && s.Vol(s.jobs[j].idx).torrent.files == files
    && pos == BlockStart(s.Vol(s.jobs[j].idx).torrent, s.jobs[j].req.loc)
    && Under(files, before, pos, data, s.jobs[j].stage.done, s.Vol(s.jobs[j].idx).disk)
  }

  /** One slice more. */
  lemma SliceStored(files: seq<File>, before: Disk, pos: nat, data: seq<byte>, done: nat, disk: Disk, slice: Slice)
    requires Under(files, before, pos, data, done, disk) && done + slice.size <= |data|
    requires SliceFits(files, slice) && files[slice.file].base.Some?
    requires FileFrom(files, 0, pos + done) == (slice.file, slice.offset)
    ensures Address(files, pos + done) == Some(files[slice.file].base.value + slice.offset)
    ensures var after := Poke(disk, Address(files, pos + done).value, data[done..done + slice.size]);
      Under(files, before, pos, data, done + slice.size, after)
  {
    var addrs, n := Addresses(files, pos, |data|), slice.size;
    var at := Address(files, pos + done).value;
    forall i | done <= i < done + n ensures addrs[i] == Some(at + i - done) {
      FileRun(files, 0, pos + done, i - done);
      assert addrs[i] == Address(files, pos + i);
    }
    var after := Poke(disk, at, data[done..done + n]);
    forall x ensures after(x) == Stored(before, addrs[..done + n], data, x) {
      StoredSlice(before, addrs, data, done, n, at, x);
    }
  }

  lemma NextSlice(s: State, j: JobId, files: seq<File>, before: Disk, pos: nat, data: seq<byte>)
    requires UnderWay(s, j, files, before, pos, data) && s.jobs[j].stage.done < |data|
    ensures var slices, done := Remaining(s, j), s.jobs[j].stage.done;
      && slices != [] && SliceFits(files, slices[0]) && done + slices[0].size <= |data|
      && FileFrom(files, 0, pos + done) == (slices[0].file, slices[0].offset)
      && slices[1..] == MapFrom(files, 0, pos + done + slices[0].size, |data| - done - slices[0].size)
  {
    SlicesResume(files, 0, pos + s.jobs[j].stage.done, |data| - s.jobs[j].stage.done);
    assert Remaining(s, j)[0] in Remaining(s, j);
  }

  lemma SameChunk(source: seq<byte>, data: seq<byte>, done: nat, n: nat)
    requires |data| <= |source| && source[..|data|] == data && done + n <= |data|
    ensures source[done..done + n] == data[done..done + n]
  {
    assert source[..|data|][done..done + n] == source[done..done + n];
  }

  /** What a flush step leaves as it was. */
  lemma FlushLeaves(s: State, j: JobId, n: nat)
    requires CanFlush(s, j, n)
    ensures var s' := Flush(s, j, n);
      && IsWriting(s', j) && !s'.jobs[j].stage.failed && s'.jobs[j].req == s.jobs[j].req && s'.jobs[j].idx == s.jobs[j].idx
      && Source(s', j) == Source(s, j) && s'.Vol(s.jobs[j].idx).torrent == s.Vol(s.jobs[j].idx).torrent
      && s'.jobs[j].stage.done == s.jobs[j].stage.done + n
  {
  }

  lemma FlushSlice(s: State, j: JobId, files: seq<File>, before: Disk, pos: nat, data: seq<byte>, slice: Slice)
    requires UnderWay(s, j, files, before, pos, data)
    requires SliceFits(files, slice) && files[slice.file].base.Some? && s.jobs[j].stage.done + slice.size <= |data|
    requires FileFrom(files, 0, pos + s.jobs[j].stage.done) == (slice.file, slice.offset)
    ensures CanFlush(s, j, slice.size)
    ensures var s' := Flush(s, j, slice.size);
      && UnderWay(s', j, files, before, pos, data) && s'.jobs[j].idx == s.jobs[j].idx
      && s'.jobs[j].stage.done == s.jobs[j].stage.done + slice.size
  {
    var done := s.jobs[j].stage.done;
    SliceStored(files, before, pos, data, done, s.Vol(s.jobs[j].idx).disk, slice);
    SameChunk(Source(s, j), data, done, slice.size);
    FlushLeaves(s, j, slice.size);
  }

  lemma Settled(files: seq<File>, before: Disk, pos: nat, data: seq<byte>, done: nat, disk: Disk)
    requires Under(files, before, pos, data, done, disk)
    requires done < |data| ==> Address(files, pos + done).None?
    ensures WrittenTo(files, before, pos, data, disk) && Reach(Addresses(files, pos, |data|)) == done
  {
    ReachUnique(Addresses(files, pos, |data|), done);
  }

  /** The job has no more to store, and has stored and reported what a sequential write does. */
  ghost predicate Complete(s: State, j: JobId, idx: nat, files: seq<File>, before: Disk, pos: nat, data: seq<byte>) {
    && CanFinishWrite(s, j) && s.jobs[j].idx == idx && pos + |data| <= TotalFrom(files, 0)
    && WrittenTo(files, before, pos, data, s.Vol(idx).disk)
    && (s.jobs[j].stage.failed <==> Reach(Addresses(files, pos, |data|)) < |data|)
  }

  lemma PassEnds(s: State, j: JobId, files: seq<File>, before: Disk, pos: nat, data: seq<byte>)
    requires UnderWay(s, j, files, before, pos, data) && s.jobs[j].stage.done == |data|
    ensures Complete(FlushSlices(s, j, Remaining(s, j)), j, s.jobs[j].idx, files, before, pos, data)
  {
    Settled(files, before, pos, data, |data|, s.Vol(s.jobs[j].idx).disk);
    assert Remaining(s, j) == [];
  }

  lemma StuckSlice(s: State, j: JobId, slices: seq<Slice>)
    requires slices != [] && CanFailFlush(s, j)
    ensures FlushSlices(s, j, slices) == FailFlush(s, j)
  {
  }

  lemma PassFails(s: State, j: JobId, files: seq<File>, before: Disk, pos: nat, data: seq<byte>)
    requires UnderWay(s, j, files, before, pos, data) && s.jobs[j].stage.done < |data|
    requires Remaining(s, j) != [] && Address(files, pos + s.jobs[j].stage.done).None?
    ensures Complete(FlushSlices(s, j, Remaining(s, j)), j, s.jobs[j].idx, files, before, pos, data)
  {
    Settled(files, before, pos, data, s.jobs[j].stage.done, s.Vol(s.jobs[j].idx).disk);
    StuckSlice(s, j, Remaining(s, j));
    var s' := FailFlush(s, j);
    assert s'.jobs[j].stage.failed && s'.Vol(s.jobs[j].idx) == s.Vol(s.jobs[j].idx);
  }

  lemma PassGoesOn(s: State, j: JobId, files: seq<File>, before: Disk, pos: nat, data: seq<byte>) returns (s': State)
    requires UnderWay(s, j, files, before, pos, data) && s.jobs[j].stage.done < |data|
    requires Address(files, pos + s.jobs[j].stage.done).Some?
    ensures UnderWay(s', j, files, before, pos, data) && s'.jobs[j].idx == s.jobs[j].idx
    ensures s.jobs[j].stage.done < s'.jobs[j].stage.done
    ensures FlushSlices(s, j, Remaining(s, j)) == FlushSlices(s', j, Remaining(s', j))
  {
    NextSlice(s, j, files, before, pos, data);
    var slices := Remaining(s, j);
    FlushSlice(s, j, files, before, pos, data, slices[0]);
    s' := Flush(s, j, slices[0].size);
    assert Remaining(s', j) == slices[1..];
  }

  /** The pass over the slices finishes the write, with the disk and the error that the sequential write has. */
  lemma {:induction false} FlushPass(s: State, j: JobId, files: seq<File>, before: Disk, pos: nat, data: seq<byte>)
    requires UnderWay(s, j, files, before, pos, data)
    ensures Complete(FlushSlices(s, j, Remaining(s, j)), j, s.jobs[j].idx, files, before, pos, data)
    decreases |data| - s.jobs[j].stage.done
  {
    if s.jobs[j].stage.done < |data| && Address(files, pos + s.jobs[j].stage.done).Some? {
      var s' := PassGoesOn(s, j, files, before, pos, data);
      FlushPass(s', j, files, before, pos, data);
    } else if s.jobs[j].stage.done < |data| {
      NextSlice(s, j, files, before, pos, data);
      PassFails(s, j, files, before, pos, data);
    } else {
      PassEnds(s, j, files, before, pos, data);
    }
  }
}
