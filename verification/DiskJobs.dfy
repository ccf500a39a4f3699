/**
  The bodies of `async_read`, `async_write` and `async_hash` run one at a time on the real
  objects: buffers, the store buffer, the pools and a partition. With nothing interleaved
  each of them is compared with one contiguous access to the merged contents, in which a
  block's bytes are its store-buffer entry if there is one and the disk otherwise.
 */
module DiskJobs {
  import opened Basics
  import opened Extents
  import opened Torrents
  import opened BufferPools
  import opened StoreBuffers
  import opened PartitionStorages

  datatype JobError = InvalidRequest | NoMemory | Storage(error: StorageError)

  /** Entries are 16 KiB buffers of blocks; `spare` is none of them. */
  ghost predicate Indexable(entries: map<Loc, array<byte>>, spare: array<byte>) {
    forall loc :: loc in entries ==> Within(loc.offset) == 0 && entries[loc].Length == BLOCK && entries[loc] != spare
  }

  type Entries = map<Loc, seq<byte>>

  /** What the indexed buffers hold. */
  ghost function Snapshot(entries: map<Loc, array<byte>>): (r: Entries)
    reads entries.Values
    ensures r.Keys == entries.Keys && forall loc :: loc in entries ==> r[loc] == entries[loc][..]
  {
    map loc | loc in entries :: entries[loc][..]
  }

  ghost predicate FullSized(entries: Entries) {
    forall loc :: loc in entries ==> |entries[loc]| == BLOCK
  }

  ghost predicate WellSized(entries: Entries) {
    FullSized(entries) && forall loc :: loc in entries ==> Within(loc.offset) == 0
  }

  function Find(entries: Entries, loc: Loc): Option<seq<byte>> {
    if loc in entries then Some(entries[loc]) else None
  }

  function DiskByteAt(t: Torrent, disk: Disk, pos: nat): Option<byte>
    requires pos < Total(t)
  {
    match Address(t.files, pos)
    case None => None
    case Some(a) => Some(disk(a))
  }

  /** Byte `o` of a piece in the entry of its block. */
  ghost function EntryAt(entries: Entries, idx: nat, piece: nat, o: nat): Option<byte>
    requires FullSized(entries)
  {
    ByteOf(Find(entries, Loc(idx, piece, o - Within(o))), Within(o))
  }

  function Merge(indexed: Option<byte>, onDisk: Option<byte>): Option<byte> {
    if indexed.Some? then indexed else onDisk
  }

  /** One byte of the merged contents; None when it is only on disk and its file name does not parse. */
  ghost function MergedByte(entries: Entries, t: Torrent, disk: Disk, idx: nat, piece: nat, o: nat): Option<byte>
    requires o < PieceSize(t, piece) && FullSized(entries)
  {
    Merge(EntryAt(entries, idx, piece, o), DiskByteAt(t, disk, PieceStart(t, piece) + o))
  }

  ghost function Bytes(buf: array?<byte>): Option<seq<byte>>
    reads buf
  {
    if buf == null then None else Some(buf[..])
  }

  /** The callback given to `get2`: each half that has an entry is copied from it. */
  method CopyHalves(buf: array<byte>, buf1: array?<byte>, buf2: array?<byte>, readOffset: nat, length: nat)
    returns (from: nat, upto: nat)
    requires readOffset < BLOCK && 0 < length <= BLOCK == buf.Length && readOffset + length > BLOCK
    requires buf1 != null ==> buf1 != buf && buf1.Length == BLOCK
    requires buf2 != null ==> buf2 != buf && buf2.Length == BLOCK
    modifies buf
    ensures Stitched(buf[..], from, upto) == Stitch(old(buf[..]), readOffset, length, old(Bytes(buf1)), old(Bytes(buf2)))
  {
    var len1 := BLOCK - readOffset;
    if buf1 != null {
      MemCopy(buf, 0, buf1, readOffset, len1);
      assert buf1[readOffset..readOffset + len1] == buf1[..][readOffset..];
    }
    if buf2 != null {
      MemCopy(buf, len1, buf2, 0, length - len1);
      assert buf2[0..0 + (length - len1)] == buf2[..][..length - len1];
    }
    if buf1 != null && buf2 != null {
      return length, length;
    }
    if buf1 != null {
      return len1, length;
    }
    if buf2 != null {
      return 0, len1;
    }
    return 0, length;
  }

  /** `r` is what the store-buffer half of a read makes of reply buffer `before`. */
  ghost predicate IsFrontAt(before: seq<byte>, entries: Entries, idx: nat, piece: nat, block: nat, readOffset: nat, length: nat,
                            r: Stitched) {
    && |before| == BLOCK && readOffset < BLOCK && 0 < length <= BLOCK && FullSized(entries)
    && r == Stitch(before, readOffset, length, Find(entries, Loc(idx, piece, block)), Find(entries, Loc(idx, piece, block + BLOCK)))
  }

  ghost predicate IsFront(before: seq<byte>, entries: Entries, idx: nat, piece: nat, start: nat, length: nat, r: Stitched) {
    IsFrontAt(before, entries, idx, piece, start - Within(start), Within(start), length, r)
  }

  /** The store-buffer half of `async_read`: one lookup, or two when the request crosses a block boundary. */
  method ReadFront(store: StoreBuffer, idx: nat, piece: nat, blockOffset: nat, readOffset: nat, length: nat, buf: array<byte>)
    returns (from: nat, upto: nat)
    requires readOffset < BLOCK && 0 < length <= BLOCK == buf.Length && Indexable(store.entries, buf)
    modifies buf
    ensures Snapshot(store.entries) == old(Snapshot(store.entries))
    ensures IsFrontAt(old(buf[..]), Snapshot(store.entries), idx, piece, blockOffset, readOffset, length, Stitched(buf[..], from, upto))
  {
    if readOffset + length > BLOCK {
      var buf1, buf2 := store.Get2(Loc(idx, piece, blockOffset), Loc(idx, piece, blockOffset + BLOCK));
      from, upto := CopyHalves(buf, buf1, buf2, readOffset, length);
    } else {
      var buf1 := store.Get(Loc(idx, piece, blockOffset));
      if buf1 != null {
        MemCopy(buf, 0, buf1, readOffset, length);
        assert buf1[readOffset..readOffset + length] == buf1[..][readOffset..readOffset + length];
        return length, length;
      }
      return 0, length;
    }
  }

  lemma FrontSoFar(before: seq<byte>, entries: Entries, idx: nat, piece: nat, start: nat, length: nat, r: Stitched, i: nat)
    requires IsFront(before, entries, idx, piece, start, length, r) && i < length
    ensures |r.buf| == BLOCK && r.from <= r.upto <= length
    ensures SoFar(r, i) == EntryAt(entries, idx, piece, start + i)
  {
    var block := start - Within(start);
    var e1, e2 := Find(entries, Loc(idx, piece, block)), Find(entries, Loc(idx, piece, block + BLOCK));
    StitchByte(before, Within(start), length, e1, e2, i);
    HomeEntry(entries, idx, piece, start, i, Loc(idx, piece, start + i - Within(start + i)));
  }

  /** The entry of a byte's own block is the first or the second one that a read looks up. */
  lemma HomeEntry(entries: Entries, idx: nat, piece: nat, start: nat, i: nat, home: Loc)
    requires FullSized(entries) && i < BLOCK && home == Loc(idx, piece, start + i - Within(start + i))
    ensures var block := start - Within(start);
      ByteOf(Find(entries, home), Within(start + i))
      == HalvesByte(Find(entries, Loc(idx, piece, block)), Find(entries, Loc(idx, piece, block + BLOCK)), Within(start) + i)
  {
    var block := start - Within(start);
    HomeLoc(idx, piece, start, i);
    HalvesHome(Find(entries, Loc(idx, piece, block)), Find(entries, Loc(idx, piece, block + BLOCK)), Find(entries, home), start, i);
  }

  /** Byte `o` cannot be had: it is in no entry, and the error names the file whose name does not parse. */
  ghost predicate IsObstacle(entries: Entries, t: Torrent, disk: Disk, idx: nat, piece: nat, o: nat, error: StorageError)
    requires o < PieceSize(t, piece) && FullSized(entries)
  {
    && MergedByte(entries, t, disk, idx, piece, o).None?
    && error == ParseFailed(FileFrom(t.files, 0, PieceStart(t, piece) + o).0, FileRead)
  }

  /** The bytes of the reply before `o`, and all that are in an entry, are the merged contents. */
  ghost predicate MergedUpTo(entries: Entries, t: Torrent, disk: Disk, idx: nat, piece: nat, start: nat, length: nat, o: nat,
                             buf: seq<byte>)
    requires start + length <= PieceSize(t, piece) && FullSized(entries) && length <= |buf|
  {
    forall o' :: start <= o' < start + length && (o' < o || EntryAt(entries, idx, piece, o').Some?) ==>
      MergedByte(entries, t, disk, idx, piece, o') == Some(buf[o' - start])
  }

  /** `buf` holds the merged contents of the request, or as much of it as can be had up to the first obstacle. */
  ghost predicate IsMergedReply(entries: Entries, t: Torrent, disk: Disk, idx: nat, piece: nat, start: nat, length: nat,
                                buf: seq<byte>, failure: Option<StorageError>)
    requires start + length <= PieceSize(t, piece) && FullSized(entries) && length <= |buf|
  {
    match failure
    case None => forall o :: start <= o < start + length ==> MergedByte(entries, t, disk, idx, piece, o) == Some(buf[o - start])
    case Some(error) =>
      exists o :: start <= o < start + length && IsObstacle(entries, t, disk, idx, piece, o, error)
                  && MergedUpTo(entries, t, disk, idx, piece, start, length, o, buf)
  }

  /** The disk part of the reply: the bytes of [from, upto), as far as their names parse. */
  ghost predicate DiskPartDone(t: Torrent, disk: Disk, piece: nat, start: nat, r: Stitched, buf: seq<byte>, ret: nat) {
    && r.from <= r.upto && PieceStart(t, piece) + (start + r.from) + (r.upto - r.from) <= Total(t)
    && var addrs := Addresses(t.files, PieceStart(t, piece) + (start + r.from), r.upto - r.from);
      ret == Reach(addrs) && AllGathered(r.buf, r.from, disk, addrs[..ret], buf)
  }

  lemma DiskPartByte(t: Torrent, disk: Disk, piece: nat, start: nat, r: Stitched, buf: seq<byte>, ret: nat, k: nat)
    requires DiskPartDone(t, disk, piece, start, r, buf, ret) && k < |buf|
    ensures ret <= r.upto - r.from && |buf| == |r.buf|
    ensures r.from <= k < r.from + ret ==> DiskByteAt(t, disk, PieceStart(t, piece) + (start + k)) == Some(buf[k])
    ensures !(r.from <= k < r.from + ret) ==> buf[k] == r.buf[k]
    ensures k == r.from + ret < r.upto ==> DiskByteAt(t, disk, PieceStart(t, piece) + (start + k)).None?
  {
    var addrs := Addresses(t.files, PieceStart(t, piece) + (start + r.from), r.upto - r.from);
    if r.from <= k < r.upto {
      assert addrs[k - r.from] == Address(t.files, PieceStart(t, piece) + (start + k));
    }
  }

  lemma NoDiskPart(t: Torrent, disk: Disk, piece: nat, start: nat, r: Stitched)
    requires r.from == r.upto <= |r.buf| && PieceStart(t, piece) + (start + r.from) <= Total(t)
    ensures DiskPartDone(t, disk, piece, start, r, r.buf, 0)
  {
  }

  /** A byte of the reply is there exactly when its block has an entry, and is then the entry's byte. */
  ghost predicate Fronted(entries: Entries, idx: nat, piece: nat, start: nat, length: nat, r: Stitched) {
    && FullSized(entries) && |r.buf| == BLOCK && r.from <= r.upto <= length <= BLOCK
    && forall i :: 0 <= i < length ==> SoFar(r, i) == EntryAt(entries, idx, piece, start + i)
  }

  lemma FrontIsFronted(before: seq<byte>, entries: Entries, idx: nat, piece: nat, start: nat, length: nat, r: Stitched)
    requires IsFront(before, entries, idx, piece, start, length, r)
    ensures Fronted(entries, idx, piece, start, length, r)
  {
    FrontSoFar(before, entries, idx, piece, start, length, r, 0);
    forall i | 0 <= i < length
      ensures SoFar(r, i) == EntryAt(entries, idx, piece, start + i)
    {
      FrontSoFar(before, entries, idx, piece, start, length, r, i);
    }
  }

  lemma ByteIsMerged(entries: Entries, t: Torrent, disk: Disk, idx: nat, piece: nat, start: nat, length: nat,
                     r: Stitched, buf: seq<byte>, ret: nat, i: nat)
    requires Fronted(entries, idx, piece, start, length, r) && start + length <= PieceSize(t, piece) && i < length
    requires DiskPartDone(t, disk, piece, start, r, buf, ret) && |buf| == BLOCK
    ensures !(r.from + ret <= i < r.upto) ==> MergedByte(entries, t, disk, idx, piece, start + i) == Some(buf[i])
    ensures EntryAt(entries, idx, piece, start + i).Some? ==> !(r.from <= i < r.upto)
    ensures i == r.from + ret < r.upto ==> MergedByte(entries, t, disk, idx, piece, start + i).None?
  {
    assert SoFar(r, i) == EntryAt(entries, idx, piece, start + i);
    DiskPartByte(t, disk, piece, start, r, buf, ret, i);
  }

  /** The error of the disk part: the file of the first byte that it could not read. */
  ghost predicate DiskPartError(t: Torrent, piece: nat, start: nat, r: Stitched, ret: nat, failure: Option<StorageError>) {
    if r.from + ret >= r.upto then failure.None?
    else
      && PieceStart(t, piece) + (start + r.from + ret) < Total(t)
      && failure == Some(ParseFailed(FileFrom(t.files, 0, PieceStart(t, piece) + (start + r.from + ret)).0, FileRead))
  }

  lemma StoppedIsMerged(entries: Entries, t: Torrent, disk: Disk, idx: nat, piece: nat, start: nat, length: nat,
                        r: Stitched, buf: seq<byte>, ret: nat)
    requires Fronted(entries, idx, piece, start, length, r) && start + length <= PieceSize(t, piece)
    requires DiskPartDone(t, disk, piece, start, r, buf, ret) && |buf| == BLOCK && r.from + ret < r.upto
    ensures MergedByte(entries, t, disk, idx, piece, start + (r.from + ret)).None?
    ensures MergedUpTo(entries, t, disk, idx, piece, start, length, start + (r.from + ret), buf)
  {
    var o := start + (r.from + ret);
    ByteIsMerged(entries, t, disk, idx, piece, start, length, r, buf, ret, r.from + ret);
    forall o' | start <= o' < start + length && (o' < o || EntryAt(entries, idx, piece, o').Some?)
      ensures MergedByte(entries, t, disk, idx, piece, o') == Some(buf[o' - start])
    {
      ByteIsMerged(entries, t, disk, idx, piece, start, length, r, buf, ret, o' - start);
    }
  }

  /** Stitching plus the disk read of the remaining part is one contiguous read of the merged contents. */
  lemma StitchedIsMerged(entries: Entries, t: Torrent, disk: Disk, idx: nat, piece: nat, start: nat, length: nat,
                         r: Stitched, buf: seq<byte>, ret: nat, failure: Option<StorageError>)
    requires Fronted(entries, idx, piece, start, length, r) && start + length <= PieceSize(t, piece)
    requires DiskPartDone(t, disk, piece, start, r, buf, ret) && |buf| == BLOCK && DiskPartError(t, piece, start, r, ret, failure)
    ensures IsMergedReply(entries, t, disk, idx, piece, start, length, buf, failure)
  {
    if r.from + ret < r.upto {
      StoppedIsMerged(entries, t, disk, idx, piece, start, length, r, buf, ret);
      assert IsObstacle(entries, t, disk, idx, piece, start + (r.from + ret), failure.value);
    } else {
      forall o | start <= o < start + length ensures MergedByte(entries, t, disk, idx, piece, o) == Some(buf[o - start]) {
        ByteIsMerged(entries, t, disk, idx, piece, start, length, r, buf, ret, o - start);
      }
    }
  }

  /** What the store buffer has is the whole reply when nothing is left to the disk. */
  lemma FrontIsWhole(entries: Entries, t: Torrent, disk: Disk, idx: nat, piece: nat, start: nat, length: nat, r: Stitched)
    requires Fronted(entries, idx, piece, start, length, r) && start + length <= PieceSize(t, piece) && r.from == r.upto
    requires PieceStart(t, piece) + (start + r.from) <= Total(t)
    ensures IsMergedReply(entries, t, disk, idx, piece, start, length, r.buf, None)
  {
    NoDiskPart(t, disk, piece, start, r);
    StitchedIsMerged(entries, t, disk, idx, piece, start, length, r, r.buf, 0, None);
  }

  /** The store-buffer half on a reply buffer, and what it leaves to the disk. */
  method ReadIndexed(store: StoreBuffer, st: PartitionStorage, idx: nat, piece: nat, start: nat, length: nat, buf: array<byte>)
    returns (from: nat, upto: nat)
    requires 0 < length <= BLOCK == buf.Length && InPiece(st.geometry, piece, start, length) && Indexable(store.entries, buf)
    modifies buf
    ensures Snapshot(store.entries) == old(Snapshot(store.entries))
    ensures Fronted(Snapshot(store.entries), idx, piece, start, length, Stitched(buf[..], from, upto))
    ensures from == upto ==>
      IsMergedReply(Snapshot(store.entries), st.geometry, st.disk, idx, piece, start, length, buf[..], None)
  {
    ghost var junk, entries := buf[..], Snapshot(store.entries);
    from, upto := ReadFront(store, idx, piece, start - Within(start), Within(start), length, buf);
    ghost var r := Stitched(buf[..], from, upto);
    FrontIsFronted(junk, entries, idx, piece, start, length, r);
    if from == upto {
      FrontIsWhole(entries, st.geometry, st.disk, idx, piece, start, length, r);
    }
  }

  /**
    The call of `async_read`: the two early errors, or a buffer in which exactly the bytes of
    indexed blocks are there; the range [from, upto) is left to a posted job, and when it
    is empty the reply is complete.
   */
  method AsyncRead(pool: BufferPool, store: StoreBuffer, st: PartitionStorage, idx: nat, piece: nat, start: int, length: int,
                   mallocOk: bool)
    returns (buf: array?<byte>, from: nat, upto: nat, error: Option<JobError>)
    requires length <= BLOCK
    requires 0 < length && 0 <= start ==> InPiece(st.geometry, piece, start, length)
    requires forall loc :: loc in store.entries ==> Within(loc.offset) == 0 && store.entries[loc].Length == BLOCK
    modifies pool
    ensures length <= 0 || start < 0 ==> buf == null && error == Some(InvalidRequest) && pool.State() == old(pool.State())
    ensures 0 < length && 0 <= start ==> (pool.State(), buf != null) == AllocateImpl(old(pool.State()), mallocOk)
    ensures 0 < length && 0 <= start && buf == null ==> error == Some(NoMemory)
    ensures buf != null ==> fresh(buf) && 0 < length <= buf.Length == BLOCK && 0 <= start && error.None?
    ensures buf != null ==> Fronted(Snapshot(store.entries), idx, piece, start, length, Stitched(buf[..], from, upto))
    ensures buf != null && from == upto ==>
      IsMergedReply(Snapshot(store.entries), st.geometry, st.disk, idx, piece, start, length, buf[..], None)
  {
    from, upto, error := 0, 0, None;
    if length <= 0 || start < 0 {
      return null, 0, 0, Some(InvalidRequest);
    }
    buf := pool.AllocateBuffer(mallocOk);
    if buf == null {
      return null, 0, 0, Some(NoMemory);
    }
    from, upto := ReadIndexed(store, st, idx, piece, start, length, buf);
  }

  /**
    The posted job of a read. Whatever has happened to the store buffer and to the disk since the
    call, the reply is one contiguous read of [start, start + length) from the entries of
    the call merged with the disk of the job; a failed one is that up to the first byte that
    cannot be had, and in all bytes that were indexed.
   */
  method ReadJob(st: PartitionStorage, ghost entries: Entries, ghost idx: nat, piece: nat, start: nat, ghost length: nat,
                 buf: array<byte>, from: nat, upto: nat)
    returns (failure: Option<StorageError>)
    requires st.Valid() && buf.Length == BLOCK && from < upto && InPiece(st.geometry, piece, start, length)
    requires Fronted(entries, idx, piece, start, length, Stitched(buf[..], from, upto))
    modifies buf
    ensures IsMergedReply(entries, st.geometry, st.disk, idx, piece, start, length, buf[..], failure)
  {
    ghost var r := Stitched(buf[..], from, upto);
    var ret;
    ret, failure := st.Read(buf, from, piece, start + from, upto - from);
    assert PieceStart(st.geometry, piece) + (start + from) + ret == PieceStart(st.geometry, piece) + (start + from + ret);
    StitchedIsMerged(entries, st.geometry, st.disk, idx, piece, start, length, r, buf[..], ret, failure);
  }

  // ---------- async_write ----------

  /** With a buffer: the block is copied into it and indexed. */
  method IndexBlock(store: StoreBuffer, loc: Loc, buf: array<byte>, data: array<byte>, length: nat)
    requires buf != data && length <= buf.Length && length <= data.Length
    modifies buf, store
    ensures buf[..length] == data[..length] && store.entries == InsertEntry(old(store.entries), loc, buf)
  {
    MemCopy(buf, 0, data, 0, length);
    assert buf[..length] == data[0..0 + length] == data[..length];
    store.Insert(loc, buf);
  }

  /** Without one: the block is written at once. */
  method WriteAtOnce(st: PartitionStorage, loc: Loc, data: array<byte>, length: nat) returns (failure: Option<StorageError>)
    requires st.Valid() && length <= data.Length && InPiece(st.geometry, loc.piece, loc.offset, length)
    modifies st
    ensures WrittenTo(st.geometry.files, old(st.disk), BlockStart(st.geometry, loc), data[..length], st.disk)
    ensures failure == FailureOf(st.geometry.files, BlockStart(st.geometry, loc), length, FileWrite)
  {
    failure := st.Write(data, loc.piece, loc.offset, length);
  }

  /** The call: copy, index and leave the rest to a job, or write at once when no buffer is to be had. */
  method AsyncWrite(pool: BufferPool, store: StoreBuffer, st: PartitionStorage, loc: Loc, data: array<byte>, length: nat,
                    mallocOk: bool, o: Option<Observer>)
    returns (buf: array?<byte>, exceeded: bool, failure: Option<StorageError>)
    requires st.Valid() && length <= BLOCK && length <= data.Length && InPiece(st.geometry, loc.piece, loc.offset, length)
    modifies pool, store, st
    ensures (pool.State(), buf != null, exceeded) == AllocateWatched(old(pool.State()), mallocOk, o)
    ensures buf != null ==> fresh(buf) && buf.Length == BLOCK && buf[..length] == data[..length]
    ensures buf != null ==> store.entries == InsertEntry(old(store.entries), loc, buf) && st.disk == old(st.disk) && failure.None?
    ensures buf == null ==> store.entries == old(store.entries)
    ensures buf == null ==> WrittenTo(st.geometry.files, old(st.disk), BlockStart(st.geometry, loc), data[..length], st.disk)
    ensures buf == null ==> failure == FailureOf(st.geometry.files, BlockStart(st.geometry, loc), length, FileWrite)
  {
    buf, exceeded := pool.AllocateBufferWatched(mallocOk, o);
    failure := None;
    if buf != null {
      IndexBlock(store, loc, buf, data, length);
    } else {
      failure := WriteAtOnce(st, loc, data, length);
    }
  }

  /** The job: write, un-index, and only then give the buffer back. */
  method WriteJob(pool: BufferPool, store: StoreBuffer, st: PartitionStorage, loc: Loc, buf: array<byte>, length: nat)
    returns (failure: Option<StorageError>)
    requires st.Valid() && pool.size > 0 && length <= buf.Length && InPiece(st.geometry, loc.piece, loc.offset, length)
    modifies pool, store, st
    ensures WrittenTo(st.geometry.files, old(st.disk), BlockStart(st.geometry, loc), buf[..length], st.disk)
    ensures store.entries == EraseEntry(old(store.entries), loc)
    ensures pool.State() == FreeBuffer(old(pool.State()))
    ensures failure == FailureOf(st.geometry.files, BlockStart(st.geometry, loc), length, FileWrite)
  {
    failure := WriteAtOnce(st, loc, buf, length);
    store.Erase(loc);
    pool.FreeDiskBuffer();
  }

  // ---------- async_hash ----------

  /** The hash loop after `round` rounds: what has been fed is the start of the merged piece. */
  ghost predicate HashedSoFar(entries: Entries, t: Torrent, disk: Disk, idx: nat, piece: nat, round: nat, fed: seq<byte>, failed: bool) {
    && WellSized(entries) && PieceStart(t, piece) + PieceSize(t, piece) <= Total(t)
    && round <= Rounds(t, piece) && |fed| <= PieceSize(t, piece)
    && (forall o :: 0 <= o < |fed| ==> MergedByte(entries, t, disk, idx, piece, o) == Some(fed[o]))
    && (!failed ==> |fed| == Min(round * BLOCK, PieceSize(t, piece)))
    && (failed ==> |fed| < PieceSize(t, piece) && Within(|fed|) != 0
                   && Address(t.files, PieceStart(t, piece) + |fed|).None?
                   && MergedByte(entries, t, disk, idx, piece, |fed|).None?)
  }

  /** `more` is what a disk read of `len` bytes at logical position `pos` delivers. */
  ghost predicate DiskRun(t: Torrent, disk: Disk, pos: nat, len: nat, more: seq<byte>) {
    && pos + len <= Total(t) && |more| <= len
    && (forall k :: 0 <= k < |more| ==> DiskByteAt(t, disk, pos + k) == Some(more[k]))
    && (|more| < len ==> DiskByteAt(t, disk, pos + |more|).None?)
  }

  /** The error names the file of logical byte `pos`. */
  ghost predicate NamesFileAt(t: Torrent, pos: nat, error: Option<StorageError>) {
    pos < Total(t) && error == Some(ParseFailed(FileFrom(t.files, 0, pos).0, FileRead))
  }

  lemma RoundRead(t: Torrent, disk: Disk, pos: nat, len: nat, before: seq<byte>, buf: seq<byte>, ret: nat)
    requires pos + len <= Total(t)
    requires var addrs := Addresses(t.files, pos, len); ret == Reach(addrs) && AllGathered(before, 0, disk, addrs[..ret], buf)
    ensures ret <= len && ret <= |buf| && DiskRun(t, disk, pos, len, buf[..ret])
  {
    var addrs := Addresses(t.files, pos, len);
    forall k | 0 <= k < ret ensures DiskByteAt(t, disk, pos + k) == Some(buf[..ret][k]) {
      assert addrs[..ret][k] == Address(t.files, pos + k);
    }
  }

  lemma FirstByteParses(t: Torrent, disk: Disk, pos: nat, len: nat, more: seq<byte>)
    requires DiskRun(t, disk, pos, len, more) && pos < Total(t)
    ensures more != [] ==> Address(t.files, pos).Some?
  {
    if more != [] {
      assert DiskByteAt(t, disk, pos + 0) == Some(more[0]);
    }
  }

  /** A round that hits feeds the entry's bytes; it cannot follow a short read. */
  lemma HashHit(entries: Entries, t: Torrent, disk: Disk, idx: nat, piece: nat, round: nat, fed: seq<byte>, failed: bool)
    requires HashedSoFar(entries, t, disk, idx, piece, round, fed, failed) && round < Rounds(t, piece)
    requires Loc(idx, piece, |fed|) in entries
    ensures var len := Min(BLOCK, PieceSize(t, piece) - |fed|);
      && 0 < len && !failed
      && HashedSoFar(entries, t, disk, idx, piece, round + 1, fed + entries[Loc(idx, piece, |fed|)][..len], false)
  {
    RoundArithmetic(PieceSize(t, piece), round, |fed|);
    var len := Min(BLOCK, PieceSize(t, piece) - |fed|);
    var more := entries[Loc(idx, piece, |fed|)][..len];
    forall o | 0 <= o < |fed + more| ensures MergedByte(entries, t, disk, idx, piece, o) == Some((fed + more)[o]) {
      if |fed| <= o {
        OffsetShift(|fed|, o - |fed|);
      }
    }
  }

  /** Without an entry at the aligned offset `fed`, the merged bytes of that block are the disk's. */
  lemma MissedByte(entries: Entries, t: Torrent, disk: Disk, idx: nat, piece: nat, fed: nat, k: nat)
    requires WellSized(entries) && Within(fed) == 0 && k < BLOCK && fed + k < PieceSize(t, piece)
    requires Loc(idx, piece, fed) !in entries
    ensures PieceStart(t, piece) + fed + k < Total(t)
    ensures MergedByte(entries, t, disk, idx, piece, fed + k) == DiskByteAt(t, disk, PieceStart(t, piece) + fed + k)
  {
    OffsetShift(fed, k);
    assert PieceStart(t, piece) + fed + k == PieceStart(t, piece) + (fed + k);
  }

  /** A first round that misses, or one after whole blocks: it feeds the whole block, or the bytes before an unparseable name. */
  lemma HashMissAligned(entries: Entries, t: Torrent, disk: Disk, idx: nat, piece: nat, round: nat, fed: seq<byte>, more: seq<byte>)
    requires HashedSoFar(entries, t, disk, idx, piece, round, fed, false) && round < Rounds(t, piece)
    requires Loc(idx, piece, |fed|) !in entries
    requires DiskRun(t, disk, PieceStart(t, piece) + |fed|, Min(BLOCK, PieceSize(t, piece) - |fed|), more)
    ensures var len := Min(BLOCK, PieceSize(t, piece) - |fed|);
      && 0 < len
      && (more != [] ==> HashedSoFar(entries, t, disk, idx, piece, round + 1, fed + more, |more| < len))
      && (more == [] ==> |fed| < PieceSize(t, piece) && MergedByte(entries, t, disk, idx, piece, |fed|).None?)
  {
    RoundArithmetic(PieceSize(t, piece), round, |fed|);
    var len := Min(BLOCK, PieceSize(t, piece) - |fed|);
    forall o | 0 <= o < |fed + more| ensures MergedByte(entries, t, disk, idx, piece, o) == Some((fed + more)[o]) {
      if |fed| <= o {
        MissedByte(entries, t, disk, idx, piece, |fed|, o - |fed|);
      }
    }
    if |more| < len {
      MissedByte(entries, t, disk, idx, piece, |fed|, |more|);
      OffsetShift(|fed|, |more|);
    }
  }

  /** A round that misses feeds what the disk gives; after a short read that is nothing, and the loop ends. */
  lemma HashMiss(entries: Entries, t: Torrent, disk: Disk, idx: nat, piece: nat, round: nat, fed: seq<byte>, failed: bool,
                 more: seq<byte>)
    requires HashedSoFar(entries, t, disk, idx, piece, round, fed, failed) && round < Rounds(t, piece)
    requires Loc(idx, piece, |fed|) !in entries
    requires DiskRun(t, disk, PieceStart(t, piece) + |fed|, Min(BLOCK, PieceSize(t, piece) - |fed|), more)
    ensures var len := Min(BLOCK, PieceSize(t, piece) - |fed|);
      && 0 < len
      && (more != [] ==> HashedSoFar(entries, t, disk, idx, piece, round + 1, fed + more, |more| < len))
      && (more == [] ==> |fed| < PieceSize(t, piece) && MergedByte(entries, t, disk, idx, piece, |fed|).None?)
  {
    if failed {
      FirstByteParses(t, disk, PieceStart(t, piece) + |fed|, Min(BLOCK, PieceSize(t, piece) - |fed|), more);
    } else {
      HashMissAligned(entries, t, disk, idx, piece, round, fed, more);
    }
  }

  /** The disk read of a round that missed. */
  method HashFromDisk(st: PartitionStorage, piece: nat, buf: array<byte>, offset: nat, len: nat)
    returns (more: seq<byte>, failure: Option<StorageError>)
    requires st.Valid() && len <= buf.Length && InPiece(st.geometry, piece, offset, len)
    modifies buf
    ensures DiskRun(st.geometry, st.disk, PieceStart(st.geometry, piece) + offset, len, more)
    ensures failure.Some? <==> |more| < len
    ensures failure.Some? ==> NamesFileAt(st.geometry, PieceStart(st.geometry, piece) + offset + |more|, failure)
  {
    ghost var before := buf[..];
    var ret;
    ret, failure := st.Read(buf, 0, piece, offset, len);
    RoundRead(st.geometry, st.disk, PieceStart(st.geometry, piece) + offset, len, before, buf[..], ret);
    more := buf[..][..ret];
  }

  lemma OffsetInPiece(entries: Entries, t: Torrent, disk: Disk, idx: nat, piece: nat, round: nat, fed: seq<byte>, failed: bool)
    requires HashedSoFar(entries, t, disk, idx, piece, round, fed, failed) && round < Rounds(t, piece)
    ensures |fed| < PieceSize(t, piece) && InPiece(t, piece, |fed|, Min(BLOCK, PieceSize(t, piece) - |fed|))
  {
    if !failed {
      RoundArithmetic(PieceSize(t, piece), round, |fed|);
    }
  }

  /** One round of the hash loop: a lookup and, on a miss, a disk read. */
  method HashRound(store: StoreBuffer, st: PartitionStorage, idx: nat, piece: nat, buf: array<byte>, round: nat, fed: seq<byte>,
                   error: Option<StorageError>)
    returns (more: seq<byte>, failure: Option<StorageError>)
    requires st.Valid() && buf.Length == BLOCK && Indexable(store.entries, buf) && round < Rounds(st.geometry, piece)
    requires HashedSoFar(Snapshot(store.entries), st.geometry, st.disk, idx, piece, round, fed, error.Some?)
    requires error.Some? ==> NamesFileAt(st.geometry, PieceStart(st.geometry, piece) + |fed|, error)
    modifies buf
    ensures Snapshot(store.entries) == old(Snapshot(store.entries))
    ensures error.Some? ==> failure.Some?
    ensures more != [] ==>
      HashedSoFar(Snapshot(store.entries), st.geometry, st.disk, idx, piece, round + 1, fed + more, failure.Some?)
    ensures failure.Some? ==> NamesFileAt(st.geometry, PieceStart(st.geometry, piece) + |fed| + |more|, failure)
    ensures more == [] ==> failure.Some? && |fed| < PieceSize(st.geometry, piece)
    ensures more == [] ==> MergedByte(Snapshot(store.entries), st.geometry, st.disk, idx, piece, |fed|).None?
  {
    var len := Min(BLOCK, PieceSize(st.geometry, piece) - |fed|);
    failure := error;
    var entry := store.Get(Loc(idx, piece, |fed|));
    if entry != null {
      HashHit(Snapshot(store.entries), st.geometry, st.disk, idx, piece, round, fed, error.Some?);
      more := entry[..len];
      assert more == Snapshot(store.entries)[Loc(idx, piece, |fed|)][..len];
    } else {
      OffsetInPiece(Snapshot(store.entries), st.geometry, st.disk, idx, piece, round, fed, error.Some?);
      var e;
      more, e := HashFromDisk(st, piece, buf, |fed|, len);
      if e.Some? {
        failure := e;
      }
      HashMiss(Snapshot(store.entries), st.geometry, st.disk, idx, piece, round, fed, error.Some?, more);
    }
  }

  /** `fed` is what one read of the whole piece delivers, the part before an unparseable name if there is one. */
  ghost predicate IsOneRead(t: Torrent, disk: Disk, piece: nat, fed: seq<byte>) {
    && PieceStart(t, piece) + PieceSize(t, piece) <= Total(t)
    && var addrs := Addresses(t.files, PieceStart(t, piece), PieceSize(t, piece));
      |fed| == Reach(addrs) && fed == Gathered(disk, addrs[..|fed|])
  }

  lemma BlockwiseIsWhole(entries: Entries, t: Torrent, disk: Disk, idx: nat, piece: nat, fed: seq<byte>)
    requires FullSized(entries) && PieceStart(t, piece) + PieceSize(t, piece) <= Total(t) && |fed| <= PieceSize(t, piece)
    requires forall o :: 0 <= o < |fed| ==> MergedByte(entries, t, disk, idx, piece, o) == Some(fed[o])
    requires |fed| < PieceSize(t, piece) ==> MergedByte(entries, t, disk, idx, piece, |fed|).None?
    ensures entries == map[] ==> IsOneRead(t, disk, piece, fed)
  {
    if entries == map[] {
      var addrs := Addresses(t.files, PieceStart(t, piece), PieceSize(t, piece));
      forall k | 0 <= k < |fed| ensures addrs[k].Some? && fed[k] == disk(addrs[k].value) {
        assert MergedByte(entries, t, disk, idx, piece, k) == Some(fed[k]);
      }
      ReachUnique(addrs, |fed|);
    }
  }

  /**
    The body of the hash job with a fixed image, for any mix of parseable and unparseable
    names: the bytes hashed are the merged piece when no error is recorded, after exactly
    as many rounds as the piece has blocks, and otherwise the part of it before a byte that
    cannot be had, whose file the error names. With nothing indexed, reading block by block delivers exactly what one read
    of the whole piece would.
   */
  method HashPiece(store: StoreBuffer, st: PartitionStorage, idx: nat, piece: nat, buf: array<byte>)
    returns (fed: seq<byte>, error: Option<StorageError>, rounds: nat)
    requires st.Valid() && buf.Length == BLOCK && Indexable(store.entries, buf)
    requires PieceStart(st.geometry, piece) < Total(st.geometry)
    modifies buf
    ensures Snapshot(store.entries) == old(Snapshot(store.entries))
    ensures |fed| <= PieceSize(st.geometry, piece)
    ensures forall o :: 0 <= o < |fed| ==>
      MergedByte(Snapshot(store.entries), st.geometry, st.disk, idx, piece, o) == Some(fed[o])
    ensures error.None? ==> |fed| == PieceSize(st.geometry, piece) && rounds == Rounds(st.geometry, piece)
    ensures error.Some? ==> |fed| < PieceSize(st.geometry, piece)
    ensures error.Some? ==> IsObstacle(Snapshot(store.entries), st.geometry, st.disk, idx, piece, |fed|, error.value)
    ensures store.entries == map[] ==> IsOneRead(st.geometry, st.disk, piece, fed)
  {
    fed, error, rounds := [], None, 0;
    var blocks := Rounds(st.geometry, piece);
    while rounds < blocks
      invariant Snapshot(store.entries) == old(Snapshot(store.entries))
      invariant HashedSoFar(Snapshot(store.entries), st.geometry, st.disk, idx, piece, rounds, fed, error.Some?)
      invariant error.Some? ==> NamesFileAt(st.geometry, PieceStart(st.geometry, piece) + |fed|, error)
      decreases blocks - rounds
    {
      var more, failure := HashRound(store, st, idx, piece, buf, rounds, fed, error);
      error := failure;
      if more == [] {
        BlockwiseIsWhole(Snapshot(store.entries), st.geometry, st.disk, idx, piece, fed);
        return;
      }
      fed := fed + more;
      rounds := rounds + 1;
    }
    BlockwiseIsWhole(Snapshot(store.entries), st.geometry, st.disk, idx, piece, fed);
  }
}
