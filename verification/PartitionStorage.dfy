/** `partition_storage`: scatter and gather of piece ranges over a raw partition. */
module PartitionStorages {
  import opened Basics
  import opened HexNames
  import opened Extents
  import opened Torrents

  datatype NamedFile = NamedFile(name: string, size: nat)

  /** The extents that a file list describes. */
  function Layout(files: seq<NamedFile>): (r: seq<File>)
    ensures |r| == |files|
    ensures forall i :: 0 <= i < |files| ==> r[i] == File(Stoll(files[i].name), files[i].size)
  {
    seq(|files|, i requires 0 <= i < |files| => File(Stoll(files[i].name), files[i].size))
  }

  datatype Operation = FileRead | FileWrite

  /** `storage_error` with `errors::parse_failed`. */
  datatype StorageError = ParseFailed(file: nat, operation: Operation)

  /** The disk bytes at a list of addresses. */
  function Gathered(disk: Disk, addrs: seq<Option<int>>): (r: seq<byte>)
    requires forall k :: 0 <= k < |addrs| ==> addrs[k].Some?
    ensures |r| == |addrs|
    ensures forall k :: 0 <= k < |r| ==> r[k] == disk(addrs[k].value)
  {
    seq(|addrs|, k requires 0 <= k < |addrs| => disk(addrs[k].value))
  }

  /** The error that a transfer of a range records: the file of the first byte whose name does not parse. */
  function FailureOf(files: seq<File>, pos: nat, length: nat, operation: Operation): Option<StorageError>
    requires pos + length <= TotalFrom(files, 0)
  {
    var n := Reach(Addresses(files, pos, length));
    if n == length then None else Some(ParseFailed(FileFrom(files, 0, pos + n).0, operation))
  }

  /** A range, its slices and its byte addresses; the bookkeeping of the two transfer loops. */
  datatype Transfer = Transfer(files: seq<File>, pos: nat, length: nat, slices: seq<Slice>, addrs: seq<Option<int>>)
  {
    ghost predicate Valid() {
      && pos + length <= TotalFrom(files, 0)
      && slices == MapFrom(files, 0, pos, length)
      && addrs == Addresses(files, pos, length)
    }

    /** `m` slices are the first `done` bytes, all of them with parseable names. */
    ghost predicate Reached(m: nat, done: nat) {
      && m <= |slices| && done <= length == |Flattened(slices)| == |addrs|
      && Flattened(slices[m..]) == Flattened(slices)[done..]
      && forall k :: 0 <= k < done ==> addrs[k].Some?
    }

    ghost predicate Stuck(done: nat, file: nat) {
      && done < length == |addrs| && addrs[done].None?
      && (forall k :: 0 <= k < done ==> addrs[k].Some?)
      && pos + done < TotalFrom(files, 0) && FileFrom(files, 0, pos + done).0 == file
    }

    /** The bytes of slice `m` follow the first `done` bytes. */
    lemma SliceAt(m: nat, done: nat)
      requires Valid() && Reached(m, done) && m < |slices|
      ensures SliceFits(files, slices[m]) && done + slices[m].size <= length
      ensures Flattened(slices[m + 1..]) == Flattened(slices)[done + slices[m].size..]
      ensures forall i :: done <= i < done + slices[m].size ==>
        Flattened(slices)[i] == (slices[m].file, slices[m].offset + i - done)
    {
      var slice, bytes := slices[m], Flattened(slices);
      assert slice in slices;
      assert slices[m..][0] == slice && slices[m..][1..] == slices[m + 1..];
      assert bytes[done..] == SliceBytes(slice) + Flattened(slices[m + 1..]);
      assert bytes[done + slice.size..] == bytes[done..][slice.size..];
      forall i | done <= i < done + slice.size ensures bytes[i] == (slice.file, slice.offset + i - done) {
        assert bytes[i] == bytes[done..][i - done] == SliceBytes(slice)[i - done];
      }
    }

    lemma Next(m: nat, done: nat)
      requires Valid() && Reached(m, done) && m < |slices|
      ensures SliceFits(files, slices[m]) && done + slices[m].size <= length
      ensures files[slices[m].file].base.None? ==> Stuck(done, slices[m].file)
      ensures files[slices[m].file].base.Some? ==> Reached(m + 1, done + slices[m].size)
      ensures forall i :: done <= i < done + slices[m].size ==>
        addrs[i] == AddressIn(files, slices[m].file, slices[m].offset + i - done)
    {
      SlicesAreTheRange(files, pos, length);
      SliceAt(m, done);
      assert Flattened(slices)[done] == FileFrom(files, 0, pos + done);
      forall i | done <= i < done + slices[m].size
        ensures addrs[i] == AddressIn(files, slices[m].file, slices[m].offset + i - done)
      {
        assert Flattened(slices)[i] == FileFrom(files, 0, pos + i);
      }
    }

    lemma Failed(done: nat, file: nat)
      requires Valid() && Stuck(done, file)
      ensures Reach(addrs) == done < length
      ensures forall operation :: FailureOf(files, pos, length, operation) == Some(ParseFailed(file, operation))
    {
      ReachUnique(addrs, done);
    }

    lemma Finished(done: nat)
      requires Valid() && Reached(|slices|, done)
      ensures done == length == Reach(addrs)
      ensures forall operation :: FailureOf(files, pos, length, operation) == None
    {
      assert slices[|slices|..] == [];
      ReachUnique(addrs, done);
    }
  }

  lemma Delivered(t: Transfer, before: Disk, data: seq<byte>, done: nat, after: Disk)
    requires t.Valid() && |data| == t.length && done == Reach(t.addrs) && AllStored(before, t.addrs[..done], data, after)
    ensures WrittenTo(t.files, before, t.pos, data, after)
  {
  }

  lemma Begin(files: seq<File>, pos: nat, length: nat) returns (t: Transfer)
    requires pos + length <= TotalFrom(files, 0)
    ensures t == Transfer(files, pos, length, MapFrom(files, 0, pos, length), Addresses(files, pos, length))
    ensures t.Valid() && t.Reached(0, 0)
  {
    t := Transfer(files, pos, length, MapFrom(files, 0, pos, length), Addresses(files, pos, length));
    SlicesAreTheRange(files, pos, length);
    assert t.slices[0..] == t.slices;
  }

  /** `buffer` is `before` with the disk bytes at `addrs` copied in at `at`. */
  ghost predicate AllGathered(before: seq<byte>, at: nat, disk: Disk, addrs: seq<Option<int>>, buffer: seq<byte>) {
    && at + |addrs| <= |before| == |buffer|
    && (forall k :: 0 <= k < |addrs| ==> addrs[k].Some?)
    && buffer == Overlay(before, at, Gathered(disk, addrs))
  }

  /** One more slice read after `done` bytes extends what has been gathered. */
  lemma GatherNext(before: seq<byte>, at: nat, disk: Disk, addrs: seq<Option<int>>, done: nat, n: nat, address: int,
                   buffer: seq<byte>, after: seq<byte>)
    requires done + n <= |addrs| && at + done + n <= |before|
    requires forall i :: done <= i < done + n ==> addrs[i] == Some(address + i - done)
    requires AllGathered(before, at, disk, addrs[..done], buffer)
    requires after == Overlay(buffer, at + done, Peek(disk, address, n))
    ensures AllGathered(before, at, disk, addrs[..done + n], after)
  {
    forall k | 0 <= k < done + n ensures addrs[k].Some? {
      assert k < done ==> addrs[k] == addrs[..done][k];
    }
    assert after == Overlay(before, at, Gathered(disk, addrs[..done + n]));
  }

  /** One more slice written after `done` bytes extends what has been stored. */
  lemma StoreNext(before: Disk, disk: Disk, addrs: seq<Option<int>>, data: seq<byte>, done: nat, n: nat, at: int, after: Disk)
    requires done + n <= |addrs| <= |data|
    requires forall i :: done <= i < done + n ==> addrs[i] == Some(at + i - done)
    requires AllStored(before, addrs[..done], data, disk)
    requires after == Poke(disk, at, data[done..done + n])
    ensures AllStored(before, addrs[..done + n], data, after)
  {
    forall x ensures after(x) == Stored(before, addrs[..done + n], data, x) {
      StoredSlice(before, addrs, data, done, n, at, x);
    }
  }

  class PartitionStorage {
    const files: seq<NamedFile>
    const geometry: Torrent
    var disk: Disk

    /** The extents are the ones that the file names and sizes describe. */
    ghost predicate Valid() {
      && |geometry.files| == |files|
      && forall i {:trigger files[i]} :: 0 <= i < |files| ==> geometry.files[i] == File(Stoll(files[i].name), files[i].size)
    }

    constructor (files: seq<NamedFile>, pieceLength: Positive, disk: Disk)
      ensures Valid() && this.files == files && this.disk == disk
      ensures geometry == Torrent(Layout(files), pieceLength)
    {
      this.files, this.disk := files, disk;
      this.geometry := Torrent(Layout(files), pieceLength);
    }

    method ParseName(f: nat) returns (base: Option<int>)
      requires Valid() && f < |geometry.files|
      ensures base == geometry.files[f].base
    {
      base := Stoll(files[f].name);
    }

    /** pread: transfers every byte. */
    method Pread(buffer: array<byte>, at: nat, n: nat, address: int)
      requires at + n <= buffer.Length
      modifies buffer
      ensures buffer[..] == Overlay(old(buffer[..]), at, Peek(disk, address, n))
    {
      forall i | at <= i < at + n {
        buffer[i] := disk(address + i - at);
      }
    }

    /** One round of the read loop: the next slice is read, or its name does not parse. */
    method ReadSlice(buffer: array<byte>, at: nat, slice: Slice, done: nat,
                     ghost before: seq<byte>, ghost t: Transfer, ghost m: nat)
      returns (ok: bool)
      requires Valid() && t.Valid() && t.files == geometry.files && t.Reached(m, done) && m < |t.slices| && slice == t.slices[m]
      requires at + t.length <= |before|
      requires AllGathered(before, at, disk, t.addrs[..done], buffer[..])
      modifies buffer
      ensures done + slice.size <= t.length
      ensures ok ==> t.Reached(m + 1, done + slice.size)
      ensures ok ==> AllGathered(before, at, disk, t.addrs[..done + slice.size], buffer[..])
      ensures !ok ==> t.Stuck(done, slice.file) && buffer[..] == old(buffer[..])
    {
      t.Next(m, done);
      var parsed := ParseName(slice.file);
      if parsed.None? {
        return false;
      }
      var partitionOffset := parsed.value + slice.offset;
      Pread(buffer, at + done, slice.size, partitionOffset);
      GatherNext(before, at, disk, t.addrs, done, slice.size, partitionOffset, old(buffer[..]), buffer[..]);
      return true;
    }

    method ReadRange(buffer: array<byte>, at: nat, pos: nat, length: nat)
      returns (ret: nat, error: Option<StorageError>)
      requires Valid() && pos + length <= TotalFrom(geometry.files, 0) && at + length <= buffer.Length
      modifies buffer
      ensures ret == Reach(Addresses(geometry.files, pos, length))
      ensures AllGathered(old(buffer[..]), at, disk, Addresses(geometry.files, pos, length)[..ret], buffer[..])
      ensures error == FailureOf(geometry.files, pos, length, FileRead)
    {
      var slices := MapFrom(geometry.files, 0, pos, length);
      ghost var t := Begin(geometry.files, pos, length);
      ret, error := 0, None;
      for m := 0 to |slices|
        invariant t.Reached(m, ret) && ret <= length
        invariant AllGathered(old(buffer[..]), at, disk, t.addrs[..ret], buffer[..])
      {
        var slice := slices[m];
        var ok := ReadSlice(buffer, at, slice, ret, old(buffer[..]), t, m);
        if !ok {
          t.Failed(ret, slice.file);
          return ret, Some(ParseFailed(slice.file, FileRead));
        }
        ret := ret + slice.size;
      }
      t.Finished(ret);
    }

    /** Reads into `buffer[at..]`; stops at the first slice whose file name does not parse. */
    method Read(buffer: array<byte>, at: nat, piece: nat, offset: nat, length: nat)
      returns (ret: nat, error: Option<StorageError>)
      requires Valid() && InPiece(geometry, piece, offset, length) && at + length <= buffer.Length
      modifies buffer
      ensures ret == Reach(Addresses(geometry.files, PieceStart(geometry, piece) + offset, length))
      ensures AllGathered(old(buffer[..]), at, disk,
                          Addresses(geometry.files, PieceStart(geometry, piece) + offset, length)[..ret], buffer[..])
      ensures error == FailureOf(geometry.files, PieceStart(geometry, piece) + offset, length, FileRead)
    {
      ret, error := ReadRange(buffer, at, PieceStart(geometry, piece) + offset, length);
    }

    /** One round of the write loop. */
    method WriteSlice(data: seq<byte>, slice: Slice, done: nat, ghost before: Disk, ghost t: Transfer, ghost m: nat)
      returns (ok: bool)
      requires Valid() && t.Valid() && t.files == geometry.files && t.Reached(m, done) && m < |t.slices| && slice == t.slices[m]
      requires |data| == t.length && AllStored(before, t.addrs[..done], data, disk)
      modifies this
      ensures done + slice.size <= t.length
      ensures ok ==> t.Reached(m + 1, done + slice.size)
      ensures ok ==> AllStored(before, t.addrs[..done + slice.size], data, disk)
      ensures !ok ==> t.Stuck(done, slice.file) && disk == old(disk)
    {
      t.Next(m, done);
      var parsed := ParseName(slice.file);
      if parsed.None? {
        return false;
      }
      var partitionOffset := parsed.value + slice.offset;
      disk := Poke(disk, partitionOffset, data[done..done + slice.size]);
      StoreNext(before, old(disk), t.addrs, data, done, slice.size, partitionOffset, disk);
      return true;
    }

    method WriteRange(data: seq<byte>, pos: nat) returns (error: Option<StorageError>)
      requires Valid() && pos + |data| <= TotalFrom(geometry.files, 0)
      modifies this
      ensures WrittenTo(geometry.files, old(disk), pos, data, disk)
      ensures error == FailureOf(geometry.files, pos, |data|, FileWrite)
    {
      var slices := MapFrom(geometry.files, 0, pos, |data|);
      ghost var t := Begin(geometry.files, pos, |data|);
      var done: nat := 0;
      error := None;
      for m := 0 to |slices|
        invariant t.Reached(m, done) && done <= |data|
        invariant AllStored(old(disk), t.addrs[..done], data, disk)
      {
        var slice := slices[m];
        var ok := WriteSlice(data, slice, done, old(disk), t, m);
        if !ok {
          t.Failed(done, slice.file);
          Delivered(t, old(disk), data, done, disk);
          return Some(ParseFailed(slice.file, FileWrite));
        }
        done := done + slice.size;
      }
      t.Finished(done);
      Delivered(t, old(disk), data, done, disk);
    }

    /** Writes `buffer[..length]`; the slices before the first unparseable file name are stored. */
    method Write(buffer: array<byte>, piece: nat, offset: nat, length: nat) returns (error: Option<StorageError>)
      requires Valid() && InPiece(geometry, piece, offset, length) && length <= buffer.Length
      modifies this
      ensures WrittenTo(geometry.files, old(disk), PieceStart(geometry, piece) + offset, buffer[..length], disk)
      ensures error == FailureOf(geometry.files, PieceStart(geometry, piece) + offset, length, FileWrite)
    {
      error := WriteRange(buffer[..length], PieceStart(geometry, piece) + offset);
    }
  }
}
