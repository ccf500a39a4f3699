/**
  How a torrent's bytes lie on a raw partition. The files of a torrent are
  concatenated into one logical byte string (the "info dictionary" section of
  BEP 3), and the name of each file is the partition offset of that extent.
 */
module Extents {
  import opened Basics

  /** One file: its partition offset, None when the name does not parse, and its length. */
  datatype File = File(base: Option<int>, size: nat)

  /** A run of bytes inside one file, as libtorrent's `map_block` produces them. */
  datatype Slice = Slice(file: nat, offset: nat, size: nat)

  function TotalFrom(files: seq<File>, i: nat): nat
    requires i <= |files|
    decreases |files| - i
  {
    if i == |files| then 0 else files[i].size + TotalFrom(files, i + 1)
  }

  predicate SliceFits(files: seq<File>, s: Slice) {
    s.file < |files| && 0 < s.size && s.offset + s.size <= files[s.file].size
  }

  /** libtorrent's `map_block`, for a range that starts `pos` bytes after the start of file `i`. */
  function MapFrom(files: seq<File>, i: nat, pos: nat, len: nat): (r: seq<Slice>)
    requires i <= |files|
    ensures forall s :: s in r ==> SliceFits(files, s)
    decreases |files| - i
  {
    if len == 0 || i == |files| then []
    else if pos >= files[i].size then MapFrom(files, i + 1, pos - files[i].size, len)
    else
      var n := Min(len, files[i].size - pos);
      [Slice(i, pos, n)] + MapFrom(files, i + 1, 0, len - n)
  }

  /** The file that holds a logical byte, and the byte's offset in that file. */
  function FileFrom(files: seq<File>, i: nat, pos: nat): (r: (nat, nat))
    requires i <= |files| && pos < TotalFrom(files, i)
    ensures i <= r.0 < |files| && r.1 < files[r.0].size
    decreases |files| - i
  {
    if pos < files[i].size then (i, pos) else FileFrom(files, i + 1, pos - files[i].size)
  }

  /** Partition address of byte `offset` of file `f`; None when the name does not parse. */
  function AddressIn(files: seq<File>, f: nat, offset: nat): Option<int>
    requires f < |files|
  {
    match files[f].base
    case None => None
    case Some(base) => Some(base + offset)
  }

  /** Partition address of one logical byte. */
  function Address(files: seq<File>, pos: nat): Option<int>
    requires pos < TotalFrom(files, 0)
  {
    var (f, offset) := FileFrom(files, 0, pos);
    AddressIn(files, f, offset)
  }

  /** The byte-by-byte meaning of a logical range. */
  function Addresses(files: seq<File>, pos: nat, len: nat): (r: seq<Option<int>>)
    requires pos + len <= TotalFrom(files, 0)
    ensures |r| == len
    ensures forall k :: 0 <= k < len ==> r[k] == Address(files, pos + k)
  {
    seq(len, k requires 0 <= k < len => Address(files, pos + k))
  }

  function SliceBytes(s: Slice): (r: seq<(nat, nat)>)
    ensures |r| == s.size
    ensures forall k :: 0 <= k < s.size ==> r[k] == (s.file, s.offset + k)
  {
    seq(s.size, k requires 0 <= k < s.size => (s.file, s.offset + k))
  }

  /** The bytes (file, offset in file) of a slice list, in the order in which they are transferred. */
  function Flattened(slices: seq<Slice>): seq<(nat, nat)> {
    if slices == [] then [] else SliceBytes(slices[0]) + Flattened(slices[1..])
  }

  /** Within one file, logical neighbours are neighbours on the partition. */
  lemma {:induction false} FileRun(files: seq<File>, i: nat, pos: nat, k: nat)
    requires i <= |files| && pos < TotalFrom(files, i)
    requires var (f, o) := FileFrom(files, i, pos); o + k < files[f].size
    ensures pos + k < TotalFrom(files, i)
    ensures FileFrom(files, i, pos + k) == (FileFrom(files, i, pos).0, FileFrom(files, i, pos).1 + k)
    decreases |files| - i
  {
    if pos >= files[i].size {
      FileRun(files, i + 1, pos - files[i].size, k);
    }
  }

  lemma FirstSlice(files: seq<File>, i: nat, pos: nat, len: nat)
    requires i < |files| && 0 < len && pos < files[i].size
    ensures var n := Min(len, files[i].size - pos);
      Flattened(MapFrom(files, i, pos, len))
      == SliceBytes(Slice(i, pos, n)) + Flattened(MapFrom(files, i + 1, 0, len - n))
  {
    var n := Min(len, files[i].size - pos);
    assert MapFrom(files, i, pos, len) == [Slice(i, pos, n)] + MapFrom(files, i + 1, 0, len - n);
    assert MapFrom(files, i, pos, len)[1..] == MapFrom(files, i + 1, 0, len - n);
  }

  lemma {:induction false} FlattenedLength(files: seq<File>, i: nat, pos: nat, len: nat)
    requires i <= |files| && pos + len <= TotalFrom(files, i)
    ensures |Flattened(MapFrom(files, i, pos, len))| == len
    decreases |files| - i
  {
    if len == 0 || i == |files| {
    } else if pos >= files[i].size {
      FlattenedLength(files, i + 1, pos - files[i].size, len);
    } else {
      FlattenedLength(files, i + 1, 0, len - Min(len, files[i].size - pos));
      FirstSlice(files, i, pos, len);
    }
  }

  lemma {:induction false} FlattenedAt(files: seq<File>, i: nat, pos: nat, len: nat, k: nat, flat: seq<(nat, nat)>)
    requires i <= |files| && k < len && pos + len <= TotalFrom(files, i)
    requires flat == Flattened(MapFrom(files, i, pos, len)) && |flat| == len
    ensures flat[k] == FileFrom(files, i, pos + k)
    decreases |files| - i
  {
    if pos >= files[i].size {
      FlattenedAt(files, i + 1, pos - files[i].size, len, k, flat);
    } else {
      var n := Min(len, files[i].size - pos);
      FirstSlice(files, i, pos, len);
      if n <= k {
        FlattenedAt(files, i + 1, 0, len - n, k - n, Flattened(MapFrom(files, i + 1, 0, len - n)));
      }
    }
  }

  /** The slices of a range, flattened, are its bytes in order: none lost, none doubled, none moved. */
  lemma SlicesAreTheRange(files: seq<File>, pos: nat, len: nat)
    requires pos + len <= TotalFrom(files, 0)
    ensures |Flattened(MapFrom(files, 0, pos, len))| == len
    ensures forall k :: 0 <= k < len ==> Flattened(MapFrom(files, 0, pos, len))[k] == FileFrom(files, 0, pos + k)
  {
    FlattenedLength(files, 0, pos, len);
    forall k | 0 <= k < len
      ensures Flattened(MapFrom(files, 0, pos, len))[k] == FileFrom(files, 0, pos + k)
    {
      FlattenedAt(files, 0, pos, len, k, Flattened(MapFrom(files, 0, pos, len)));
    }
  }

  /** The slices of a range are those of its first file and then those of the rest of the range. */
  lemma {:induction false} SlicesResume(files: seq<File>, i: nat, pos: nat, len: nat)
    requires i <= |files| && 0 < len && pos + len <= TotalFrom(files, i)
    ensures var slices := MapFrom(files, i, pos, len);
      && slices != [] && slices[0].size <= len && FileFrom(files, i, pos) == (slices[0].file, slices[0].offset)
      && MapFrom(files, i, pos + slices[0].size, len - slices[0].size) == slices[1..]
    decreases |files| - i
  {
    if pos >= files[i].size {
      SlicesResume(files, i + 1, pos - files[i].size, len);
    }
  }

  // ---------- extents that can hold a torrent ----------

  predicate Parses(files: seq<File>) {
    forall i :: 0 <= i < |files| ==> files[i].base.Some?
  }

  predicate Apart(a: File, b: File) {
    a.base.None? || b.base.None? || a.size == 0 || b.size == 0
    || a.base.value + a.size <= b.base.value || b.base.value + b.size <= a.base.value
  }

  /** No two extents share a partition byte. */
  predicate Disjoint(files: seq<File>) {
    forall i, j :: 0 <= i < j < |files| ==> Apart(files[i], files[j])
  }

  lemma {:induction false} FileInjective(files: seq<File>, i: nat, p: nat, q: nat)
    requires i <= |files| && p < TotalFrom(files, i) && q < TotalFrom(files, i) && p != q
    ensures FileFrom(files, i, p) != FileFrom(files, i, q)
    decreases |files| - i
  {
    if p >= files[i].size && q >= files[i].size {
      FileInjective(files, i + 1, p - files[i].size, q - files[i].size);
    }
  }

  /** Two logical bytes never share a partition byte. */
  lemma AddressInjective(files: seq<File>, p: nat, q: nat)
    requires Disjoint(files) && p < TotalFrom(files, 0) && q < TotalFrom(files, 0) && p != q
    ensures Address(files, p).Some? ==> Address(files, p) != Address(files, q)
  {
    var (f, o) := FileFrom(files, 0, p);
    var (g, u) := FileFrom(files, 0, q);
    FileInjective(files, 0, p, q);
    if f < g {
      assert Apart(files[f], files[g]);
    } else if g < f {
      assert Apart(files[g], files[f]);
    }
  }

  // ---------- disks ----------

  type Disk = int -> byte

  /** The disk after a pwrite of `data` at address `at`. */
  function Poke(disk: Disk, at: int, data: seq<byte>): Disk {
    (x: int) => if at <= x < at + |data| then data[x - at] else disk(x)
  }

  /** The bytes that a pread of `n` bytes at address `at` delivers. */
  function Peek(disk: Disk, at: int, n: nat): (r: seq<byte>)
    ensures |r| == n
    ensures forall k :: 0 <= k < n ==> r[k] == disk(at + k)
  {
    seq(n, k requires 0 <= k < n => disk(at + k))
  }

  /** How many bytes of a range can be transferred before the first unparseable name. */
  function Reach(addrs: seq<Option<int>>): (n: nat)
    ensures n <= |addrs|
    ensures forall k :: 0 <= k < n ==> addrs[k].Some?
    ensures n < |addrs| ==> addrs[n].None?
  {
    if addrs == [] || addrs[0].None? then 0 else 1 + Reach(addrs[1..])
  }

  lemma {:induction false} ReachUnique(addrs: seq<Option<int>>, n: nat)
    requires n <= |addrs|
    requires forall k :: 0 <= k < n ==> addrs[k].Some?
    requires n < |addrs| ==> addrs[n].None?
    ensures Reach(addrs) == n
  {
    if n > 0 {
      ReachUnique(addrs[1..], n - 1);
    }
  }

  /** Value at `x` once `data` has been stored byte by byte at `addrs`, the later byte winning. */
  function Stored(disk: Disk, addrs: seq<Option<int>>, data: seq<byte>, x: int): byte
    requires |addrs| <= |data|
    decreases |addrs|
  {
    if addrs == [] then disk(x)
    else
      var last := |addrs| - 1;
      if addrs[last] == Some(x) then data[last] else Stored(disk, addrs[..last], data, x)
  }

  lemma {:induction false} StoredOutside(disk: Disk, addrs: seq<Option<int>>, data: seq<byte>, x: int)
    requires |addrs| <= |data|
    requires forall k :: 0 <= k < |addrs| ==> addrs[k] != Some(x)
    ensures Stored(disk, addrs, data, x) == disk(x)
    decreases |addrs|
  {
    if addrs != [] {
      StoredOutside(disk, addrs[..|addrs| - 1], data, x);
    }
  }

  lemma {:induction false} StoredAt(disk: Disk, addrs: seq<Option<int>>, data: seq<byte>, k: nat, x: int)
    requires k < |addrs| <= |data| && addrs[k] == Some(x)
    requires forall i :: k < i < |addrs| ==> addrs[i] != Some(x)
    ensures Stored(disk, addrs, data, x) == data[k]
    decreases |addrs|
  {
    if k < |addrs| - 1 {
      StoredAt(disk, addrs[..|addrs| - 1], data, k, x);
    }
  }

  /** One pwrite of a slice is the byte-by-byte store of that slice. */
  lemma {:induction false} StoredSlice(disk: Disk, addrs: seq<Option<int>>, data: seq<byte>, m: nat, n: nat, at: int, x: int)
    requires m + n <= |addrs| <= |data|
    requires forall i :: m <= i < m + n ==> addrs[i] == Some(at + i - m)
    ensures Stored(disk, addrs[..m + n], data, x)
      == if at <= x < at + n then data[m + x - at] else Stored(disk, addrs[..m], data, x)
    decreases n
  {
    if n > 0 {
      StoredSlice(disk, addrs, data, m, n - 1, at, x);
      assert addrs[..m + n][..m + n - 1] == addrs[..m + (n - 1)];
      assert addrs[..m + n][m + n - 1] == addrs[m + (n - 1)];
    }
  }

  ghost predicate AllStored(disk: Disk, addrs: seq<Option<int>>, data: seq<byte>, after: Disk)
    requires |addrs| <= |data|
  {
    forall x :: after(x) == Stored(disk, addrs, data, x)
  }

  /** `after` is `disk` once `data` has been written to the logical range at `pos`. */
  ghost predicate WrittenTo(files: seq<File>, disk: Disk, pos: nat, data: seq<byte>, after: Disk)
    requires pos + |data| <= TotalFrom(files, 0)
  {
    var addrs := Addresses(files, pos, |data|);
    AllStored(disk, addrs[..Reach(addrs)], data, after)
  }

  lemma ReadBack(files: seq<File>, disk: Disk, pos: nat, data: seq<byte>, after: Disk, k: nat)
    requires Disjoint(files) && pos + |data| <= TotalFrom(files, 0)
    requires WrittenTo(files, disk, pos, data, after)
    requires k < Reach(Addresses(files, pos, |data|))
    ensures Address(files, pos + k).Some? && after(Address(files, pos + k).value) == data[k]
  {
    var addrs := Addresses(files, pos, |data|);
    var reached := addrs[..Reach(addrs)];
    assert reached[k] == addrs[k] == Address(files, pos + k);
    forall i | k < i < |reached| ensures reached[i] != reached[k] {
      assert reached[i] == addrs[i] == Address(files, pos + i);
      AddressInjective(files, pos + k, pos + i);
    }
    StoredAt(disk, reached, data, k, addrs[k].value);
  }

  lemma KeptLogically(files: seq<File>, disk: Disk, pos: nat, data: seq<byte>, after: Disk, q: nat)
    requires Disjoint(files) && pos + |data| <= TotalFrom(files, 0)
    requires WrittenTo(files, disk, pos, data, after)
    requires q < TotalFrom(files, 0) && !(pos <= q < pos + Reach(Addresses(files, pos, |data|)))
    requires Address(files, q).Some?
    ensures after(Address(files, q).value) == disk(Address(files, q).value)
  {
    var addrs := Addresses(files, pos, |data|);
    var n := Reach(addrs);
    forall k | 0 <= k < n ensures addrs[..n][k] != Address(files, q) {
      AddressInjective(files, q, pos + k);
    }
    StoredOutside(disk, addrs[..n], data, Address(files, q).value);
  }

  lemma AllReadBack(files: seq<File>, disk: Disk, pos: nat, data: seq<byte>, after: Disk, n: nat)
    requires Disjoint(files) && pos + |data| <= TotalFrom(files, 0)
    requires WrittenTo(files, disk, pos, data, after) && n == Reach(Addresses(files, pos, |data|))
    ensures forall q :: pos <= q < pos + n ==> Address(files, q).Some? && after(Address(files, q).value) == data[q - pos]
  {
    forall q | pos <= q < pos + n
      ensures Address(files, q).Some? && after(Address(files, q).value) == data[q - pos]
    {
      ReadBack(files, disk, pos, data, after, q - pos);
    }
  }

  lemma KeptPhysically(files: seq<File>, disk: Disk, pos: nat, data: seq<byte>, after: Disk, x: int)
    requires pos + |data| <= TotalFrom(files, 0) && WrittenTo(files, disk, pos, data, after)
    requires Some(x) !in Addresses(files, pos, |data|)
    ensures after(x) == disk(x)
  {
    var addrs := Addresses(files, pos, |data|);
    StoredOutside(disk, addrs[..Reach(addrs)], data, x);
  }

  lemma ReachesAll(files: seq<File>, pos: nat, len: nat)
    requires pos + len <= TotalFrom(files, 0)
    ensures Reach(Addresses(files, pos, len)) == len <==> forall q :: pos <= q < pos + len ==> Address(files, q).Some?
  {
    var addrs := Addresses(files, pos, len);
    assert forall k :: 0 <= k < len ==> addrs[k] == Address(files, pos + k);
    if Reach(addrs) == len {
      forall q | pos <= q < pos + len ensures Address(files, q).Some? {
        assert addrs[q - pos].Some?;
      }
    }
  }

  /**
    Write followed by read of the same range, and what a write leaves alone. With every
    name parseable `n` is the whole length; otherwise the write is exactly the slices
    before the first unparseable name, and a read of the range stops at the same byte.
   */
  lemma WriteThenRead(files: seq<File>, disk: Disk, pos: nat, data: seq<byte>, after: Disk)
    requires Disjoint(files) && pos + |data| <= TotalFrom(files, 0)
    requires WrittenTo(files, disk, pos, data, after)
    ensures var n := Reach(Addresses(files, pos, |data|));
      && (n == |data| <==> forall q :: pos <= q < pos + |data| ==> Address(files, q).Some?)
      && (forall q :: pos <= q < pos + n ==> Address(files, q).Some? && after(Address(files, q).value) == data[q - pos])
    ensures var n := Reach(Addresses(files, pos, |data|));
      forall q :: 0 <= q < TotalFrom(files, 0) && !(pos <= q < pos + n) && Address(files, q).Some?
        ==> after(Address(files, q).value) == disk(Address(files, q).value)
    ensures forall x :: Some(x) !in Addresses(files, pos, |data|) ==> after(x) == disk(x)
  {
    var n := Reach(Addresses(files, pos, |data|));
    ReachesAll(files, pos, |data|);
    AllReadBack(files, disk, pos, data, after, n);
    forall q | 0 <= q < TotalFrom(files, 0) && !(pos <= q < pos + n) && Address(files, q).Some?
      ensures after(Address(files, q).value) == disk(Address(files, q).value)
    {
      KeptLogically(files, disk, pos, data, after, q);
    }
    forall x | Some(x) !in Addresses(files, pos, |data|) ensures after(x) == disk(x) {
      KeptPhysically(files, disk, pos, data, after, x);
    }
  }
}
