/** `store_buffer`: the index of blocks that are waiting to reach the disk. */
module StoreBuffers {
  import opened Basics
  import opened Torrents

  /** `unordered_map::insert`: an existing entry is kept. */
  function InsertEntry<B>(store: map<Loc, B>, loc: Loc, b: B): map<Loc, B> {
    if loc in store then store else store[loc := b]
  }

  /** `erase`: whatever entry is at `loc` goes, whoever put it there. */
  function EraseEntry<B>(store: map<Loc, B>, loc: Loc): map<Loc, B> {
    store - {loc}
  }

  /** What the front half of a read leaves: the reply buffer and the part still to come from disk. */
  datatype Stitched = Stitched(buf: seq<byte>, from: nat, upto: nat)

  /**
    The front half of `async_read` on a 16 KiB reply buffer, for a request that starts
    `readOffset` bytes into its first block: `e1` and `e2` are the store buffer entries of
    that block and of the one after it.
   */
  function Stitch(buf: seq<byte>, readOffset: nat, length: nat, e1: Option<seq<byte>>, e2: Option<seq<byte>>): Stitched
    requires |buf| == BLOCK && readOffset < BLOCK && 0 < length <= BLOCK
    requires e1.Some? ==> |e1.value| == BLOCK
    requires e2.Some? ==> |e2.value| == BLOCK
  {
    if readOffset + length > BLOCK then
      var len1 := BLOCK - readOffset;
      var buf1 := if e1.Some? then Overlay(buf, 0, e1.value[readOffset..]) else buf;
      var buf2 := if e2.Some? then Overlay(buf1, len1, e2.value[..length - len1]) else buf1;
      if e1.Some? && e2.Some? then Stitched(buf2, length, length)
      else if e1.Some? then Stitched(buf2, len1, length)
      else if e2.Some? then Stitched(buf2, 0, len1)
      else Stitched(buf2, 0, length)
    else if e1.Some? then Stitched(Overlay(buf, 0, e1.value[readOffset..readOffset + length]), length, length)
    else Stitched(buf, 0, length)
  }

  /** Byte `i` of a reply, None while it is still to come from disk. */
  function SoFar(r: Stitched, i: nat): Option<byte>
    requires i < |r.buf|
  {
    if r.from <= i < r.upto then None else Some(r.buf[i])
  }

  /** Byte `at` of a store-buffer entry, None when there is no entry. */
  function ByteOf(entry: Option<seq<byte>>, at: nat): Option<byte>
    requires entry.Some? ==> at < |entry.value|
  {
    if entry.None? then None else Some(entry.value[at])
  }

  /** Byte `at` counted from the start of the first block, which may lie in the block after it. */
  function HalvesByte(e1: Option<seq<byte>>, e2: Option<seq<byte>>, at: nat): Option<byte>
    requires at < 2 * BLOCK
    requires e1.Some? ==> |e1.value| == BLOCK
    requires e2.Some? ==> |e2.value| == BLOCK
  {
    if at < BLOCK then ByteOf(e1, at) else ByteOf(e2, at - BLOCK)
  }

  /** The block of the byte `i` after `start` is the block of `start` or the one after it. */
  lemma HomeLoc(idx: nat, piece: nat, start: nat, i: nat)
    requires i < BLOCK
    ensures var o, block := start + i, start - Within(start);
      Loc(idx, piece, o - Within(o)) == if Within(start) + i < BLOCK then Loc(idx, piece, block) else Loc(idx, piece, block + BLOCK)
  {
    OffsetShift(start, i);
  }

  /** The byte `i` after `start` is in its own block's entry, which is one of the two. */
  lemma HalvesHome(e1: Option<seq<byte>>, e2: Option<seq<byte>>, home: Option<seq<byte>>, start: nat, i: nat)
    requires i < BLOCK && home == if Within(start) + i < BLOCK then e1 else e2
    requires e1.Some? ==> |e1.value| == BLOCK
    requires e2.Some? ==> |e2.value| == BLOCK
    ensures ByteOf(home, Within(start + i)) == HalvesByte(e1, e2, Within(start) + i)
  {
    OffsetShift(start, i);
  }

  lemma StitchHalves(buf: seq<byte>, readOffset: nat, length: nat, e1: Option<seq<byte>>, e2: Option<seq<byte>>, i: nat)
    requires |buf| == BLOCK && readOffset < BLOCK && 0 < length <= BLOCK && i < length && readOffset + length > BLOCK
    requires e1.Some? ==> |e1.value| == BLOCK
    requires e2.Some? ==> |e2.value| == BLOCK
    ensures var r, at := Stitch(buf, readOffset, length, e1, e2), readOffset + i;
      && |r.buf| == BLOCK && r.from <= r.upto <= length
      && SoFar(r, i) == if at < BLOCK then ByteOf(e1, at) else ByteOf(e2, at - BLOCK)
  {
    var r, len1 := Stitch(buf, readOffset, length, e1, e2), BLOCK - readOffset;
    var buf1 := if e1.Some? then Overlay(buf, 0, e1.value[readOffset..]) else buf;
    assert e1.Some? && i < len1 ==> buf1[i] == e1.value[readOffset + i];
    assert i < len1 ==> r.buf[i] == buf1[i];
    assert e2.Some? && i >= len1 ==> r.buf[i] == e2.value[i - len1];
  }

  /**
    In all hit and miss combinations: a byte of the reply is still to be read exactly when
    its block had no entry, and otherwise it is that entry's byte. No third block is involved.
   */
  lemma StitchByte(buf: seq<byte>, readOffset: nat, length: nat, e1: Option<seq<byte>>, e2: Option<seq<byte>>, i: nat)
    requires |buf| == BLOCK && readOffset < BLOCK && 0 < length <= BLOCK && i < length
    requires e1.Some? ==> |e1.value| == BLOCK
    requires e2.Some? ==> |e2.value| == BLOCK
    ensures var r := Stitch(buf, readOffset, length, e1, e2);
      && |r.buf| == BLOCK && r.from <= r.upto <= length
      && SoFar(r, i) == HalvesByte(e1, e2, readOffset + i)
  {
    if readOffset + length > BLOCK {
      StitchHalves(buf, readOffset, length, e1, e2, i);
    }
  }

  class StoreBuffer {
    var entries: map<Loc, array<byte>>

    constructor ()
      ensures entries == map[]
    {
      entries := map[];
    }

    method Get(loc: Loc) returns (buf: array?<byte>)
      ensures buf == if loc in entries then entries[loc] else null
    {
      buf := null;
      if loc in entries {
        buf := entries[loc];
      }
    }

    /** Both lookups happen under one lock, so they see one state of the map. */
    method Get2(loc1: Loc, loc2: Loc) returns (buf1: array?<byte>, buf2: array?<byte>)
      ensures buf1 == if loc1 in entries then entries[loc1] else null
      ensures buf2 == if loc2 in entries then entries[loc2] else null
    {
      buf1 := Get(loc1);
      buf2 := Get(loc2);
    }

    method Insert(loc: Loc, buf: array<byte>)
      modifies this
      ensures entries == InsertEntry(old(entries), loc, buf)
    {
      if loc !in entries {
        entries := entries[loc := buf];
      }
    }

    method Erase(loc: Loc)
      modifies this
      ensures entries == EraseEntry(old(entries), loc)
    {
      if loc in entries {
        entries := entries - {loc};
      }
    }
  }
}
