/** Vocabulary shared by every layer of the model. */
module Basics {

  newtype byte = b: int | 0 <= b < 256

  /** The block size used by libtorrent and by every buffer of the pools (16 KiB). */
  const BLOCK: nat := 16384

  /** Position of an offset inside its block: the remainder by the block size, defined by subtraction. */
  function Within(offset: nat): (r: nat)
    ensures r < BLOCK && r <= offset
  {
    if offset < BLOCK then offset else Within(offset - BLOCK)
  }

  lemma {:induction false} WithinIsRemainder(offset: nat)
    ensures Within(offset) == offset % 16384
  {
    if offset >= BLOCK {
      WithinIsRemainder(offset - BLOCK);
    }
  }

  /** An offset less than a block further on lies in the same block or in the next one. */
  lemma OffsetShift(start: nat, i: nat)
    requires i < BLOCK
    ensures Within(start + i) == if Within(start) + i < BLOCK then Within(start) + i else Within(start) + i - BLOCK
    ensures (start + i) - Within(start + i) == start - Within(start) + if Within(start) + i < BLOCK then 0 else BLOCK
  {
    WithinIsRemainder(start);
    WithinIsRemainder(start + i);
  }

  lemma BlockStartsAligned(offset: nat)
    ensures Within(offset - Within(offset)) == 0
  {
    WithinIsRemainder(offset);
    WithinIsRemainder(offset - Within(offset));
  }

  datatype Option<+T> = None | Some(value: T)

  function Min(a: int, b: int): (m: int)
    ensures m <= a && m <= b && (m == a || m == b)
  {
    if a <= b then a else b
  }

  /** `dst` after a memcpy of `src` to position `at`. */
  function Overlay<T>(dst: seq<T>, at: nat, src: seq<T>): (r: seq<T>)
    requires at + |src| <= |dst|
    ensures |r| == |dst|
    ensures forall k :: 0 <= k < |dst| ==> r[k] == if at <= k < at + |src| then src[k - at] else dst[k]
  {
    dst[..at] + src + dst[at + |src|..]
  }

  /** memcpy between two distinct buffers. */
  method MemCopy(dst: array<byte>, at: nat, src: array<byte>, from: nat, n: nat)
    requires dst != src
    requires at + n <= dst.Length && from + n <= src.Length
    modifies dst
    ensures dst[..] == Overlay(old(dst[..]), at, src[from..from + n])
  {
    for k := 0 to n
      invariant forall i :: 0 <= i < dst.Length ==>
        dst[i] == if at <= i < at + k then src[from + i - at] else old(dst[i])
    {
      dst[at + k] := src[from + k];
    }
  }
}
