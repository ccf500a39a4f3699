/** Pieces and blocks of a torrent, and the location keys of the store buffer. */
module Torrents {
  import opened Basics
  import opened Extents

  type Positive = x: int | x > 0 witness 1

  datatype Torrent = Torrent(files: seq<File>, pieceLength: Positive)

  function Total(t: Torrent): nat {
    TotalFrom(t.files, 0)
  }

  function PieceStart(t: Torrent, piece: nat): nat {
    piece * t.pieceLength
  }

  /** `file_storage::piece_size`: the last piece may be short. */
  function PieceSize(t: Torrent, piece: nat): nat {
    if PieceStart(t, piece) >= Total(t) then 0 else Min(t.pieceLength, Total(t) - PieceStart(t, piece))
  }

  predicate InPiece(t: Torrent, piece: nat, offset: nat, length: nat)
    ensures InPiece(t, piece, offset, length) ==> PieceStart(t, piece) + offset + length <= Total(t)
  {
    PieceStart(t, piece) <= Total(t) && offset + length <= PieceSize(t, piece)
  }

  /** `torrent_location`; its equality is componentwise. */
  datatype Loc = Loc(torrent: nat, piece: nat, offset: nat)

  predicate IsBlock(t: Torrent, loc: Loc) {
    Within(loc.offset) == 0 && loc.offset < PieceSize(t, loc.piece)
  }

  function BlockStart(t: Torrent, loc: Loc): nat {
    PieceStart(t, loc.piece) + loc.offset
  }

  /** A block is 16 KiB, or the rest of its piece. */
  function BlockLen(t: Torrent, loc: Loc): nat
    requires IsBlock(t, loc)
  {
    Min(BLOCK, PieceSize(t, loc.piece) - loc.offset)
  }

  /** `blocks_in_piece` of the hash loop. */
  function Rounds(t: Torrent, piece: nat): nat {
    (PieceSize(t, piece) + BLOCK - 1) / BLOCK
  }

  /** The block that holds a logical byte. */
  function LocOf(t: Torrent, idx: nat, pos: nat): Loc {
    var inPiece := pos % t.pieceLength;
    Loc(idx, pos / t.pieceLength, inPiece - Within(inPiece))
  }

  lemma NextMultiple(a: nat, b: nat, n: nat)
    ensures a < b ==> a * n + n <= b * n
  {
    if a < b {
      assert (a + 1) * n <= b * n;
    }
  }

  lemma PieceOfByte(t: Torrent, piece: nat, r: nat)
    requires r < t.pieceLength
    ensures (PieceStart(t, piece) + r) / t.pieceLength == piece
    ensures (PieceStart(t, piece) + r) % t.pieceLength == r
  {
    var n := t.pieceLength;
    var pos := piece * n + r;
    NextMultiple(pos / n, piece, n);
    NextMultiple(piece, pos / n, n);
    assert pos == (pos / n) * n + pos % n;
  }

  /** Blocks tile the torrent: a byte lies in block `loc` exactly when `loc` is its location. */
  lemma BlocksTile(t: Torrent, loc: Loc, pos: nat)
    requires IsBlock(t, loc)
    ensures BlockStart(t, loc) + BlockLen(t, loc) <= Total(t)
    ensures BlockStart(t, loc) <= pos < BlockStart(t, loc) + BlockLen(t, loc)
      <==> pos < Total(t) && LocOf(t, loc.torrent, pos) == loc
  {
    var piece := pos / t.pieceLength;
    var r := pos % t.pieceLength;
    assert pos == PieceStart(t, piece) + r;
    if BlockStart(t, loc) <= pos < BlockStart(t, loc) + BlockLen(t, loc) {
      PieceOfByte(t, loc.piece, pos - PieceStart(t, loc.piece));
      OffsetShift(loc.offset, pos - BlockStart(t, loc));
    }
  }

  /** Every byte of a torrent has a block. */
  lemma LocOfIsBlock(t: Torrent, idx: nat, pos: nat)
    requires pos < Total(t)
    ensures IsBlock(t, LocOf(t, idx, pos))
    ensures var loc := LocOf(t, idx, pos); BlockStart(t, loc) <= pos < BlockStart(t, loc) + BlockLen(t, loc)
  {
    var piece := pos / t.pieceLength;
    var r := pos % t.pieceLength;
    assert pos == PieceStart(t, piece) + r;
    BlockStartsAligned(r);
  }

  /** The block of byte `o` of a piece. */
  lemma LocOfPieceByte(t: Torrent, idx: nat, piece: nat, o: nat)
    requires o < PieceSize(t, piece)
    ensures PieceStart(t, piece) + o < Total(t)
    ensures LocOf(t, idx, PieceStart(t, piece) + o) == Loc(idx, piece, o - Within(o))
    ensures (PieceStart(t, piece) + o) % t.pieceLength == o
  {
    PieceOfByte(t, piece, o);
  }

  lemma RoundArithmetic(size: nat, round: nat, fed: nat)
    requires round < (size + BLOCK - 1) / BLOCK && fed == Min(round * BLOCK, size)
    ensures fed < size && Within(fed) == 0
    ensures fed + Min(BLOCK, size - fed) == Min((round + 1) * BLOCK, size)
  {
    WithinIsRemainder(fed);
  }
}
