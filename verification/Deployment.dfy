/**
  From the network to the served image: the backend comes to rest with every block of the
  torrent written, the partition then holds the torrent's contents, and the NBD plugin serves
  the same bytes from the saved image.
 */
module Deployment {
  import opened Basics
  import opened HexNames
  import opened Extents
  import opened Torrents
  import opened PartitionStorages
  import opened DiskSystem
  import opened Completion
  import opened Coherence
  import opened ImageHistory
  import opened Nbd

  /** At rest the partition holds the image: nothing is left in the store buffer, and the disk has every byte that writes reach. */
  lemma QuietPartitionHoldsImage(run: seq<State>, steps: seq<Step>, a: nat, u: nat, idx: nat, p: nat)
    requires Execution(run, steps) && Watched(run, a, u, idx, p) && Quiet(run[u]) && Solid(run[u].Vol(idx).torrent, p)
    ensures var v := run[u].Vol(idx);
      Address(v.torrent.files, p).Some? && v.disk(Address(v.torrent.files, p).value) == v.image(p)
  {
    QuietMeansDone(run, steps, u);
    CacheDiskAgreement(run, steps, a, u, idx, p);
  }

  /** The last write of the byte's block, made with no other one outstanding, has value `b` there. */
  ghost predicate LastWrittenAs(run: seq<State>, steps: seq<Step>, u: nat, m: nat, idx: nat, p: nat, b: byte)
    requires u < |run| && run[u].Has(idx)
  {
    var t := run[u].Vol(idx).torrent;
    && run[u].Vol(idx).born < m && LastWrite(steps, u, m, LocOf(t, idx, p))
    && m + 1 < |run| && Exclusive(run[m + 1], LocOf(t, idx, p))
    && OffsetInBlock(t, p) < |steps[m].data| && steps[m].data[OffsetInBlock(t, p)] == b
  }

  ghost predicate WrittenAs(run: seq<State>, steps: seq<Step>, u: nat, idx: nat, p: nat, b: byte)
    requires u < |run| && run[u].Has(idx)
  {
    exists m :: LastWrittenAs(run, steps, u, m, idx, p, b)
  }

  /** The whole torrent has been written with these contents, as far as the last write of each block goes. */
  ghost predicate Downloaded(run: seq<State>, steps: seq<Step>, u: nat, idx: nat, content: seq<byte>) {
    && u < |run| && run[u].Has(idx) && |content| == Total(run[u].Vol(idx).torrent)
    && forall p :: 0 <= p < |content| ==> WrittenAs(run, steps, u, idx, p, content[p])
  }

  /** A byte of a download at rest is on the partition at its mapped address, whatever failed or overlapped before. */
  lemma DownloadedByte(run: seq<State>, steps: seq<Step>, u: nat, idx: nat, content: seq<byte>, p: nat)
    requires Execution(run, steps) && Downloaded(run, steps, u, idx, content) && Quiet(run[u]) && p < |content|
    requires Disjoint(run[u].Vol(idx).torrent.files) && Solid(run[u].Vol(idx).torrent, p)
    ensures var v := run[u].Vol(idx);
      Address(v.torrent.files, p).Some? && v.disk(Address(v.torrent.files, p).value) == content[p]
  {
    assert WrittenAs(run, steps, u, idx, p, content[p]);
    var m :| LastWrittenAs(run, steps, u, m, idx, p, content[p]);
    LastWriteWins(run, steps, u, m, idx, p);
    QuietMeansDone(run, steps, u);
  }

  lemma DownloadIsPlaced(run: seq<State>, steps: seq<Step>, u: nat, idx: nat, files: seq<File>, content: seq<byte>)
    requires Execution(run, steps) && Downloaded(run, steps, u, idx, content) && Quiet(run[u])
    requires files == run[u].Vol(idx).torrent.files && Disjoint(files) && Parses(files)
    ensures AllPlaced(run[u].Vol(idx).disk, files, content)
  {
    forall pos: nat | pos < |content| ensures Placed(run[u].Vol(idx).disk, files, content, pos) {
      ParsedIsSolid(run[u].Vol(idx).torrent, pos);
      DownloadedByte(run, steps, u, idx, content, pos);
    }
  }

  /** A torrent written block by block, by any run that has come to rest, is on the partition extent by extent. */
  lemma DownloadIsOnPartition(run: seq<State>, steps: seq<Step>, u: nat, idx: nat, files: seq<File>, content: seq<byte>,
                              starts: seq<int>, contents: seq<seq<byte>>)
    requires |starts| == |contents| && files == FilesOf(starts, contents) && content == JoinedFrom(contents, 0) && Disjoint(files)
    requires Execution(run, steps) && Downloaded(run, steps, u, idx, content) && Quiet(run[u])
    requires files == run[u].Vol(idx).torrent.files
    ensures OnPartition(run[u].Vol(idx).disk, starts, contents)
  {
    DownloadIsPlaced(run, steps, u, idx, files, content);
    PlacedIsImage(run[u].Vol(idx).disk, files, content, starts, contents);
  }

  // ---------- the torrent's names and the directory's names ----------

  /** The files of a torrent with plain hexadecimal names that the backend can parse, and their contents. */
  ghost predicate NamedContents(named: seq<NamedFile>, stored: seq<seq<byte>>) {
    && |stored| == |named| && Parses(Layout(named)) && Disjoint(Layout(named))
    && forall i :: 0 <= i < |named| ==> named[i].name != "" && IsHex(named[i].name) && named[i].size == |stored[i]|
  }

  /** File `i` of the directory is a file of the torrent, with the same name and contents. */
  ghost predicate SavedFrom(named: seq<NamedFile>, stored: seq<seq<byte>>, name: string, content: seq<byte>, j: nat)
    requires |stored| == |named|
  {
    j < |named| && named[j].name == name && stored[j] == content
  }

  /** The directory holds files of the torrent, none of them empty. */
  ghost predicate SavedImage(named: seq<NamedFile>, stored: seq<seq<byte>>, h: Handle, contents: seq<seq<byte>>)
    requires |stored| == |named|
  {
    && |contents| == |h.starts| == |h.names|
    && forall i :: 0 <= i < |contents| ==> contents[i] != [] && exists j: nat :: SavedFrom(named, stored, h.names[i], contents[i], j)
  }

  /** The partition offsets that the backend reads out of the names. */
  function Offsets(named: seq<NamedFile>): (r: seq<int>)
    requires Parses(Layout(named))
    ensures |r| == |named| && forall i :: 0 <= i < |named| ==> Stoll(named[i].name) == Some(r[i])
  {
    seq(|named|, i requires 0 <= i < |named| => Layout(named)[i].base.value)
  }

  /** The extents that the backend works on are those of the names' offsets. */
  lemma LayoutIsOffsets(named: seq<NamedFile>, stored: seq<seq<byte>>)
    requires NamedContents(named, stored)
    ensures Layout(named) == FilesOf(Offsets(named), stored)
  {
    forall i | 0 <= i < |named| ensures Layout(named)[i] == FilesOf(Offsets(named), stored)[i] {
      assert Layout(named)[i].base == Some(Offsets(named)[i]);
    }
  }

  /** The plugin reads the same offset out of a name as the backend. */
  lemma SameOffset(named: seq<NamedFile>, stored: seq<seq<byte>>, h: Handle, contents: seq<seq<byte>>, i: nat, j: nat)
    requires NamedContents(named, stored) && SavedImage(named, stored, h, contents) && ParsedAs(h.names, h.starts)
    requires i < |contents| && SavedFrom(named, stored, h.names[i], contents[i], j)
    ensures Offsets(named)[j] == h.starts[i]
  {
    PlainNamesAgree(named[j].name);
  }

  /** An extent of the directory is the extent of the torrent it was saved from. */
  lemma SavedExtent(named: seq<NamedFile>, stored: seq<seq<byte>>, h: Handle, contents: seq<seq<byte>>, i: nat, j: nat)
    requires NamedContents(named, stored) && SavedImage(named, stored, h, contents) && ParsedAs(h.names, h.starts)
    requires i < |contents| && SavedFrom(named, stored, h.names[i], contents[i], j)
    ensures |h.starts| == |contents| && FilesOf(h.starts, contents)[i] == Layout(named)[j]
  {
    LayoutIsOffsets(named, stored);
    SameOffset(named, stored, h, contents, i, j);
  }

  lemma ApartEitherWay(files: seq<File>, i: nat, j: nat)
    requires Disjoint(files) && i < |files| && j < |files| && i != j
    ensures Apart(files[i], files[j])
  {
    assert if i < j then Apart(files[i], files[j]) else Apart(files[j], files[i]);
  }

  /** Extents of the directory are apart, because they are extents of the torrent with different names. */
  lemma SavedAreApart(named: seq<NamedFile>, stored: seq<seq<byte>>, h: Handle, contents: seq<seq<byte>>)
    requires NamedContents(named, stored) && SavedImage(named, stored, h, contents) && ParsedAs(h.names, h.starts)
    requires forall i, i' :: 0 <= i < i' < |h.starts| ==> h.starts[i] < h.starts[i']
    ensures Disjoint(FilesOf(h.starts, contents))
  {
    forall i, i' | 0 <= i < i' < |contents| ensures Apart(FilesOf(h.starts, contents)[i], FilesOf(h.starts, contents)[i']) {
      var j: nat :| SavedFrom(named, stored, h.names[i], contents[i], j);
      var j': nat :| SavedFrom(named, stored, h.names[i'], contents[i'], j');
      SavedExtent(named, stored, h, contents, i, j);
      SavedExtent(named, stored, h, contents, i', j');
      assert FilesOf(h.starts, contents)[i].base != FilesOf(h.starts, contents)[i'].base;
      ApartEitherWay(Layout(named), j, j');
    }
  }

  /** Every extent of the directory is one of the torrent's, by offset and contents. */
  lemma SavedAreStored(named: seq<NamedFile>, stored: seq<seq<byte>>, h: Handle, contents: seq<seq<byte>>, i: nat)
    requires NamedContents(named, stored) && SavedImage(named, stored, h, contents) && ParsedAs(h.names, h.starts) && i < |h.starts|
    ensures Among(Offsets(named), stored, h.starts[i], contents[i])
  {
    assert contents[i] != [];
    var j: nat :| SavedFrom(named, stored, h.names[i], contents[i], j);
    SameOffset(named, stored, h, contents, i, j);
  }

  /** The same for a disk that holds the torrent, however it got there. */
  lemma SavedIsServed(disk: Disk, named: seq<NamedFile>, stored: seq<seq<byte>>, h: Handle, contents: seq<seq<byte>>,
                      offset: int, len: nat, bisected: nat)
    requires NamedContents(named, stored) && SavedImage(named, stored, h, contents) && ParsedAs(h.names, h.starts)
    requires OnPartition(disk, Offsets(named), stored) && Tidy(h.starts, contents) && len > 0 && IsBisection(h.starts, offset, bisected)
    ensures var bytes := Copied(h.starts, contents, StartIndex(bisected), offset, len).0; bytes == Peek(disk, offset, |bytes|)
  {
    forall i | 0 <= i < |h.starts| ensures Among(Offsets(named), stored, h.starts[i], contents[i]) {
      SavedAreStored(named, stored, h, contents, i);
    }
    ViewIsPartition(Offsets(named), stored, h.starts, contents, disk, offset, len, bisected);
  }

  lemma SavedIsTidy(named: seq<NamedFile>, stored: seq<seq<byte>>, listing: seq<Entry>, h: Handle, width: nat, upper: bool,
                    contents: seq<seq<byte>>)
    requires NamedContents(named, stored) && Uniform(FileNames(listing), width, upper)
    requires h.names == SortNames(FileNames(listing)) && ParsedAs(h.names, h.starts) && SavedImage(named, stored, h, contents)
    ensures Tidy(h.starts, contents)
  {
    OpenIsSorted(listing, h, width, upper);
    SavedAreApart(named, stored, h, contents);
    OpenIsTidy(listing, h, width, upper, contents);
  }

  lemma NamedDownloadIsOnPartition(run: seq<State>, steps: seq<Step>, u: nat, idx: nat, named: seq<NamedFile>, stored: seq<seq<byte>>)
    requires NamedContents(named, stored) && Execution(run, steps) && u < |run| && Quiet(run[u])
    requires Downloaded(run, steps, u, idx, JoinedFrom(stored, 0)) && run[u].Vol(idx).torrent.files == Layout(named)
    ensures OnPartition(run[u].Vol(idx).disk, Offsets(named), stored)
  {
    LayoutIsOffsets(named, stored);
    DownloadIsOnPartition(run, steps, u, idx, Layout(named), JoinedFrom(stored, 0), Offsets(named), stored);
  }

  /**
    Deployment: a torrent downloaded by any run of the backend that has come to rest, with the
    offsets that the backend reads out of the file names, and the NBD plugin over a directory of
    files with those names. What `pread` stores into the buffer is what the partition holds at
    the requested offset, and all of it exactly when the range is covered and does not
    start at a later extent's start.
   */
  lemma DownloadIsServed(run: seq<State>, steps: seq<Step>, u: nat, idx: nat, named: seq<NamedFile>, stored: seq<seq<byte>>,
                         listing: seq<Entry>, h: Handle, width: nat, upper: bool, contents: seq<seq<byte>>,
                         offset: int, len: nat, bisected: nat)
    requires NamedContents(named, stored) && Execution(run, steps) && u < |run| && Quiet(run[u])
    requires Downloaded(run, steps, u, idx, JoinedFrom(stored, 0)) && run[u].Vol(idx).torrent.files == Layout(named)
    requires Uniform(FileNames(listing), width, upper)
    requires h.names == SortNames(FileNames(listing)) && ParsedAs(h.names, h.starts) && SavedImage(named, stored, h, contents)
    requires len > 0 && IsBisection(h.starts, offset, bisected)
    ensures var (bytes, end) := Copied(h.starts, contents, StartIndex(bisected), offset, len);
      && bytes == Peek(run[u].Vol(idx).disk, offset, |bytes|)
      && (forall outcome :: Classified(h.starts, contents, offset, len, outcome) <==> outcome == end)
      && (end.Filled? ==> |bytes| == len)
  {
    NamedDownloadIsOnPartition(run, steps, u, idx, named, stored);
    SavedIsTidy(named, stored, listing, h, width, upper, contents);
    SavedIsServed(run[u].Vol(idx).disk, named, stored, h, contents, offset, len, bisected);
    PreadClassified(h.starts, contents, offset, len, bisected);
  }
}
