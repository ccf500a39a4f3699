/** The ezio-nbd plugin: a saved image directory served as a block device. */
module Nbd {
  import opened Basics
  import opened HexNames
  import opened Extents

  /** The extent index of an image: partition offsets and file names, in the order of the names. */
  datatype Handle = Handle(starts: seq<int>, names: seq<string>)

  /** How `pread` ends: `NoData` is its early return, the other two are exceptions. */
  datatype Outcome = Filled | NoData | IndexError | OsError

  // ---------- open ----------

  datatype Entry = Entry(name: string, isFile: bool)

  function InsertName(n: string, sorted: seq<string>): seq<string> {
    if sorted == [] || LexLess(n, sorted[0]) then [n] + sorted else [sorted[0]] + InsertName(n, sorted[1..])
  }

  /** `list.sort()` on strings. */
  function SortNames(names: seq<string>): seq<string> {
    if names == [] then [] else InsertName(names[|names| - 1], SortNames(names[..|names| - 1]))
  }

  function FileNames(listing: seq<Entry>): seq<string> {
    if listing == [] then []
    else
      var last := listing[|listing| - 1];
      FileNames(listing[..|listing| - 1]) + if last.name != "torrent.info" && last.isFile then [last.name] else []
  }

  /** How often one entry of the directory adds a name to the list. */
  function Kept(e: Entry, n: string): nat {
    if e == Entry(n, true) && n != "torrent.info" then 1 else 0
  }

  lemma FileNamesStep(listing: seq<Entry>, n: string)
    requires listing != []
    ensures var k := |listing| - 1;
      multiset(FileNames(listing))[n] == multiset(FileNames(listing[..k]))[n] + Kept(listing[k], n)
  {
    var k := |listing| - 1;
    var before := FileNames(listing[..k]);
    if listing[k].name != "torrent.info" && listing[k].isFile {
      assert FileNames(listing) == before + [listing[k].name];
    } else {
      assert FileNames(listing) == before;
    }
  }

  lemma OneMore(listing: seq<Entry>, e: Entry)
    requires listing != []
    ensures var k := |listing| - 1;
      multiset(listing)[e] == multiset(listing[..k])[e] + if listing[k] == e then 1 else 0
  {
    var k := |listing| - 1;
    assert listing == listing[..k] + [listing[k]];
  }

  /** Exactly the plain files of the directory other than torrent.info, each as often as it is listed. */
  lemma {:induction false} FileNamesExactly(listing: seq<Entry>, n: string)
    ensures multiset(FileNames(listing))[n] == if n == "torrent.info" then 0 else multiset(listing)[Entry(n, true)]
  {
    if listing != [] {
      FileNamesExactly(listing[..|listing| - 1], n);
      FileNamesStep(listing, n);
      OneMore(listing, Entry(n, true));
    }
  }

  predicate AllParse(names: seq<string>) {
    forall i :: 0 <= i < |names| ==> PyInt(names[i]).Some?
  }

  ghost predicate ParsedAs(names: seq<string>, starts: seq<int>) {
    |starts| == |names| && forall i :: 0 <= i < |names| ==> PyInt(names[i]) == Some(starts[i])
  }

  method ListFiles(listing: seq<Entry>) returns (filenames: seq<string>)
    ensures filenames == FileNames(listing)
  {
    filenames := [];
    for k := 0 to |listing|
      invariant filenames == FileNames(listing[..k])
    {
      assert listing[..k + 1][..k] == listing[..k];
      if listing[k].name != "torrent.info" && listing[k].isFile {
        filenames := filenames + [listing[k].name];
      }
    }
    assert listing[..|listing|] == listing;
  }

  method ParseAll(filenames: seq<string>) returns (starts: Option<seq<int>>)
    ensures starts.Some? <==> AllParse(filenames)
    ensures starts.Some? ==> ParsedAs(filenames, starts.value)
  {
    var done: seq<int> := [];
    for k := 0 to |filenames|
      invariant ParsedAs(filenames[..k], done)
    {
      var parsed := PyInt(filenames[k]);
      if parsed.None? {
        return None;
      }
      done := done + [parsed.value];
    }
    assert filenames[..|filenames|] == filenames;
    return Some(done);
  }

  /** Builds the sorted extent index; None is the ValueError of a name that is no number. */
  method Open(listing: seq<Entry>) returns (h: Option<Handle>)
    ensures var names := SortNames(FileNames(listing));
      && (h.Some? <==> AllParse(names))
      && (h.Some? ==> h.value.names == names && ParsedAs(names, h.value.starts))
  {
    var filenames := ListFiles(listing);
    filenames := SortNames(filenames);
    var starts := ParseAll(filenames);
    h := if starts.Some? then Some(Handle(starts.value, filenames)) else None;
  }

  /** Distinct hexadecimal names of one width and one case, as an EZIO image directory has. */
  ghost predicate Uniform(names: seq<string>, width: nat, upper: bool) {
    && width > 0
    && (forall i :: 0 <= i < |names| ==> |names[i]| == width && OneCase(names[i], upper) && IsHex(names[i]))
    && (forall i, j :: 0 <= i < j < |names| ==> names[i] != names[j])
  }

  ghost predicate Ascending(names: seq<string>) {
    && (forall i :: 0 <= i < |names| ==> IsHex(names[i]))
    && forall i, j :: 0 <= i < j < |names| ==> Value(names[i]) < Value(names[j])
  }

  lemma {:induction false} InsertKeepsElements(n: string, sorted: seq<string>)
    ensures multiset(InsertName(n, sorted)) == multiset(sorted) + multiset{n}
    ensures |InsertName(n, sorted)| == |sorted| + 1
  {
    if sorted == [] || LexLess(n, sorted[0]) {
    } else {
      InsertKeepsElements(n, sorted[1..]);
      assert sorted == [sorted[0]] + sorted[1..];
    }
  }

  lemma {:induction false} SortKeepsElements(names: seq<string>)
    ensures multiset(SortNames(names)) == multiset(names)
  {
    if names != [] {
      var last := |names| - 1;
      SortKeepsElements(names[..last]);
      InsertKeepsElements(names[last], SortNames(names[..last]));
      assert names == names[..last] + [names[last]];
    }
  }

  /** `a` does not come after `b`. */
  predicate LexLeq(a: string, b: string) {
    !LexLess(b, a)
  }

  lemma {:induction false} LexTransitive(a: string, b: string, c: string)
    requires LexLeq(a, b) && LexLeq(b, c)
    ensures LexLeq(a, c)
  {
    if a != [] && b != [] && c != [] && a[0] == b[0] == c[0] {
      LexTransitive(a[1..], b[1..], c[1..]);
    }
  }

  lemma {:induction false} LexAsymmetric(a: string, b: string)
    requires LexLess(a, b)
    ensures LexLeq(a, b)
  {
    if a != [] && a[0] == b[0] {
      LexAsymmetric(a[1..], b[1..]);
    }
  }

  ghost predicate Ordered(names: seq<string>) {
    forall i, j :: 0 <= i < j < |names| ==> LexLeq(names[i], names[j])
  }

  lemma OrderedCons(n: string, rest: seq<string>)
    requires Ordered(rest) && forall s :: s in rest ==> LexLeq(n, s)
    ensures Ordered([n] + rest)
  {
  }

  lemma {:induction false} InsertKeepsOrdered(n: string, sorted: seq<string>)
    requires Ordered(sorted)
    ensures Ordered(InsertName(n, sorted)) && forall s :: s in InsertName(n, sorted) ==> s == n || s in sorted
  {
    if sorted == [] {
    } else if LexLess(n, sorted[0]) {
      forall s | s in sorted ensures LexLeq(n, s) {
        var k :| 0 <= k < |sorted| && sorted[k] == s;
        LexAsymmetric(n, sorted[0]);
        if k > 0 {
          LexTransitive(n, sorted[0], s);
        }
      }
      OrderedCons(n, sorted);
    } else {
      var rest := InsertName(n, sorted[1..]);
      InsertKeepsOrdered(n, sorted[1..]);
      forall s | s in rest ensures LexLeq(sorted[0], s) {
        if s != n {
          var k :| 0 <= k < |sorted[1..]| && sorted[1..][k] == s;
          assert sorted[k + 1] == s;
        }
      }
      OrderedCons(sorted[0], rest);
    }
  }

  /** `list.sort()` orders any names, whatever they look like. */
  lemma {:induction false} SortIsOrdered(names: seq<string>)
    ensures Ordered(SortNames(names))
  {
    if names != [] {
      SortIsOrdered(names[..|names| - 1]);
      InsertKeepsOrdered(names[|names| - 1], SortNames(names[..|names| - 1]));
    }
  }

  /** A name may be inserted into an ascending list of names of its own width and case that does not contain it. */
  ghost predicate Insertable(n: string, sorted: seq<string>, upper: bool) {
    && Ascending(sorted) && OneCase(n, upper) && IsHex(n)
    && forall i :: 0 <= i < |sorted| ==> |sorted[i]| == |n| && OneCase(sorted[i], upper) && sorted[i] != n
  }

  lemma AboveFirst(n: string, sorted: seq<string>, s: string)
    requires Ascending(sorted) && sorted != [] && IsHex(n) && Value(sorted[0]) < Value(n) && (s == n || s in sorted[1..])
    ensures IsHex(s) && Value(sorted[0]) < Value(s)
  {
    if s != n {
      var k :| 0 <= k < |sorted[1..]| && sorted[1..][k] == s;
      assert sorted[k + 1] == s;
    }
  }

  lemma PutInFront(first: string, rest: seq<string>)
    requires Ascending(rest) && IsHex(first) && forall i :: 0 <= i < |rest| ==> Value(first) < Value(rest[i])
    ensures Ascending([first] + rest)
  {
    var r := [first] + rest;
    assert forall i :: 0 < i < |r| ==> r[i] == rest[i - 1];
  }

  lemma {:induction false} InsertKeepsAscending(n: string, sorted: seq<string>, upper: bool)
    requires Insertable(n, sorted, upper)
    ensures Ascending(InsertName(n, sorted))
    ensures forall s :: s in InsertName(n, sorted) ==> s == n || s in sorted
  {
    if sorted != [] {
      NameOrderIsNumericOrder(n, sorted[0], upper);
      var r := InsertName(n, sorted);
      if LexLess(n, sorted[0]) {
        assert forall i :: 0 < i < |r| ==> r[i] == sorted[i - 1];
      } else {
        var rest := InsertName(n, sorted[1..]);
        InsertKeepsAscending(n, sorted[1..], upper);
        forall i | 0 <= i < |rest| ensures IsHex(rest[i]) && Value(sorted[0]) < Value(rest[i]) {
          AboveFirst(n, sorted, rest[i]);
        }
        PutInFront(sorted[0], rest);
      }
    }
  }

  lemma {:induction false} SortedIsAscending(names: seq<string>, width: nat, upper: bool)
    requires Uniform(names, width, upper)
    ensures Ascending(SortNames(names))
    ensures forall s :: s in SortNames(names) ==> s in names
  {
    if names != [] {
      var last, n := |names| - 1, names[|names| - 1];
      var sorted := SortNames(names[..last]);
      assert forall i :: 0 <= i < last ==> names[..last][i] == names[i];
      SortedIsAscending(names[..last], width, upper);
      forall i | 0 <= i < |sorted| ensures |sorted[i]| == width && OneCase(sorted[i], upper) && sorted[i] != n {
        assert sorted[i] in names[..last];
        var k :| 0 <= k < last && names[..last][k] == sorted[i];
        assert names[k] == sorted[i];
      }
      InsertKeepsAscending(n, sorted, upper);
    }
  }

  /** What the binary search relies on: for uniform names the sorted index has strictly increasing offsets. */
  lemma OpenIsSorted(listing: seq<Entry>, h: Handle, width: nat, upper: bool)
    requires Uniform(FileNames(listing), width, upper)
    requires h.names == SortNames(FileNames(listing)) && ParsedAs(h.names, h.starts)
    ensures multiset(h.names) == multiset(FileNames(listing))
    ensures forall i, j :: 0 <= i < j < |h.starts| ==> h.starts[i] < h.starts[j]
  {
    SortKeepsElements(FileNames(listing));
    SortedIsAscending(FileNames(listing), width, upper);
    forall i | 0 <= i < |h.starts| ensures IsHex(h.names[i]) && h.starts[i] == Value(h.names[i]) {
      assert h.names[i] in h.names;
      var k :| 0 <= k < |FileNames(listing)| && FileNames(listing)[k] == h.names[i];
      PlainNamesAgree(h.names[i]);
    }
  }

  // ---------- pread ----------

  /** The copy loop of `pread` from extent `index` on: the bytes stored into the buffer, and how the loop ends. */
  function Copied(starts: seq<int>, contents: seq<seq<byte>>, index: nat, current: int, remain: nat): (r: (seq<byte>, Outcome))
    requires |starts| == |contents|
    ensures |r.0| <= remain && (r.1.Filled? ==> |r.0| == remain)
    decreases |starts| - index
  {
    if remain == 0 then ([], Filled)
    else if index >= |starts| then ([], IndexError)
    else
      var offset, size := current - starts[index], |contents[index]|;
      if offset >= size then ([], NoData)
      else if offset < 0 then ([], OsError)
      else
        var n := Min(remain, size - offset);
        var (rest, outcome) := Copied(starts, contents, index + 1, current + n, remain - n);
        (contents[index][offset..offset + n] + rest, outcome)
  }

  /** One round of the loop, inside an extent. */
  lemma CopiedRound(starts: seq<int>, contents: seq<seq<byte>>, index: nat, current: int, remain: nat)
    requires |starts| == |contents| && remain > 0
    requires index < |starts| && 0 <= current - starts[index] < |contents[index]|
    ensures var offset := current - starts[index];
      var n := Min(remain, |contents[index]| - offset);
      var rest := Copied(starts, contents, index + 1, current + n, remain - n);
      Copied(starts, contents, index, current, remain) == (contents[index][offset..offset + n] + rest.0, rest.1)
  {
  }

  /** `bisect.bisect_left`. */
  method BisectLeft(a: seq<int>, x: int) returns (lo: nat)
    ensures lo <= |a|
    ensures (forall i, j :: 0 <= i < j < |a| ==> a[i] <= a[j]) ==>
      (forall i :: 0 <= i < lo ==> a[i] < x) && (forall i :: lo <= i < |a| ==> x <= a[i])
  {
    lo := 0;
    var hi := |a|;
    while lo < hi
      invariant lo <= hi <= |a|
      invariant (forall i, j :: 0 <= i < j < |a| ==> a[i] <= a[j]) ==>
        (forall i :: 0 <= i < lo ==> a[i] < x) && (forall i :: hi <= i < |a| ==> x <= a[i])
    {
      var mid := (lo + hi) / 2;
      if a[mid] < x {
        lo := mid + 1;
      } else {
        hi := mid;
      }
    }
  }

  /** The extent that `pread` starts with, from the answer of the binary search. */
  function StartIndex(bisected: nat): nat {
    if bisected > 1 then bisected - 1 else 0
  }

  /** `buf[at:at+n] = chunk` on a buffer that is long enough. */
  method Splice(buf: array<byte>, at: nat, chunk: seq<byte>)
    requires at + |chunk| <= buf.Length
    modifies buf
    ensures buf[..] == Overlay(old(buf[..]), at, chunk)
  {
    forall i | at <= i < at + |chunk| {
      buf[i] := chunk[i - at];
    }
  }

  lemma SpliceNext(done: seq<byte>, before: seq<byte>, chunk: seq<byte>)
    requires |done| + |chunk| <= |before|
    ensures Overlay(done + before[|done|..], |done|, chunk) == done + chunk + before[|done + chunk|..]
  {
  }

  /** The bytes `done` so far, continued by `rest`, make up the `whole` run of the loop. */
  ghost predicate Goes(done: seq<byte>, rest: (seq<byte>, Outcome), whole: (seq<byte>, Outcome)) {
    whole.0 == done + rest.0 && whole.1 == rest.1
  }

  lemma GoesOn(done: seq<byte>, chunk: seq<byte>, rest: (seq<byte>, Outcome), whole: (seq<byte>, Outcome))
    requires Goes(done, (chunk + rest.0, rest.1), whole)
    ensures Goes(done + chunk, rest, whole)
  {
    assert done + (chunk + rest.0) == done + chunk + rest.0;
  }

  /** `bisected` is the answer of the binary search for `offset`. */
  ghost predicate IsBisection(starts: seq<int>, offset: int, bisected: nat) {
    && bisected <= |starts|
    && ((forall i, j :: 0 <= i < j < |starts| ==> starts[i] <= starts[j]) ==>
          (forall i :: 0 <= i < bisected ==> starts[i] < offset) && (forall i :: bisected <= i < |starts| ==> offset <= starts[i]))
  }

  method Pread(starts: seq<int>, contents: seq<seq<byte>>, buf: array<byte>, offset: int)
    returns (outcome: Outcome, ghost bisected: nat)
    requires |starts| == |contents|
    modifies buf
    ensures IsBisection(starts, offset, bisected)
    ensures var (bytes, end) := Copied(starts, contents, StartIndex(bisected), offset, buf.Length);
      outcome == end && buf[..] == bytes + old(buf[..])[|bytes|..]
    ensures Tidy(starts, contents) && buf.Length > 0 ==>
      forall other :: Classified(starts, contents, offset, buf.Length, other) <==> other == outcome
    ensures buf.Length == 0 ==> outcome == Filled
  {
    var found := BisectLeft(starts, offset);
    bisected := found;
    var index := found as int - 1;
    index := if index > 0 then index else 0;
    outcome := CopyLoop(starts, contents, index, buf, offset);
    if Tidy(starts, contents) && buf.Length > 0 {
      PreadClassified(starts, contents, offset, buf.Length, bisected);
    }
  }

  method CopyLoop(starts: seq<int>, contents: seq<seq<byte>>, first: nat, buf: array<byte>, offset: int)
    returns (outcome: Outcome)
    requires |starts| == |contents|
    modifies buf
    ensures var (bytes, end) := Copied(starts, contents, first, offset, buf.Length);
      outcome == end && buf[..] == bytes + old(buf[..])[|bytes|..]
  {
    var index: nat, remain, at, current := first, buf.Length, 0, offset;
    ghost var done: seq<byte> := [];
    ghost var whole := Copied(starts, contents, first, offset, buf.Length);
    while remain > 0
      invariant 0 <= remain && at + remain == buf.Length && at == |done|
      invariant Goes(done, Copied(starts, contents, index, current, remain), whole)
      invariant buf[..] == done + old(buf[..])[|done|..]
      decreases remain
    {
      ghost var chunk;
      var n;
      outcome, n, chunk := CopyRound(starts, contents, index, buf, at, current, remain);
      if !outcome.Filled? {
        return;
      }
      GoesOn(done, chunk, Copied(starts, contents, index + 1, current + n, remain - n), whole);
      SpliceNext(done, old(buf[..]), chunk);
      done := done + chunk;
      remain, at, current, index := remain - n, at + n, current + n, index + 1;
    }
    outcome := Filled;
  }

  /** The body of the loop: one extent. */
  method CopyRound(starts: seq<int>, contents: seq<seq<byte>>, index: nat, buf: array<byte>, at: nat, current: int, remain: nat)
    returns (outcome: Outcome, readLen: nat, ghost chunk: seq<byte>)
    requires |starts| == |contents| && 0 < remain && at + remain == buf.Length
    modifies buf
    ensures |chunk| == readLen <= remain && (outcome.Filled? <==> readLen > 0)
    ensures buf[..] == Overlay(old(buf[..]), at, chunk)
    ensures !outcome.Filled? ==> Copied(starts, contents, index, current, remain) == ([], outcome) && buf[..] == old(buf[..])
    ensures outcome.Filled? ==>
      var rest := Copied(starts, contents, index + 1, current + readLen, remain - readLen);
      Copied(starts, contents, index, current, remain) == (chunk + rest.0, rest.1)
  {
    if index >= |starts| {
      return IndexError, 0, [];
    }
    var blockOffset := current - starts[index];
    if blockOffset >= |contents[index]| {
      return NoData, 0, [];
    }
    readLen := Min(remain, |contents[index]| - blockOffset);
    if blockOffset < 0 {
      return OsError, 0, [];
    }
    var data := contents[index][blockOffset..blockOffset + readLen];
    Splice(buf, at, data);
    return Filled, readLen, data;
  }

  // ---------- the view agrees with the partition ----------

  /** Sorted, disjoint, non-empty extents. */
  ghost predicate Tidy(starts: seq<int>, contents: seq<seq<byte>>) {
    && |starts| == |contents|
    && (forall i :: 0 <= i < |contents| ==> contents[i] != [])
    && (forall i, j :: 0 <= i < j < |starts| ==> starts[i] + |contents[i]| <= starts[j])
  }

  lemma InOrder(starts: seq<int>, contents: seq<seq<byte>>, i: int, j: int)
    requires Tidy(starts, contents)
    ensures 0 <= i < j < |starts| ==> starts[i] + |contents[i]| <= starts[j]
  {
  }

  predicate Inside(starts: seq<int>, contents: seq<seq<byte>>, i: int, a: int)
    requires |starts| == |contents|
  {
    0 <= i < |starts| && starts[i] <= a < starts[i] + |contents[i]|
  }

  /** Partition address `a` is in some extent. */
  ghost predicate Covered(starts: seq<int>, contents: seq<seq<byte>>, a: int)
    requires |starts| == |contents|
  {
    exists i :: Inside(starts, contents, i, a)
  }

  ghost predicate CoveredRange(starts: seq<int>, contents: seq<seq<byte>>, a: int, n: nat)
    requires |starts| == |contents|
  {
    forall x :: a <= x < a + n ==> Covered(starts, contents, x)
  }

  /** Address `a` holds byte `b` in the image. */
  ghost predicate Holds(starts: seq<int>, contents: seq<seq<byte>>, a: int, b: byte)
    requires |starts| == |contents|
  {
    exists i :: Inside(starts, contents, i, a) && contents[i][a - starts[i]] == b
  }

  ghost predicate HoldsAll(starts: seq<int>, contents: seq<seq<byte>>, a: int, bytes: seq<byte>)
    requires |starts| == |contents|
  {
    forall k :: 0 <= k < |bytes| ==> Holds(starts, contents, a + k, bytes[k])
  }

  lemma HoldsConcat(starts: seq<int>, contents: seq<seq<byte>>, a: int, xs: seq<byte>, ys: seq<byte>)
    requires |starts| == |contents| && HoldsAll(starts, contents, a, xs) && HoldsAll(starts, contents, a + |xs|, ys)
    ensures HoldsAll(starts, contents, a, xs + ys)
  {
    forall k | 0 <= k < |xs + ys| ensures Holds(starts, contents, a + k, (xs + ys)[k]) {
      if k >= |xs| {
        assert Holds(starts, contents, a + |xs| + (k - |xs|), ys[k - |xs|]);
      }
    }
  }

  lemma HoldsInside(starts: seq<int>, contents: seq<seq<byte>>, index: nat, offset: nat, n: nat)
    requires |starts| == |contents| && index < |starts| && offset + n <= |contents[index]|
    ensures HoldsAll(starts, contents, starts[index] + offset, contents[index][offset..offset + n])
    ensures CoveredRange(starts, contents, starts[index] + offset, n)
  {
    var bytes := contents[index][offset..offset + n];
    forall k | 0 <= k < |bytes| ensures Holds(starts, contents, starts[index] + offset + k, bytes[k]) {
      assert Inside(starts, contents, index, starts[index] + offset + k);
    }
    forall x | starts[index] + offset <= x < starts[index] + offset + n ensures Covered(starts, contents, x) {
      assert Inside(starts, contents, index, x);
    }
  }

  lemma RangeSplit(starts: seq<int>, contents: seq<seq<byte>>, a: int, n: nat, m: nat)
    requires |starts| == |contents| && CoveredRange(starts, contents, a, n)
    ensures CoveredRange(starts, contents, a, n + m) <==> CoveredRange(starts, contents, a + n, m)
  {
  }

  /** Address `x` is the first one of the range that is in no extent. */
  ghost predicate GapAt(starts: seq<int>, contents: seq<seq<byte>>, a: int, n: nat, x: int)
    requires |starts| == |contents|
  {
    a <= x < a + n && CoveredRange(starts, contents, a, x - a) && !Covered(starts, contents, x)
  }

  predicate StartsLater(starts: seq<int>, x: int) {
    exists i :: 0 <= i < |starts| && x < starts[i]
  }

  lemma GapIsFirst(starts: seq<int>, contents: seq<seq<byte>>, a: int, n: nat, x: int)
    requires |starts| == |contents| && GapAt(starts, contents, a, n, x)
    ensures !CoveredRange(starts, contents, a, n) && forall y :: GapAt(starts, contents, a, n, y) ==> y == x
  {
    assert !Covered(starts, contents, x);
    forall y | GapAt(starts, contents, a, n, y) ensures y == x {
      assert !Covered(starts, contents, y);
    }
  }

  /**
    The loop stores the bytes at the addresses of the range, all of them if the range is covered;
    otherwise it stops with an exception at the first address that is in no extent.
   */
  ghost predicate Delivers(starts: seq<int>, contents: seq<seq<byte>>, index: nat, current: int, remain: nat)
    requires |starts| == |contents|
  {
    var (bytes, end) := Copied(starts, contents, index, current, remain);
    && HoldsAll(starts, contents, current, bytes)
    && if end.Filled? then CoveredRange(starts, contents, current, remain)
       else StopsAtGap(starts, contents, current, remain, current + |bytes|, end)
  }

  ghost predicate StopsAtGap(starts: seq<int>, contents: seq<seq<byte>>, current: int, remain: nat, x: int, end: Outcome)
    requires |starts| == |contents|
  {
    GapAt(starts, contents, current, remain, x) && end == if StartsLater(starts, x) then OsError else IndexError
  }

  lemma GapLater(starts: seq<int>, contents: seq<seq<byte>>, current: int, n: nat, remain: nat, x: int, end: Outcome)
    requires |starts| == |contents| && n <= remain && CoveredRange(starts, contents, current, n)
    requires StopsAtGap(starts, contents, current + n, remain - n, x, end)
    ensures StopsAtGap(starts, contents, current, remain, x, end)
  {
    RangeSplit(starts, contents, current, n, x - (current + n));
  }

  /** A round that stores `chunk`, followed by what the rest of the loop delivers. */
  lemma RoundDelivers(starts: seq<int>, contents: seq<seq<byte>>, index: nat, current: int, remain: nat, chunk: seq<byte>)
    requires |starts| == |contents| && |chunk| <= remain
    requires CoveredRange(starts, contents, current, |chunk|) && HoldsAll(starts, contents, current, chunk)
    requires Delivers(starts, contents, index + 1, current + |chunk|, remain - |chunk|)
    requires var rest := Copied(starts, contents, index + 1, current + |chunk|, remain - |chunk|);
      Copied(starts, contents, index, current, remain) == (chunk + rest.0, rest.1)
    ensures Delivers(starts, contents, index, current, remain)
  {
    var rest := Copied(starts, contents, index + 1, current + |chunk|, remain - |chunk|);
    HoldsConcat(starts, contents, current, chunk, rest.0);
    if rest.1.Filled? {
      RangeSplit(starts, contents, current, |chunk|, remain - |chunk|);
    } else {
      GapLater(starts, contents, current, |chunk|, remain, current + |chunk| + |rest.0|, rest.1);
    }
  }

  /** From inside an extent the loop goes on to the end of the range, or to its first gap. */
  lemma {:induction false} CopyFromInside(starts: seq<int>, contents: seq<seq<byte>>, index: nat, current: int, remain: nat)
    requires Tidy(starts, contents) && Inside(starts, contents, index, current)
    ensures Delivers(starts, contents, index, current, remain)
    decreases |starts| - index, 1
  {
    if remain > 0 {
      var offset := current - starts[index];
      var n := Min(remain, |contents[index]| - offset);
      CopiedRound(starts, contents, index, current, remain);
      HoldsInside(starts, contents, index, offset, n);
      RestFromEnd(starts, contents, index, current + n, remain - n);
      RoundDelivers(starts, contents, index, current, remain, contents[index][offset..offset + n]);
    }
  }

  lemma {:induction false} RestFromEnd(starts: seq<int>, contents: seq<seq<byte>>, index: nat, current: int, remain: nat)
    requires Tidy(starts, contents) && index < |starts|
    requires remain == 0 || current == starts[index] + |contents[index]|
    ensures Delivers(starts, contents, index + 1, current, remain)
    decreases |starts| - index, 0
  {
    if remain > 0 {
      NextExtent(starts, contents, index, current, remain);
      if Inside(starts, contents, index + 1, current) {
        CopyFromInside(starts, contents, index + 1, current, remain);
      }
    }
  }

  /** At the end of an extent the loop goes on only if the next extent touches it; otherwise the address is in no extent. */
  lemma NextExtent(starts: seq<int>, contents: seq<seq<byte>>, index: nat, current: int, remain: nat)
    requires Tidy(starts, contents) && index < |starts| && current == starts[index] + |contents[index]| && remain > 0
    ensures Inside(starts, contents, index + 1, current) <==> Covered(starts, contents, current)
    ensures !Inside(starts, contents, index + 1, current) ==>
      Copied(starts, contents, index + 1, current, remain) == ([], if StartsLater(starts, current) then OsError else IndexError)
  {
    if Covered(starts, contents, current) {
      var i :| Inside(starts, contents, i, current);
      InOrder(starts, contents, i, index);
      InOrder(starts, contents, index + 1, i);
    }
    if index + 1 < |starts| {
      InOrder(starts, contents, index, index + 1);
    }
    if i :| 0 <= i < |starts| && current < starts[i] {
      InOrder(starts, contents, i, index);
    }
  }

  /** The request starts exactly where an extent other than the first one starts. */
  predicate AtLaterStart(starts: seq<int>, offset: int) {
    exists i :: 0 < i < |starts| && starts[i] == offset
  }

  ghost predicate BeginsInside(starts: seq<int>, contents: seq<seq<byte>>, offset: int)
    requires |starts| == |contents|
  {
    Covered(starts, contents, offset) && !AtLaterStart(starts, offset)
  }

  /** The outcome of a request, from the extents and the request alone. */
  ghost predicate Classified(starts: seq<int>, contents: seq<seq<byte>>, offset: int, len: nat, end: Outcome)
    requires |starts| == |contents|
  {
    match end
    case Filled => CoveredRange(starts, contents, offset, len) && !AtLaterStart(starts, offset)
    case NoData => starts != [] && starts[0] <= offset && !BeginsInside(starts, contents, offset)
    case OsError =>
      && starts != []
      && (offset < starts[0]
          || (BeginsInside(starts, contents, offset) && exists x :: GapAt(starts, contents, offset, len, x) && StartsLater(starts, x)))
    case IndexError =>
      starts == []
      || (BeginsInside(starts, contents, offset) && exists x :: GapAt(starts, contents, offset, len, x) && !StartsLater(starts, x))
  }

  /** The four outcomes exclude each other. */
  lemma OneOutcome(starts: seq<int>, contents: seq<seq<byte>>, offset: int, len: nat, end: Outcome, other: Outcome)
    requires Tidy(starts, contents) && len > 0
    requires Classified(starts, contents, offset, len, end) && Classified(starts, contents, offset, len, other)
    ensures end == other
  {
    if Covered(starts, contents, offset) {
      var i :| Inside(starts, contents, i, offset);
      InOrder(starts, contents, 0, i);
    }
    assert CoveredRange(starts, contents, offset, len) ==> Covered(starts, contents, offset);
    if x :| GapAt(starts, contents, offset, len, x) {
      GapIsFirst(starts, contents, offset, len, x);
    }
  }

  lemma PreadInside(starts: seq<int>, contents: seq<seq<byte>>, offset: int, len: nat, bisected: nat)
    requires Tidy(starts, contents) && len > 0 && IsBisection(starts, offset, bisected)
    requires Inside(starts, contents, StartIndex(bisected), offset)
    ensures var (bytes, end) := Copied(starts, contents, StartIndex(bisected), offset, len);
      Classified(starts, contents, offset, len, end) && HoldsAll(starts, contents, offset, bytes)
      && (!end.Filled? ==> GapAt(starts, contents, offset, len, offset + |bytes|))
  {
    assert forall i, j :: 0 <= i < j < |starts| ==> starts[i] <= starts[j];
    CopyFromInside(starts, contents, StartIndex(bisected), offset, len);
    NoStartInside(starts, contents, StartIndex(bisected), offset);
  }

  lemma PreadOutside(starts: seq<int>, contents: seq<seq<byte>>, offset: int, len: nat, bisected: nat)
    requires Tidy(starts, contents) && len > 0 && IsBisection(starts, offset, bisected)
    requires !Inside(starts, contents, StartIndex(bisected), offset)
    ensures var (bytes, end) := Copied(starts, contents, StartIndex(bisected), offset, len);
      Classified(starts, contents, offset, len, end) && bytes == []
  {
    assert forall i, j :: 0 <= i < j < |starts| ==> starts[i] <= starts[j];
    CoveredOnlyAtStart(starts, contents, offset, bisected);
  }

  /**
    Exactly how `pread` ends, for every request of at least one byte. It fills the buffer if and
    only if every address of the range is in some extent and the range does not start exactly at
    a later extent's start. It returns with the buffer untouched if the request starts there, in
    a hole or behind all extents. It raises if it starts in front of all extents or in an
    empty image, or runs into a gap; then the bytes up to the gap have been stored. All
    bytes stored are those at the requested addresses.
   */
  lemma PreadClassified(starts: seq<int>, contents: seq<seq<byte>>, offset: int, len: nat, bisected: nat)
    requires Tidy(starts, contents) && len > 0 && IsBisection(starts, offset, bisected)
    ensures var (bytes, end) := Copied(starts, contents, StartIndex(bisected), offset, len);
      && (forall outcome :: Classified(starts, contents, offset, len, outcome) <==> outcome == end)
      && HoldsAll(starts, contents, offset, bytes)
      && (if BeginsInside(starts, contents, offset)
          then end.Filled? || GapAt(starts, contents, offset, len, offset + |bytes|) else bytes == [])
  {
    var index := StartIndex(bisected);
    var (bytes, end) := Copied(starts, contents, index, offset, len);
    assert forall i, j :: 0 <= i < j < |starts| ==> starts[i] <= starts[j];
    if Inside(starts, contents, index, offset) {
      PreadInside(starts, contents, offset, len, bisected);
      NoStartInside(starts, contents, index, offset);
    } else {
      PreadOutside(starts, contents, offset, len, bisected);
      CoveredOnlyAtStart(starts, contents, offset, bisected);
    }
    forall outcome | Classified(starts, contents, offset, len, outcome) ensures outcome == end {
      OneOutcome(starts, contents, offset, len, outcome, end);
    }
  }

  lemma NoStartInside(starts: seq<int>, contents: seq<seq<byte>>, index: nat, offset: int)
    requires Tidy(starts, contents) && Inside(starts, contents, index, offset) && (starts[index] < offset || index == 0)
    ensures !AtLaterStart(starts, offset)
  {
    forall i | 0 < i < |starts| ensures starts[i] != offset {
      assert i < index ==> starts[i] + |contents[i]| <= starts[index];
      assert index < i ==> starts[index] + |contents[index]| <= starts[i];
    }
  }

  lemma CoveredOnlyAtStart(starts: seq<int>, contents: seq<seq<byte>>, offset: int, bisected: nat)
    requires Tidy(starts, contents) && IsBisection(starts, offset, bisected)
    requires !Inside(starts, contents, StartIndex(bisected), offset)
    ensures Covered(starts, contents, offset) <==> AtLaterStart(starts, offset)
    ensures AtLaterStart(starts, offset) ==> bisected > 0
  {
    assert forall i, j :: 0 <= i < j < |starts| ==> starts[i] <= starts[j];
    if Covered(starts, contents, offset) {
      var i :| Inside(starts, contents, i, offset);
      InOrder(starts, contents, i, bisected - 1);
      assert starts[i] == offset && i > 0;
    }
    if i :| 0 < i < |starts| && starts[i] == offset {
      assert Inside(starts, contents, i, offset);
      assert starts[0] + |contents[0]| <= starts[i];
    }
  }

  // ---------- the same image on a raw partition ----------

  /** A torrent whose files are the extents. */
  function FilesOf(starts: seq<int>, contents: seq<seq<byte>>): (files: seq<File>)
    requires |starts| == |contents|
    ensures |files| == |starts|
    ensures forall i :: 0 <= i < |files| ==> files[i] == File(Some(starts[i]), |contents[i]|)
  {
    seq(|starts|, i requires 0 <= i < |starts| => File(Some(starts[i]), |contents[i]|))
  }

  /** The logical byte string of that torrent, from extent `i` on. */
  function JoinedFrom(contents: seq<seq<byte>>, i: nat): seq<byte>
    requires i <= |contents|
    decreases |contents| - i
  {
    if i == |contents| then [] else contents[i] + JoinedFrom(contents, i + 1)
  }

  lemma {:induction false} JoinedLength(files: seq<File>, contents: seq<seq<byte>>, i: nat)
    requires |files| == |contents| && (forall k :: 0 <= k < |files| ==> files[k].size == |contents[k]|) && i <= |files|
    ensures |JoinedFrom(contents, i)| == TotalFrom(files, i)
    decreases |files| - i
  {
    if i < |files| {
      JoinedLength(files, contents, i + 1);
    }
  }

  /** Byte `o` of extent `f` has a logical position, and the logical byte string holds it there. */
  lemma {:induction false} PositionOf(files: seq<File>, contents: seq<seq<byte>>, i: nat, f: nat, o: nat) returns (pos: nat)
    requires |files| == |contents| && forall k :: 0 <= k < |files| ==> files[k].size == |contents[k]|
    requires i <= f < |files| && o < |contents[f]|
    ensures pos < TotalFrom(files, i) && FileFrom(files, i, pos) == (f, o)
    ensures pos < |JoinedFrom(contents, i)| && JoinedFrom(contents, i)[pos] == contents[f][o]
    decreases |files| - i
  {
    JoinedLength(files, contents, i);
    if f == i {
      pos := o;
    } else {
      var rest := PositionOf(files, contents, i + 1, f, o);
      pos := |contents[i]| + rest;
    }
  }

  /** The partition holds the image: every extent at its own offset. */
  ghost predicate OnPartition(disk: Disk, starts: seq<int>, contents: seq<seq<byte>>)
    requires |starts| == |contents|
  {
    forall i, a :: Inside(starts, contents, i, a) ==> disk(a) == contents[i][a - starts[i]]
  }

  /** Logical byte `pos` of the torrent is on the partition at its mapped address. */
  ghost predicate Placed(disk: Disk, files: seq<File>, content: seq<byte>, pos: nat)
    requires pos < |content| == TotalFrom(files, 0)
  {
    Address(files, pos).Some? && disk(Address(files, pos).value) == content[pos]
  }

  ghost predicate AllPlaced(disk: Disk, files: seq<File>, content: seq<byte>) {
    |content| == TotalFrom(files, 0) && forall pos: nat :: pos < |content| ==> Placed(disk, files, content, pos)
  }

  /** The logical position of the byte at address `a` of extent `i`. */
  lemma ExtentPosition(files: seq<File>, content: seq<byte>, starts: seq<int>, contents: seq<seq<byte>>, i: nat, a: int) returns (pos: nat)
    requires |starts| == |contents| && files == FilesOf(starts, contents) && content == JoinedFrom(contents, 0)
    requires Inside(starts, contents, i, a)
    ensures pos < TotalFrom(files, 0) && Address(files, pos) == Some(a)
    ensures pos < |content| && content[pos] == contents[i][a - starts[i]]
  {
    pos := PositionOf(files, contents, 0, i, a - starts[i]);
    assert files[i].base == Some(starts[i]);
  }

  /** A partition that holds every logical byte holds the image. */
  lemma PlacedIsImage(disk: Disk, files: seq<File>, content: seq<byte>, starts: seq<int>, contents: seq<seq<byte>>)
    requires |starts| == |contents| && files == FilesOf(starts, contents) && content == JoinedFrom(contents, 0)
    requires AllPlaced(disk, files, content)
    ensures OnPartition(disk, starts, contents)
  {
    forall i, a | Inside(starts, contents, i, a) ensures disk(a) == contents[i][a - starts[i]] {
      var pos := ExtentPosition(files, content, starts, contents, i, a);
      assert Placed(disk, files, content, pos);
    }
  }

  /** A range of the torrent's logical bytes. */
  datatype Chunk = Chunk(pos: nat, len: nat) {
    predicate Has(q: nat) {
      pos <= q < pos + len
    }
  }

  /** The states of a partition to which chunks of the torrent's contents are written one after the other. */
  ghost predicate IsWriteSeries(files: seq<File>, content: seq<byte>, chunks: seq<Chunk>, disks: seq<Disk>) {
    && |disks| == |chunks| + 1 && |content| == TotalFrom(files, 0)
    && forall i :: 0 <= i < |chunks| ==> ChunkWritten(files, content, chunks[i], disks[i], disks[i + 1])
  }

  ghost predicate ChunkWritten(files: seq<File>, content: seq<byte>, c: Chunk, disk: Disk, after: Disk) {
    && c.pos + c.len <= |content| == TotalFrom(files, 0)
    && WrittenTo(files, disk, c.pos, content[c.pos..c.pos + c.len], after)
  }

  lemma AllReached(files: seq<File>, pos: nat, len: nat)
    requires Parses(files) && pos + len <= TotalFrom(files, 0)
    ensures Reach(Addresses(files, pos, len)) == len
  {
  }

  lemma ChunkPlacesIts(files: seq<File>, content: seq<byte>, c: Chunk, disk: Disk, after: Disk, q: nat)
    requires Disjoint(files) && Parses(files) && ChunkWritten(files, content, c, disk, after) && q < |content| && c.Has(q)
    ensures Placed(after, files, content, q)
  {
    AllReached(files, c.pos, c.len);
    ReadBack(files, disk, c.pos, content[c.pos..c.pos + c.len], after, q - c.pos);
  }

  lemma ChunkKeepsOthers(files: seq<File>, content: seq<byte>, c: Chunk, disk: Disk, after: Disk, q: nat)
    requires Disjoint(files) && Parses(files) && ChunkWritten(files, content, c, disk, after) && q < |content| && !c.Has(q)
    requires Placed(disk, files, content, q)
    ensures Placed(after, files, content, q)
  {
    AllReached(files, c.pos, c.len);
    KeptLogically(files, disk, c.pos, content[c.pos..c.pos + c.len], after, q);
  }

  /** One of the first `n` chunks has the byte. */
  ghost predicate CoveredBy(chunks: seq<Chunk>, n: nat, q: nat) {
    exists i :: 0 <= i < n <= |chunks| && chunks[i].Has(q)
  }

  lemma {:induction false} SeriesPlaces(files: seq<File>, content: seq<byte>, chunks: seq<Chunk>, disks: seq<Disk>, n: nat, q: nat)
    requires Disjoint(files) && Parses(files) && IsWriteSeries(files, content, chunks, disks) && q < |content|
    requires CoveredBy(chunks, n, q)
    ensures n <= |chunks| && Placed(disks[n], files, content, q)
  {
    var c := chunks[n - 1];
    assert ChunkWritten(files, content, c, disks[n - 1], disks[n - 1 + 1]);
    if c.Has(q) {
      ChunkPlacesIts(files, content, c, disks[n - 1], disks[n], q);
    } else {
      assert CoveredBy(chunks, n - 1, q);
      SeriesPlaces(files, content, chunks, disks, n - 1, q);
      ChunkKeepsOthers(files, content, c, disks[n - 1], disks[n], q);
    }
  }

  lemma SeriesPlacesAll(files: seq<File>, content: seq<byte>, chunks: seq<Chunk>, disks: seq<Disk>)
    requires Disjoint(files) && Parses(files) && IsWriteSeries(files, content, chunks, disks)
    requires forall q: nat :: q < |content| ==> CoveredBy(chunks, |chunks|, q)
    ensures AllPlaced(disks[|chunks|], files, content)
  {
    forall q: nat | q < |content| ensures Placed(disks[|chunks|], files, content, q) {
      SeriesPlaces(files, content, chunks, disks, |chunks|, q);
    }
  }

  /** Any series of writes that together cover the torrent, in any order and overlapping or not, puts the image on the partition. */
  lemma TorrentWritesAreImage(starts: seq<int>, contents: seq<seq<byte>>, files: seq<File>, content: seq<byte>,
                              chunks: seq<Chunk>, disks: seq<Disk>)
    requires |starts| == |contents| && files == FilesOf(starts, contents) && content == JoinedFrom(contents, 0)
    requires Disjoint(files) && IsWriteSeries(files, content, chunks, disks)
    requires forall q: nat :: q < |content| ==> CoveredBy(chunks, |chunks|, q)
    ensures OnPartition(disks[|chunks|], starts, contents)
  {
    SeriesPlacesAll(files, content, chunks, disks);
    PlacedIsImage(disks[|chunks|], files, content, starts, contents);
  }

  lemma HeldIsOnPartition(disk: Disk, starts: seq<int>, contents: seq<seq<byte>>, a: int, bytes: seq<byte>)
    requires |starts| == |contents| && OnPartition(disk, starts, contents) && HoldsAll(starts, contents, a, bytes)
    ensures bytes == Peek(disk, a, |bytes|)
  {
    forall k | 0 <= k < |bytes| ensures bytes[k] == disk(a + k) {
      assert Holds(starts, contents, a + k, bytes[k]);
    }
  }

  /** There is an extent with this offset and these contents. */
  ghost predicate Among(order: seq<int>, stored: seq<seq<byte>>, start: int, content: seq<byte>)
    requires |order| == |stored|
  {
    exists j :: 0 <= j < |order| && order[j] == start && stored[j] == content
  }

  /**
    The NBD view is the raw partition: if the extents of the directory are on a partition, in
    whatever order, `pread` over the sorted extents puts into the buffer what a pread of the
    partition itself would, and all of it when it reports success.
   */
  lemma ViewIsPartition(order: seq<int>, stored: seq<seq<byte>>, starts: seq<int>, contents: seq<seq<byte>>,
                        disk: Disk, offset: int, len: nat, bisected: nat)
    requires |order| == |stored| && OnPartition(disk, order, stored)
    requires Tidy(starts, contents) && len > 0 && IsBisection(starts, offset, bisected)
    requires forall i :: 0 <= i < |starts| ==> Among(order, stored, starts[i], contents[i])
    ensures var (bytes, end) := Copied(starts, contents, StartIndex(bisected), offset, len);
      bytes == Peek(disk, offset, |bytes|) && (end.Filled? ==> bytes == Peek(disk, offset, len))
  {
    forall i, a | Inside(starts, contents, i, a) ensures disk(a) == contents[i][a - starts[i]] {
      assert Among(order, stored, starts[i], contents[i]);
      var j :| 0 <= j < |order| && order[j] == starts[i] && stored[j] == contents[i];
      assert Inside(order, stored, j, a);
    }
    PreadClassified(starts, contents, offset, len, bisected);
    HeldIsOnPartition(disk, starts, contents, offset, Copied(starts, contents, StartIndex(bisected), offset, len).0);
  }

  /** What `open` makes of uniform names of apart, non-empty extents is an index that `pread` can search. */
  lemma OpenIsTidy(listing: seq<Entry>, h: Handle, width: nat, upper: bool, contents: seq<seq<byte>>)
    requires Uniform(FileNames(listing), width, upper)
    requires h.names == SortNames(FileNames(listing)) && ParsedAs(h.names, h.starts)
    requires |contents| == |h.starts| && forall i :: 0 <= i < |contents| ==> contents[i] != []
    requires Disjoint(FilesOf(h.starts, contents))
    ensures Tidy(h.starts, contents)
  {
    OpenIsSorted(listing, h, width, upper);
    var files := FilesOf(h.starts, contents);
    forall i, j | 0 <= i < j < |h.starts| ensures h.starts[i] + |contents[i]| <= h.starts[j] {
      assert Apart(files[i], files[j]);
    }
  }
}
