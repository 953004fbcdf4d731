/** What writing one block does to the bytes of the others (src/bittorrent/torrent.rs, `write_block_raw`): every file
    the block falls on is overwritten with the whole buffer from the beginning of its segment on. */
module Neighbours {
  import opened Outcomes
  import opened FileMap
  import opened FileEnds

  // ------------------------------------------------------- every file, whole

  /** Where the block's segment in file m begins, if it has one. */
  function Hit(files: seq<BTFile>, index: nat, length: nat, m: nat): Option<nat> {
    match MapFiles(files, index, length)
    case Ok(segs) =>
      var (k, at) := Locate(files, 0, index);
      if k <= m < k + |segs| then Some(if m == k then at else 0) else None
    case _ => None
  }

  /** A file after a buffer has been written from `hit` on, or not at all. */
  function Overlaid(c: seq<byte>, hit: Option<nat>, data: seq<byte>): seq<byte> {
    match hit
    case Some(b) => WriteAt(c, b, data)
    case None => c
  }

  lemma {:induction false} WriteAllStep(disk: Disk, seg: FilePiece, rest: seq<FilePiece>, data: seq<byte>)
    requires seg.path in disk
    ensures WriteAll(disk, [seg] + rest, SameChunks([seg] + rest, data))
            == WriteAll(disk[seg.path := WriteAt(disk[seg.path], seg.begin, data)], rest, SameChunks(rest, data))
  {
    TailChunks([seg] + rest, data);
    assert ([seg] + rest)[1..] == rest && SameChunks([seg] + rest, data)[0] == data;
  }

  lemma {:induction false} StillAllocated(disk: Disk, files: seq<BTFile>, path: string, at: nat, data: seq<byte>)
    requires Allocated(disk, files) && path in disk
    ensures Allocated(disk[path := WriteAt(disk[path], at, data)], files)
  {
    WriteLength(disk[path], at, data);
  }

  /** Segments from file k on, whatever buffer is written to them. */
  lemma {:induction false} SegmentWrites(disk: Disk, files: seq<BTFile>, k: nat, at: nat, remaining: nat,
                                         data: seq<byte>, m: nat)
    requires Allocated(disk, files) && DistinctPaths(files) && m < |files|
    requires k <= |files| && (k < |files| ==> at <= files[k].length) && at + remaining <= Total(files, k)
    ensures var segs := Segments(files, k, at, remaining);
            var disk' := WriteAll(disk, segs, SameChunks(segs, data));
            var hit := if k <= m < k + |segs| then Some(if m == k then at else 0) else None;
            files[m].path in disk' && disk'[files[m].path] == Overlaid(disk[files[m].path], hit, data)
    decreases |files| - k
  {
    if remaining > 0 {
      SegmentsStep(files, k, at, remaining);
      var load := Min(remaining, files[k].length - at);
      var seg, rest := FilePiece(files[k].path, at, load), Segments(files, k + 1, 0, remaining - load);
      WriteAllStep(disk, seg, rest, data);
      StillAllocated(disk, files, seg.path, at, data);
      SegmentWrites(disk[seg.path := WriteAt(disk[seg.path], at, data)], files, k + 1, 0, remaining - load, data, m);
    }
  }

  /** The contents of every file after a block has been written, bytes past its declared length included. */
  lemma {:induction false} FileAfterWrite(disk: Disk, files: seq<BTFile>, index: nat, data: seq<byte>, m: nat)
    requires Allocated(disk, files) && DistinctPaths(files) && m < |files|
    ensures files[m].path in Coded(disk, files, index, data)
    ensures Coded(disk, files, index, data)[files[m].path]
            == Overlaid(disk[files[m].path], Hit(files, index, |data|, m), data)
  {
    if MapFiles(files, index, |data|).Ok? {
      var (k, at) := Locate(files, 0, index);
      SegmentWrites(disk, files, k, at, |data|, data, m);
    }
  }

  // -------------------------------------------------------- flat positions

  /** Byte y of file m, in the files from file k on laid end to end. */
  lemma {:induction false} FlatIndex(disk: Disk, files: seq<BTFile>, k: nat, m: nat, y: nat)
    requires Allocated(disk, files) && k <= m < |files| && y < files[m].length
    ensures 0 <= Offset(files, m) - Offset(files, k) + y < Total(files, k)
    ensures Flat(disk, files, k)[Offset(files, m) - Offset(files, k) + y] == disk[files[m].path][y]
    decreases m - k
  {
    if k < m {
      FlatIndex(disk, files, k + 1, m, y);
    }
  }

  lemma {:induction false} OffsetsGrow(files: seq<BTFile>, k: nat, m: nat)
    requires k <= m <= |files|
    ensures Offset(files, k) <= Offset(files, m)
    decreases m - k
  {
    if k < m {
      OffsetsGrow(files, k + 1, m);
    }
  }

  /** The file and the place of a flat position. */
  lemma {:induction false} Place(files: seq<BTFile>, k: nat, x: nat) returns (m: nat, y: nat)
    requires k <= |files| && x < Total(files, k)
    ensures k <= m < |files| && y < files[m].length && Offset(files, m) + y == Offset(files, k) + x
    decreases |files| - k
  {
    if x < files[k].length {
      m, y := k, x;
    } else {
      m, y := Place(files, k + 1, x - files[k].length);
    }
  }

  // ---------------------------------------------------------- where it lands

  /** Every segment but the last runs to the end of its file, before the block ends; the last one holds the block's
      end. */
  lemma {:induction false} Extent(files: seq<BTFile>, k: nat, at: nat, remaining: nat, m: nat)
    requires k <= |files| && (k < |files| ==> at <= files[k].length) && at + remaining <= Total(files, k)
    requires k <= m < k + |Segments(files, k, at, remaining)|
    ensures m < |files|
    ensures var begin := if m == k then at else 0;
            var start := Offset(files, k) + at;
            && begin <= files[m].length && start <= Offset(files, m) + begin
            && (if m + 1 < k + |Segments(files, k, at, remaining)| then Offset(files, m + 1) < start + remaining
                else Offset(files, m) + begin < start + remaining <= Offset(files, m + 1))
    decreases |files| - k
  {
    var load := Min(remaining, files[k].length - at);
    if m > k {
      Extent(files, k + 1, 0, remaining - load, m);
    } else if load < remaining {
      Extent(files, k + 1, 0, remaining - load, k + 1);
    }
  }

  lemma {:induction false} SegmentsStep(files: seq<BTFile>, k: nat, at: nat, remaining: nat)
    requires k <= |files| && (k < |files| ==> at <= files[k].length) && at + remaining <= Total(files, k)
    requires remaining > 0
    ensures k < |files| && Total(files, k) == files[k].length + Total(files, k + 1)
    ensures Offset(files, k + 1) == Offset(files, k) + files[k].length
    ensures var load := Min(remaining, files[k].length - at);
            Segments(files, k, at, remaining)
            == [FilePiece(files[k].path, at, load)] + Segments(files, k + 1, 0, remaining - load)
  {
  }

  /** A segment in front of others: together they are one non-empty stretch exactly when they start where the last
      does. */
  lemma {:induction false} StretchCons(seg: FilePiece, rest: seq<FilePiece>, start: int, next: int, last: int)
    requires SumLengths(rest) > 0 && next == start + seg.length && next <= last
    requires AtMostOneNonEmpty(rest) <==> last == next
    ensures AtMostOneNonEmpty([seg] + rest) <==> last == start
  {
    RestEmpty(seg, rest);
  }

  /** Where the last segment starts. */
  ghost function LastStart(files: seq<BTFile>, k: nat, at: nat, remaining: nat): int
    requires k <= |files| && (k < |files| ==> at <= files[k].length) && at + remaining <= Total(files, k)
    requires remaining > 0
  {
    SegmentsPartition(files, k, at, remaining);
    var last := k + |Segments(files, k, at, remaining)| - 1;
    Offset(files, last) + if last == k then at else 0
  }

  lemma {:induction false} LastStartStep(files: seq<BTFile>, k: nat, at: nat, remaining: nat)
    requires k <= |files| && (k < |files| ==> at <= files[k].length) && at + remaining <= Total(files, k)
    requires remaining > 0
    ensures k < |files|
    ensures var load := Min(remaining, files[k].length - at);
            if load < remaining then
              && LastStart(files, k, at, remaining) == LastStart(files, k + 1, 0, remaining - load)
              && LastStart(files, k + 1, 0, remaining - load) >= Offset(files, k + 1)
            else LastStart(files, k, at, remaining) == Offset(files, k) + at
  {
    SegmentsStep(files, k, at, remaining);
    var load := Min(remaining, files[k].length - at);
    if load < remaining {
      var rest := Segments(files, k + 1, 0, remaining - load);
      SegmentsStep(files, k + 1, 0, remaining - load);
      SegmentsPartition(files, k + 1, 0, remaining - load);
      OffsetsGrow(files, k + 1, k + |rest|);
    }
  }

  /** A block falls on one non-empty stretch exactly when its last segment starts where the block does. */
  lemma {:induction false} OneStretchStart(files: seq<BTFile>, k: nat, at: nat, remaining: nat)
    requires k <= |files| && (k < |files| ==> at <= files[k].length) && at + remaining <= Total(files, k)
    requires remaining > 0
    ensures AtMostOneNonEmpty(Segments(files, k, at, remaining))
            <==> LastStart(files, k, at, remaining) == Offset(files, k) + at
    decreases |files| - k
  {
    SegmentsStep(files, k, at, remaining);
    LastStartStep(files, k, at, remaining);
    var load := Min(remaining, files[k].length - at);
    var seg, rest := FilePiece(files[k].path, at, load), Segments(files, k + 1, 0, remaining - load);
    if load < remaining {
      OneStretchStart(files, k + 1, 0, remaining - load);
      SegmentsPartition(files, k + 1, 0, remaining - load);
      StretchCons(seg, rest, Offset(files, k) + at, Offset(files, k + 1), LastStart(files, k + 1, 0, remaining - load));
    } else {
      assert rest == [] && AtMostOneNonEmpty([seg]);
    }
  }

  lemma {:induction false} RestEmpty(seg: FilePiece, rest: seq<FilePiece>)
    requires SumLengths(rest) > 0
    ensures AtMostOneNonEmpty([seg] + rest) <==> seg.length == 0 && AtMostOneNonEmpty(rest)
  {
    if AtMostOneNonEmpty([seg] + rest) {
      EmptyBeforeRest(seg, rest);
    }
    if seg.length == 0 && AtMostOneNonEmpty(rest) {
      EmptyInFront(seg, rest);
    }
  }

  lemma {:induction false} EmptyBeforeRest(seg: FilePiece, rest: seq<FilePiece>)
    requires SumLengths(rest) > 0 && AtMostOneNonEmpty([seg] + rest)
    ensures seg.length == 0 && AtMostOneNonEmpty(rest)
  {
    var all := [seg] + rest;
    var n := SomeNonEmpty(rest);
    assert all[0] == seg && all[n + 1] == rest[n];
    forall i, j | 0 <= i < j < |rest| ensures rest[i].length == 0 || rest[j].length == 0 {
      assert all[i + 1] == rest[i] && all[j + 1] == rest[j];
    }
  }

  lemma {:induction false} EmptyInFront(seg: FilePiece, rest: seq<FilePiece>)
    requires seg.length == 0 && AtMostOneNonEmpty(rest)
    ensures AtMostOneNonEmpty([seg] + rest)
  {
    var all := [seg] + rest;
    forall i, j | 0 <= i < j < |all| ensures all[i].length == 0 || all[j].length == 0 {
      assert i > 0 ==> all[i] == rest[i - 1] && all[j] == rest[j - 1];
    }
  }

  lemma {:induction false} SomeNonEmpty(segs: seq<FilePiece>) returns (i: nat)
    requires SumLengths(segs) > 0
    ensures i < |segs| && segs[i].length > 0
    decreases |segs|
  {
    if segs[0].length > 0 {
      i := 0;
    } else {
      i := SomeNonEmpty(segs[1..]);
      i := i + 1;
    }
  }

  // ------------------------------------------------------ the other blocks

  /** Nothing outside the block changes, as far as the declared lengths go. */
  ghost predicate Undisturbed(disk: Disk, disk': Disk, files: seq<BTFile>, index: nat, length: nat)
    requires Allocated(disk, files) && Allocated(disk', files)
  {
    forall x :: 0 <= x < Total(files, 0) && !(index <= x < index + length) ==>
      Flat(disk', files, 0)[x] == Flat(disk, files, 0)[x]
  }

  /** A file ends at flat position x (or the first one starts there). */
  ghost predicate FileEndsAt(files: seq<BTFile>, x: nat) {
    exists k :: 0 <= k <= |files| && Offset(files, k) == x
  }

  /** The block falls on one non-empty stretch of file, or ends where a file does. */
  ghost predicate Harmless(files: seq<BTFile>, index: nat, length: nat) {
    var m := MapFiles(files, index, length);
    m.Ok? && (AtMostOneNonEmpty(m.value) || FileEndsAt(files, index + length))
  }

  /** A byte outside the block, in a file the block falls on, is not reached by the buffer. */
  lemma {:induction false} NotReached(files: seq<BTFile>, index: nat, length: nat, m: nat, y: nat)
    requires files != [] && index + length <= Total(files, 0) && length > 0 && Harmless(files, index, length)
    requires m < |files| && y < files[m].length && Hit(files, index, length, m).Some?
    requires !(index <= Offset(files, m) + y < index + length)
    ensures var b := Hit(files, index, length, m).value; b <= files[m].length && (y < b || b + length <= y)
  {
    var (k, at) := Locate(files, 0, index);
    LocateOffset(files, 0, index);
    Extent(files, k, at, length, m);
    OneStretchStart(files, k, at, length);
    if FileEndsAt(files, index + length) {
      var e :| 0 <= e <= |files| && Offset(files, e) == index + length;
      if e <= m {
        OffsetsGrow(files, e, m);
      } else {
        OffsetsGrow(files, m + 1, e);
      }
    }
  }

  lemma {:induction false} OverlaidAt(c: seq<byte>, b: nat, data: seq<byte>, y: nat)
    requires b <= |c| && y < |c|
    ensures |WriteAt(c, b, data)| >= |c|
    ensures WriteAt(c, b, data)[y] == if b <= y < b + |data| then data[y - b] else c[y]
  {
  }

  lemma {:induction false} ByteKept(disk: Disk, files: seq<BTFile>, index: nat, data: seq<byte>, m: nat, y: nat)
    requires Allocated(disk, files) && DistinctPaths(files) && files != [] && index + |data| <= Total(files, 0)
    requires Harmless(files, index, |data|) && m < |files| && y < files[m].length
    requires !(index <= Offset(files, m) + y < index + |data|)
    ensures files[m].path in Coded(disk, files, index, data)
    ensures var c' := Coded(disk, files, index, data)[files[m].path]; y < |c'| && c'[y] == disk[files[m].path][y]
  {
    FileAfterWrite(disk, files, index, data, m);
    if Hit(files, index, |data|, m).Some? && data != [] {
      NotReached(files, index, |data|, m, y);
      OverlaidAt(disk[files[m].path], Hit(files, index, |data|, m).value, data, y);
    }
  }

  lemma {:induction false} HarmlessKeeps(disk: Disk, files: seq<BTFile>, index: nat, data: seq<byte>)
    requires Allocated(disk, files) && DistinctPaths(files) && files != [] && index + |data| <= Total(files, 0)
    requires Harmless(files, index, |data|)
    ensures Allocated(Coded(disk, files, index, data), files)
    ensures Undisturbed(disk, Coded(disk, files, index, data), files, index, |data|)
  {
    WriteGrows(disk, files, index, data);
    var disk' := Coded(disk, files, index, data);
    forall x | 0 <= x < Total(files, 0) && !(index <= x < index + |data|)
      ensures Flat(disk', files, 0)[x] == Flat(disk, files, 0)[x]
    {
      var m, y := Place(files, 0, x);
      FlatIndex(disk, files, 0, m, y);
      FlatIndex(disk', files, 0, m, y);
      ByteKept(disk, files, index, data, m, y);
    }
  }

  /** Otherwise the byte behind the block is overwritten, by a byte of the block. */
  lemma {:induction false} HarmfulReaches(files: seq<BTFile>, index: nat, length: nat) returns (m: nat, y: nat)
    requires files != [] && index + length <= Total(files, 0) && !Harmless(files, index, length)
    ensures m < |files| && y < files[m].length && Offset(files, m) + y == index + length
    ensures Hit(files, index, length, m).Some?
    ensures var b := Hit(files, index, length, m).value; b <= y < b + length
  {
    var (k, at) := Locate(files, 0, index);
    LocateOffset(files, 0, index);
    var segs := Segments(files, k, at, length);
    m := k + |segs| - 1;
    OneStretchStart(files, k, at, length);
    Extent(files, k, at, length, m);
    y := index + length - Offset(files, m);
    assert !FileEndsAt(files, index + length);
    assert Offset(files, m + 1) != index + length;
  }

  /** A buffer that differs from b everywhere. */
  function Unlike(b: byte, n: nat): (r: seq<byte>)
    ensures |r| == n && forall i :: 0 <= i < n ==> r[i] != b
  {
    seq(n, i => if b == 0 then 1 else 0)
  }

  lemma {:induction false} HarmfulChanges(disk: Disk, files: seq<BTFile>, index: nat,
                                          length: nat) returns (data: seq<byte>)
    requires Allocated(disk, files) && DistinctPaths(files) && files != [] && index + length <= Total(files, 0)
    requires !Harmless(files, index, length)
    ensures |data| == length && index + length < Total(files, 0) && Allocated(Coded(disk, files, index, data), files)
    ensures Flat(Coded(disk, files, index, data), files, 0)[index + length] != Flat(disk, files, 0)[index + length]
  {
    var m, y := HarmfulReaches(files, index, length);
    data := Unlike(disk[files[m].path][y], length);
    WriteGrows(disk, files, index, data);
    FlatIndex(disk, files, 0, m, y);
    FlatIndex(Coded(disk, files, index, data), files, 0, m, y);
    FileAfterWrite(disk, files, index, data, m);
    OverlaidAt(disk[files[m].path], Hit(files, index, length, m).value, data, y);
  }

  /** Writing a block leaves every declared byte outside it alone, whatever the buffer, exactly when the block falls on
      one non-empty stretch of file or ends where a file does. */
  lemma {:induction false} NeighboursKeptExactly(disk: Disk, files: seq<BTFile>, index: nat, length: nat)
    requires Allocated(disk, files) && DistinctPaths(files) && files != [] && index + length <= Total(files, 0)
    ensures Harmless(files, index, length)
            <==> forall data: seq<byte> :: |data| == length ==>
                   var disk' := Coded(disk, files, index, data);
                   Allocated(disk', files) && Undisturbed(disk, disk', files, index, length)
  {
    if Harmless(files, index, length) {
      forall data: seq<byte> | |data| == length
        ensures Allocated(Coded(disk, files, index, data), files)
        ensures Undisturbed(disk, Coded(disk, files, index, data), files, index, length)
      {
        HarmlessKeeps(disk, files, index, data);
      }
    } else {
      var data := HarmfulChanges(disk, files, index, length);
      assert !Undisturbed(disk, Coded(disk, files, index, data), files, index, length);
    }
  }

  /** As coded, the block's range is all that changes of the declared bytes, and holds the buffer afterwards, whatever
      the buffer, exactly when the block falls on one non-empty stretch of file. */
  lemma {:induction false} CodedWriteExactly(disk: Disk, files: seq<BTFile>, index: nat, length: nat)
    requires Allocated(disk, files) && DistinctPaths(files) && files != [] && index + length <= Total(files, 0)
    ensures MapFiles(files, index, length).Ok?
    ensures AtMostOneNonEmpty(MapFiles(files, index, length).value)
            <==> forall data: seq<byte> :: |data| == length ==>
                   var disk' := Coded(disk, files, index, data);
                   Allocated(disk', files) && Flat(disk', files, 0) == Spliced(Flat(disk, files, 0), index, data)
  {
    if AtMostOneNonEmpty(MapFiles(files, index, length).value) {
      forall data: seq<byte> | |data| == length
        ensures Allocated(Coded(disk, files, index, data), files)
        ensures Flat(Coded(disk, files, index, data), files, 0) == Spliced(Flat(disk, files, 0), index, data)
      {
        CodedWrite(disk, files, index, data);
      }
    } else {
      CodedReadBack(files, index, length, disk);
      var data :| |data| == length && ReadRaw(Coded(disk, files, index, data), files, index, length) != Ok(data);
      WriteGrows(disk, files, index, data);
      SplicedReadsBack(disk, Coded(disk, files, index, data), files, index, data);
    }
  }

  lemma {:induction false} SplicedReadsBack(disk: Disk, disk': Disk, files: seq<BTFile>, index: nat, data: seq<byte>)
    requires Allocated(disk, files) && Allocated(disk', files) && files != [] && index + |data| <= Total(files, 0)
    requires ReadRaw(disk', files, index, |data|) != Ok(data)
    ensures Flat(disk', files, 0) != Spliced(Flat(disk, files, 0), index, data)
  {
    ReadBlockIsSlice(disk', files, index, |data|);
    assert Spliced(Flat(disk, files, 0), index, data)[index..index + |data|] == data;
  }

  // ------------------------------------------------------- reading the others

  /** The ranges do not overlap. */
  predicate Apart(index: nat, length: nat, other: nat, n: nat) {
    other + n <= index || index + length <= other
  }

  lemma {:induction false} ApartReads(disk: Disk, disk': Disk, files: seq<BTFile>, index: nat, length: nat,
                                      other: nat, n: nat)
    requires Allocated(disk, files) && Allocated(disk', files) && files != [] && other + n <= Total(files, 0)
    requires Undisturbed(disk, disk', files, index, length) && Apart(index, length, other, n)
    ensures ReadRaw(disk', files, other, n) == ReadRaw(disk, files, other, n)
  {
    ReadBlockIsSlice(disk, files, other, n);
    ReadBlockIsSlice(disk', files, other, n);
    assert Flat(disk', files, 0)[other..other + n] == Flat(disk, files, 0)[other..other + n];
  }

  /** Every block apart from the one written. */
  ghost predicate OthersRead(disk: Disk, disk': Disk, files: seq<BTFile>, index: nat, length: nat) {
    forall other: nat, n: nat :: other + n <= Total(files, 0) && Apart(index, length, other, n) ==>
      ReadRaw(disk', files, other, n) == ReadRaw(disk, files, other, n)
  }

  /** Writing a block, whatever the buffer, leaves what every block apart from it reads unchanged, exactly when it is
      harmless. */
  lemma {:induction false} OthersReadExactly(disk: Disk, files: seq<BTFile>, index: nat, length: nat)
    requires Allocated(disk, files) && DistinctPaths(files) && files != [] && index + length <= Total(files, 0)
    ensures Harmless(files, index, length)
            <==> forall data: seq<byte> :: |data| == length ==>
                   OthersRead(disk, Coded(disk, files, index, data), files, index, length)
  {
    if Harmless(files, index, length) {
      forall data: seq<byte> | |data| == length
        ensures OthersRead(disk, Coded(disk, files, index, data), files, index, length)
      {
        var disk' := Coded(disk, files, index, data);
        HarmlessKeeps(disk, files, index, data);
        forall other: nat, n: nat | other + n <= Total(files, 0) && Apart(index, length, other, n)
          ensures ReadRaw(disk', files, other, n) == ReadRaw(disk, files, other, n)
        {
          ApartReads(disk, disk', files, index, length, other, n);
        }
      }
    } else {
      var data := HarmfulChanges(disk, files, index, length);
      var disk', x := Coded(disk, files, index, data), index + length;
      ReadBlockIsSlice(disk, files, x, 1);
      ReadBlockIsSlice(disk', files, x, 1);
      assert Flat(disk, files, 0)[x..x + 1][0] != Flat(disk', files, 0)[x..x + 1][0];
      assert Apart(index, length, x, 1);
      assert !OthersRead(disk, disk', files, index, length);
    }
  }

  /** A writer that cuts the buffer at the segment ends would never disturb another block. */
  lemma {:induction false} SlicedOthersRead(disk: Disk, files: seq<BTFile>, index: nat, data: seq<byte>)
    requires Allocated(disk, files) && DistinctPaths(files) && files != [] && index + |data| <= Total(files, 0)
    ensures MapFiles(files, index, |data|).Ok? && SumLengths(MapFiles(files, index, |data|).value) == |data|
    ensures var segs := MapFiles(files, index, |data|).value;
            OthersRead(disk, WriteAll(disk, segs, SlicedChunks(segs, data)), files, index, |data|)
  {
    SlicedWrite(disk, files, index, data);
    var segs := MapFiles(files, index, |data|).value;
    var disk' := WriteAll(disk, segs, SlicedChunks(segs, data));
    forall other: nat, n: nat | other + n <= Total(files, 0) && Apart(index, |data|, other, n)
      ensures ReadRaw(disk', files, other, n) == ReadRaw(disk, files, other, n)
    {
      DisjointRead(disk, disk', files, index, data, other, n);
    }
  }

  /** Two bytes at the start of a file of one byte and a longer one. */
  lemma {:induction false} OverTheEnd(files: seq<BTFile>)
    requires |files| == 2 && files[0].length == 1 && files[1].length > 1
    ensures MapFiles(files, 0, 2) == Ok([FilePiece(files[0].path, 0, 1), FilePiece(files[1].path, 0, 1)])
    ensures !Harmless(files, 0, 2)
  {
    assert Total(files, 2) == 0 && Total(files, 1) == files[1].length && Total(files, 0) == 1 + files[1].length;
    assert Locate(files, 0, 0) == (0, 0);
    var segs := [FilePiece(files[0].path, 0, 1), FilePiece(files[1].path, 0, 1)];
    SegmentsStep(files, 0, 0, 2);
    SegmentsStep(files, 1, 0, 1);
    assert Segments(files, 0, 0, 2) == segs;
    assert segs[0].length > 0 && segs[1].length > 0;
    assert Offset(files, 0) == 0 && Offset(files, 1) == 1 && Offset(files, 2) == 1 + files[1].length;
  }

  /** Two bytes written over the end of a file of one byte and the beginning of one of three: the byte behind them,
      which belongs to another block, is overwritten too. */
  lemma {:induction false} NeighbourOverwritten(disk: Disk) returns (files: seq<BTFile>)
    requires disk == map["a" := [1], "b" := [2, 3, 4]]
    ensures files == [BTFile("a", 1), BTFile("b", 3)] && Allocated(disk, files) && !Harmless(files, 0, 2)
    ensures Coded(disk, files, 0, [7, 8]) == map["a" := [7, 8], "b" := [7, 8, 4]]
  {
    files := [BTFile("a", 1), BTFile("b", 3)];
    OverTheEnd(files);
    assert WriteAt([1], 0, [7, 8]) == [7, 8] && WriteAt([2, 3, 4], 0, [7, 8]) == [7, 8, 4];
    WriteTwo(disk, [FilePiece("a", 0, 1), FilePiece("b", 0, 1)], [7, 8]);
  }
}
