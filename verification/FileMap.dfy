/** A torrent's files laid end to end (src/bittorrent/torrent.rs, `map_files` and the raw block
    reader and writer): which stretches of which files a byte range of the whole falls on. */
module FileMap {
  import opened Outcomes

  datatype BTFile = BTFile(path: string, length: nat)
  datatype FilePiece = FilePiece(path: string, begin: nat, length: nat)

  /** Contents of the files on disk, by path. */
  type Disk = map<string, seq<byte>>

  /** Byte length of files k, k+1, ... together. */
  function Total(files: seq<BTFile>, k: nat): nat
    requires k <= |files|
    decreases |files| - k
  {
    if k == |files| then 0 else files[k].length + Total(files, k + 1)
  }

  /** The stretches covering `remaining` bytes from offset `at` of file k on. */
  function Segments(files: seq<BTFile>, k: nat, at: nat, remaining: nat): seq<FilePiece>
    requires k <= |files| && (k < |files| ==> at <= files[k].length) && at + remaining <= Total(files, k)
    decreases |files| - k
  {
    if remaining == 0 then []
    else
      var load := Min(remaining, files[k].length - at);
      assert Total(files, k) == files[k].length + Total(files, k + 1);
      [FilePiece(files[k].path, at, load)] + Segments(files, k + 1, 0, remaining - load)
  }

  /** Skipping whole files: the file where flat offset `index` (counted from file k) is looked up,
      and the offset inside it. An offset on a file boundary stays with the earlier file. */
  function Locate(files: seq<BTFile>, k: nat, index: nat): (r: (nat, nat))
    requires k < |files| && index <= Total(files, k)
    ensures k <= r.0 < |files| && r.1 <= files[r.0].length
    ensures Total(files, k) - index == Total(files, r.0) - r.1
    decreases |files| - k
  {
    assert Total(files, k) == files[k].length + Total(files, k + 1);
    if files[k].length < index then Locate(files, k + 1, index - files[k].length) else (k, index)
  }

  /** The stretches of a block, or a panic when the files end before it does. */
  function MapFiles(files: seq<BTFile>, index: nat, length: nat): Outcome<seq<FilePiece>> {
    if files == [] || Total(files, 0) < index + length then Panic
    else
      var (k, at) := Locate(files, 0, index);
      Ok(Segments(files, k, at, length))
  }

  /** `read_block_raw`: map the range, then read its segments. */
  function ReadRaw(disk: Disk, files: seq<BTFile>, index: nat, length: nat): Outcome<seq<byte>> {
    match MapFiles(files, index, length)
    case Ok(segs) => ReadSegments(disk, segs)
    case _ => Panic
  }

  /** `Segments`, or a panic when the files end too early. */
  function Apportioned(files: seq<BTFile>, k: nat, at: nat, remaining: nat): Outcome<seq<FilePiece>>
    requires k < |files| && at <= files[k].length
  {
    if Total(files, k) < at + remaining then Panic else Ok(Segments(files, k, at, remaining))
  }

  /** Segments already listed, followed by the outcome for the rest. */
  function After(vec: seq<FilePiece>, rest: Outcome<seq<FilePiece>>): Outcome<seq<FilePiece>> {
    match rest
    case Ok(segs) => Ok(vec + segs)
    case _ => rest
  }

  /** One round of the apportioning loop: file k takes its share, the rest starts at the next file. */
  lemma {:induction false} ApportionStep(files: seq<BTFile>, k: nat, at: nat, remaining: nat, vec: seq<FilePiece>)
    requires k < |files| && at <= files[k].length
    ensures remaining == 0 ==> After(vec, Apportioned(files, k, at, remaining)) == Ok(vec)
    ensures var load := Min(remaining, files[k].length - at);
            var vec' := vec + [FilePiece(files[k].path, at, load)];
            remaining > 0 ==>
              After(vec, Apportioned(files, k, at, remaining))
              == if load == remaining then Ok(vec')
                 else if k + 1 == |files| then Panic
                 else After(vec', Apportioned(files, k + 1, 0, remaining - load))
  {
    assert Total(files, k) == files[k].length + Total(files, k + 1);
    var load := Min(remaining, files[k].length - at);
    var seg := FilePiece(files[k].path, at, load);
    if remaining == 0 {
      assert vec + [] == vec;
    } else if load == remaining {
      assert Apportioned(files, k, at, remaining) == Ok([seg] + Segments(files, k + 1, 0, 0));
      assert [seg] + [] == [seg];
    } else if k + 1 < |files| && remaining - load <= Total(files, k + 1) {
      var tail := Segments(files, k + 1, 0, remaining - load);
      assert vec + ([seg] + tail) == vec + [seg] + tail;
    }
  }

  // --------------------------------------------------------- exact partition

  function SumLengths(segs: seq<FilePiece>): nat {
    if segs == [] then 0 else segs[0].length + SumLengths(segs[1..])
  }

  /** Byte length of the files before file k. */
  function Offset(files: seq<BTFile>, k: nat): int
    requires k <= |files|
  {
    Total(files, 0) - Total(files, k)
  }

  lemma {:induction false} LocateOffset(files: seq<BTFile>, k: nat, index: nat)
    requires k < |files| && index <= Total(files, k)
    ensures var r := Locate(files, k, index); Offset(files, r.0) + r.1 == Offset(files, k) + index
    ensures Locate(files, k, index).1 == 0 ==> Locate(files, k, index).0 == k
    decreases |files| - k
  {
    if files[k].length < index {
      LocateOffset(files, k + 1, index - files[k].length);
    }
  }

  /** Segment i lies inside file k+i, and segments join up without gap or overlap. */
  ghost predicate Consecutive(files: seq<BTFile>, k: nat, start: int, segs: seq<FilePiece>) {
    && k + |segs| <= |files|
    && forall i :: 0 <= i < |segs| ==>
         && segs[i].path == files[k + i].path
         && segs[i].begin + segs[i].length <= files[k + i].length
         && Offset(files, k + i) + segs[i].begin == start + SumLengths(segs[..i])
  }

  lemma {:induction false} ConsecutiveCons(files: seq<BTFile>, k: nat, start: int, seg: FilePiece, tail: seq<FilePiece>)
    requires k < |files| && seg.path == files[k].path && seg.begin + seg.length <= files[k].length
    requires Offset(files, k) + seg.begin == start && Consecutive(files, k + 1, start + seg.length, tail)
    ensures Consecutive(files, k, start, [seg] + tail) && SumLengths([seg] + tail) == seg.length + SumLengths(tail)
  {
    var segs := [seg] + tail;
    assert segs[1..] == tail;
    forall i | 1 <= i < |segs|
      ensures segs[i] == tail[i - 1] && SumLengths(segs[..i]) == seg.length + SumLengths(tail[..i - 1])
    {
      assert segs[..i][1..] == tail[..i - 1];
    }
  }

  lemma {:induction false} SegmentsPartition(files: seq<BTFile>, k: nat, at: nat, remaining: nat)
    requires k <= |files| && (k < |files| ==> at <= files[k].length) && at + remaining <= Total(files, k)
    ensures var segs := Segments(files, k, at, remaining);
            SumLengths(segs) == remaining && Consecutive(files, k, Offset(files, k) + at, segs)
    decreases |files| - k
  {
    if remaining > 0 {
      var load := Min(remaining, files[k].length - at);
      var seg := FilePiece(files[k].path, at, load);
      SegmentsPartition(files, k + 1, 0, remaining - load);
      ConsecutiveCons(files, k, Offset(files, k) + at, seg, Segments(files, k + 1, 0, remaining - load));
    }
  }

  /** `map_files` fails exactly when the block does not fit the files; otherwise its segments lie in
      consecutive files, have the block's length in all, and join up from the block's flat offset. */
  lemma {:induction false} MapFilesPartition(files: seq<BTFile>, index: nat, length: nat)
    ensures MapFiles(files, index, length).Panic? <==> files == [] || Total(files, 0) < index + length
    ensures MapFiles(files, index, length).Ok? ==>
              var segs := MapFiles(files, index, length).value;
              SumLengths(segs) == length && exists k :: 0 <= k < |files| && Consecutive(files, k, index, segs)
  {
    if MapFiles(files, index, length).Ok? {
      LocateOffset(files, 0, index);
      var (k, at) := Locate(files, 0, index);
      SegmentsPartition(files, k, at, length);
    }
  }

  // ----------------------------------------------------------- disk contents

  /** Contents of a file; a missing one is created empty when it is opened for writing. */
  function Contents(disk: Disk, path: string): seq<byte> {
    if path in disk then disk[path] else []
  }

  /** A file after writing `data` at offset `pos`; a gap past the end reads as zeros. */
  function WriteAt(c: seq<byte>, pos: nat, data: seq<byte>): seq<byte> {
    if data == [] then c
    else
      var padded := if pos <= |c| then c[..pos] else c + seq(pos - |c|, i => 0);
      padded + data + (if pos + |data| <= |c| then c[pos + |data|..] else [])
  }

  /** Writing chunk i at segment i, in order. */
  function WriteAll(disk: Disk, segs: seq<FilePiece>, chunks: seq<seq<byte>>): Disk
    requires |segs| == |chunks|
    decreases |segs|
  {
    if segs == [] then disk
    else
      WriteAll(disk[segs[0].path := WriteAt(Contents(disk, segs[0].path), segs[0].begin, chunks[0])],
               segs[1..], chunks[1..])
  }

  /** The chunks `write_block_raw` writes: the whole buffer, for every segment. */
  function SameChunks(segs: seq<FilePiece>, data: seq<byte>): (r: seq<seq<byte>>)
    ensures |r| == |segs|
  {
    seq(|segs|, i => data)
  }

  /** The chunks a writer would write that cuts the buffer at the segment ends (not in the source). */
  function SlicedChunks(segs: seq<FilePiece>, data: seq<byte>): (r: seq<seq<byte>>)
    requires |data| == SumLengths(segs)
    ensures |r| == |segs|
  {
    if segs == [] then [] else [data[..segs[0].length]] + SlicedChunks(segs[1..], data[segs[0].length..])
  }

  /** Reading the segments back, in order; a missing or short file is an I/O error. */
  function ReadSegments(disk: Disk, segs: seq<FilePiece>): (r: Outcome<seq<byte>>)
    ensures r != Panic
  {
    if segs == [] then Ok([])
    else if segs[0].path !in disk then Err
    else
      var c := disk[segs[0].path];
      if segs[0].length > 0 && |c| < segs[0].begin + segs[0].length then Err
      else
        Prepend(if segs[0].length == 0 then [] else c[segs[0].begin..segs[0].begin + segs[0].length],
                ReadSegments(disk, segs[1..]))
  }

  function Prepend(head: seq<byte>, r: Outcome<seq<byte>>): Outcome<seq<byte>> {
    match r
    case Ok(tail) => Ok(head + tail)
    case _ => r
  }

  lemma {:induction false} PrependTwice(a: seq<byte>, b: seq<byte>, r: Outcome<seq<byte>>)
    ensures Prepend(a, Prepend(b, r)) == Prepend(a + b, r)
    ensures Prepend([], r) == r
    ensures Prepend(a, Ok([])) == Ok(a)
  {
    assert a + [] == a;
    if r.Ok? {
      assert a + (b + r.value) == a + b + r.value;
      assert [] + r.value == r.value;
    }
  }

  /** Every file exists and is at least as long as declared (what `create_files` sets up). */
  ghost predicate Allocated(disk: Disk, files: seq<BTFile>) {
    forall i :: 0 <= i < |files| ==> files[i].path in disk && files[i].length <= |disk[files[i].path]|
  }

  ghost predicate DistinctPaths(files: seq<BTFile>) {
    forall i, j :: 0 <= i < j < |files| ==> files[i].path != files[j].path
  }

  /** The declared bytes of files k, k+1, ... laid end to end. */
  ghost function Flat(disk: Disk, files: seq<BTFile>, k: nat): (r: seq<byte>)
    requires Allocated(disk, files) && k <= |files|
    ensures |r| == Total(files, k)
    decreases |files| - k
  {
    if k == |files| then [] else disk[files[k].path][..files[k].length] + Flat(disk, files, k + 1)
  }

  /** Reading through the segments of a range is slicing the files laid end to end. */
  lemma {:induction false} ReadIsSlice(disk: Disk, files: seq<BTFile>, k: nat, at: nat, remaining: nat)
    requires Allocated(disk, files)
    requires k < |files| && at <= files[k].length && at + remaining <= Total(files, k)
    ensures ReadSegments(disk, Segments(files, k, at, remaining)) == Ok(Flat(disk, files, k)[at..at + remaining])
    decreases |files| - k
  {
    var c, rest := disk[files[k].path][..files[k].length], Flat(disk, files, k + 1);
    if remaining == 0 {
      assert (c + rest)[at..at] == [];
    } else {
      var load := Min(remaining, files[k].length - at);
      var seg := FilePiece(files[k].path, at, load);
      if load < remaining {
        ReadIsSlice(disk, files, k + 1, 0, remaining - load);
        ReadCons(disk, files[k].length, seg, Segments(files, k + 1, 0, remaining - load),
                 rest[0..0 + (remaining - load)]);
        TakeAcross(c, rest, at, remaining);
      } else {
        ReadCons(disk, files[k].length, seg, [], []);
        TakeHead(c, rest, at, remaining);
      }
    }
  }

  lemma {:induction false} ReadCons(disk: Disk, n: nat, seg: FilePiece, tail: seq<FilePiece>, r: seq<byte>)
    requires seg.path in disk && seg.begin + seg.length <= n <= |disk[seg.path]|
    requires ReadSegments(disk, tail) == Ok(r)
    ensures ReadSegments(disk, [seg] + tail) == Ok(disk[seg.path][..n][seg.begin..seg.begin + seg.length] + r)
  {
    var c := disk[seg.path];
    assert ([seg] + tail)[1..] == tail;
    assert c[..n][seg.begin..seg.begin + seg.length] == c[seg.begin..seg.begin + seg.length];
  }

  lemma {:induction false} TakeAcross(head: seq<byte>, rest: seq<byte>, at: nat, n: nat)
    requires at <= |head| <= at + n <= |head| + |rest|
    ensures (head + rest)[at..at + n] == head[at..] + rest[0..0 + (n - (|head| - at))]
  {
  }

  lemma {:induction false} TakeHead(head: seq<byte>, rest: seq<byte>, at: nat, n: nat)
    requires at + n <= |head|
    ensures (head + rest)[at..at + n] == head[at..at + n] + []
  {
  }

  lemma {:induction false} DropHead(head: seq<byte>, rest: seq<byte>, index: nat, length: nat)
    requires |head| <= index && index + length <= |head| + |rest|
    ensures (head + rest)[index..index + length] == rest[index - |head|..index - |head| + length]
  {
  }

  lemma {:induction false} LocateFlat(disk: Disk, files: seq<BTFile>, k: nat, index: nat, length: nat)
    requires Allocated(disk, files) && k < |files| && index + length <= Total(files, k)
    ensures var (m, at) := Locate(files, k, index);
            Ok(Flat(disk, files, k)[index..index + length]) == Ok(Flat(disk, files, m)[at..at + length])
    decreases |files| - k
  {
    if files[k].length < index {
      LocateFlat(disk, files, k + 1, index - files[k].length, length);
      var head, rest := disk[files[k].path][..files[k].length], Flat(disk, files, k + 1);
      DropHead(head, rest, index, length);
    }
  }

  /** `read_block_raw` returns exactly the bytes of the block's range of the files laid end to end. */
  lemma {:induction false} ReadBlockIsSlice(disk: Disk, files: seq<BTFile>, index: nat, length: nat)
    requires Allocated(disk, files) && files != [] && index + length <= Total(files, 0)
    ensures MapFiles(files, index, length).Ok?
    ensures ReadSegments(disk, MapFiles(files, index, length).value) == Ok(Flat(disk, files, 0)[index..index + length])
  {
    var (k, at) := Locate(files, 0, index);
    ReadIsSlice(disk, files, k, at, length);
    LocateFlat(disk, files, 0, index, length);
  }

  // ------------------------------------------------------------ reading back

  /** The leading bytes of each chunk, as many as its segment holds. */
  ghost function Heads(segs: seq<FilePiece>, chunks: seq<seq<byte>>): (r: seq<byte>)
    requires |segs| == |chunks| && forall i :: 0 <= i < |segs| ==> segs[i].length <= |chunks[i]|
    ensures |r| == SumLengths(segs)
  {
    if segs == [] then [] else chunks[0][..segs[0].length] + Heads(segs[1..], chunks[1..])
  }

  ghost predicate DistinctSegments(segs: seq<FilePiece>) {
    forall i, j :: 0 <= i < j < |segs| ==> segs[i].path != segs[j].path
  }

  lemma {:induction false} OtherFilesKept(disk: Disk, segs: seq<FilePiece>, chunks: seq<seq<byte>>, path: string)
    requires |segs| == |chunks| && (forall i :: 0 <= i < |segs| ==> segs[i].path != path)
    requires path in disk
    ensures path in WriteAll(disk, segs, chunks) && WriteAll(disk, segs, chunks)[path] == disk[path]
    decreases |segs|
  {
    if segs != [] {
      var disk' := disk[segs[0].path := WriteAt(Contents(disk, segs[0].path), segs[0].begin, chunks[0])];
      OtherFilesKept(disk', segs[1..], chunks[1..], path);
    }
  }

  /** Whatever was on disk, reading back gives the leading bytes of the chunks written. */
  lemma {:induction false} ReadBackHeads(disk: Disk, segs: seq<FilePiece>, chunks: seq<seq<byte>>)
    requires |segs| == |chunks| && (forall i :: 0 <= i < |segs| ==> segs[i].length <= |chunks[i]|)
    requires DistinctSegments(segs)
    ensures ReadSegments(WriteAll(disk, segs, chunks), segs) == Ok(Heads(segs, chunks))
    decreases |segs|
  {
    if segs != [] {
      var c := WriteAt(Contents(disk, segs[0].path), segs[0].begin, chunks[0]);
      var disk' := disk[segs[0].path := c];
      OtherFilesKept(disk', segs[1..], chunks[1..], segs[0].path);
      ReadBackHeads(disk', segs[1..], chunks[1..]);
      assert segs[0].length > 0 ==> c[segs[0].begin..segs[0].begin + segs[0].length] == chunks[0][..segs[0].length];
    }
  }

  lemma {:induction false} SlicedHeads(segs: seq<FilePiece>, data: seq<byte>)
    requires |data| == SumLengths(segs)
    ensures forall i :: 0 <= i < |segs| ==> |SlicedChunks(segs, data)[i]| == segs[i].length
    ensures Heads(segs, SlicedChunks(segs, data)) == data
    decreases |segs|
  {
    if segs != [] {
      var n := segs[0].length;
      var tail := SlicedChunks(segs[1..], data[n..]);
      SlicedHeads(segs[1..], data[n..]);
      HeadsCons(segs, data[..n], tail);
      assert data[..n] + data[n..] == data;
    }
  }

  lemma {:induction false} HeadsCons(segs: seq<FilePiece>, chunk: seq<byte>, tail: seq<seq<byte>>)
    requires segs != [] && |tail| == |segs| - 1 && |chunk| == segs[0].length
    requires forall i :: 0 <= i < |tail| ==> segs[1..][i].length <= |tail[i]|
    ensures forall i :: 0 <= i < |segs| ==> segs[i].length <= |([chunk] + tail)[i]|
    ensures Heads(segs, [chunk] + tail) == chunk + Heads(segs[1..], tail)
  {
    assert forall i :: 1 <= i < |segs| ==> segs[i] == segs[1..][i - 1];
    assert ([chunk] + tail)[1..] == tail && chunk[..segs[0].length] == chunk;
  }

  ghost predicate AtMostOneNonEmpty(segs: seq<FilePiece>) {
    forall i, j :: 0 <= i < j < |segs| ==> segs[i].length == 0 || segs[j].length == 0
  }

  ghost predicate Roomy(segs: seq<FilePiece>, data: seq<byte>) {
    forall i :: 0 <= i < |segs| ==> segs[i].length <= |data|
  }

  lemma {:induction false} PartsFit(segs: seq<FilePiece>, i: nat)
    requires i < |segs|
    ensures segs[i].length <= SumLengths(segs)
    decreases |segs|
  {
    if i > 0 {
      PartsFit(segs[1..], i - 1);
    }
  }

  lemma {:induction false} EmptySum(segs: seq<FilePiece>)
    requires forall i :: 0 <= i < |segs| ==> segs[i].length == 0
    ensures SumLengths(segs) == 0
    decreases |segs|
  {
    if segs != [] {
      EmptySum(segs[1..]);
    }
  }

  lemma {:induction false} TailChunks(segs: seq<FilePiece>, data: seq<byte>)
    requires segs != []
    ensures SameChunks(segs, data)[1..] == SameChunks(segs[1..], data)
  {
  }

  /** With a single non-empty segment, the bytes read back are the leading bytes of the buffer. */
  lemma {:induction false} OneSegmentHeads(segs: seq<FilePiece>, data: seq<byte>)
    requires Roomy(segs, data) && AtMostOneNonEmpty(segs)
    ensures SumLengths(segs) <= |data|
    ensures Heads(segs, SameChunks(segs, data)) == data[..SumLengths(segs)]
    decreases |segs|
  {
    if segs != [] {
      TailChunks(segs, data);
      OneSegmentHeads(segs[1..], data);
      if segs[0].length > 0 {
        EmptySum(segs[1..]);
      }
    }
  }

  /** The first byte read back is the first byte of the buffer. */
  lemma {:induction false} FirstHead(segs: seq<FilePiece>, data: seq<byte>)
    requires Roomy(segs, data) && SumLengths(segs) > 0
    ensures |data| > 0 && Heads(segs, SameChunks(segs, data))[0] == data[0]
    decreases |segs|
  {
    TailChunks(segs, data);
    if segs[0].length == 0 {
      FirstHead(segs[1..], data);
    }
  }

  /** With two non-empty segments, the first byte of the buffer is read back at a later place too. */
  lemma {:induction false} FirstByteAgain(segs: seq<FilePiece>, data: seq<byte>) returns (s: nat)
    requires Roomy(segs, data) && !AtMostOneNonEmpty(segs)
    ensures 0 < s < SumLengths(segs) && |data| > 0 && Heads(segs, SameChunks(segs, data))[s] == data[0]
    decreases |segs|
  {
    TailChunks(segs, data);
    var i, j :| 0 <= i < j < |segs| && segs[i].length > 0 && segs[j].length > 0;
    if segs[0].length == 0 {
      assert segs[1..][i - 1].length > 0 && segs[1..][j - 1].length > 0;
      s := FirstByteAgain(segs[1..], data);
    } else {
      s := segs[0].length;
      assert segs[1..][j - 1] == segs[j];
      PartsFit(segs[1..], j - 1);
      FirstHead(segs[1..], data);
    }
  }

  lemma {:induction false} SegmentPaths(files: seq<BTFile>, k: nat, at: nat, remaining: nat)
    requires k < |files| && at <= files[k].length && at + remaining <= Total(files, k)
    requires DistinctPaths(files)
    ensures DistinctSegments(Segments(files, k, at, remaining))
  {
    SegmentsPartition(files, k, at, remaining);
  }

  lemma {:induction false} SegmentsRoomy(segs: seq<FilePiece>, data: seq<byte>)
    requires SumLengths(segs) == |data|
    ensures Roomy(segs, data)
  {
    forall i | 0 <= i < |segs| ensures segs[i].length <= |data| {
      PartsFit(segs, i);
    }
  }

  /** The buffer whose bytes are all 0 but the first. */
  function Probe(n: nat): (r: seq<byte>)
    ensures |r| == n
  {
    seq(n, i => if i == 0 then 1 else 0)
  }

  /** Reading back what `write_block_raw` wrote returns the buffer, whatever the buffer and the old disk,
      exactly when the block falls on at most one non-empty stretch of file. */
  lemma {:induction false} CodedReadBack(files: seq<BTFile>, index: nat, length: nat, disk: Disk)
    requires DistinctPaths(files) && files != [] && index + length <= Total(files, 0)
    ensures MapFiles(files, index, length).Ok?
    ensures var segs := MapFiles(files, index, length).value;
            AtMostOneNonEmpty(segs)
            <==> forall data :: |data| == length ==>
                   ReadSegments(WriteAll(disk, segs, SameChunks(segs, data)), segs) == Ok(data)
  {
    var (k, at) := Locate(files, 0, index);
    var segs := MapFiles(files, index, length).value;
    SegmentPaths(files, k, at, length);
    SegmentsPartition(files, k, at, length);
    if AtMostOneNonEmpty(segs) {
      forall data: seq<byte> | |data| == length
        ensures ReadSegments(WriteAll(disk, segs, SameChunks(segs, data)), segs) == Ok(data)
      {
        OneSegmentBack(disk, segs, data);
      }
    } else {
      SeveralSegmentsLost(disk, segs);
    }
  }

  lemma {:induction false} OneSegmentBack(disk: Disk, segs: seq<FilePiece>, data: seq<byte>)
    requires DistinctSegments(segs) && SumLengths(segs) == |data| && AtMostOneNonEmpty(segs)
    ensures ReadSegments(WriteAll(disk, segs, SameChunks(segs, data)), segs) == Ok(data)
  {
    SegmentsRoomy(segs, data);
    ReadBackHeads(disk, segs, SameChunks(segs, data));
    OneSegmentHeads(segs, data);
    assert data[..|data|] == data;
  }

  /** Across two non-empty segments some buffer does not come back. */
  lemma {:induction false} SeveralSegmentsLost(disk: Disk, segs: seq<FilePiece>)
    requires DistinctSegments(segs) && !AtMostOneNonEmpty(segs)
    ensures exists data :: |data| == SumLengths(segs) &&
              ReadSegments(WriteAll(disk, segs, SameChunks(segs, data)), segs) != Ok(data)
  {
    var data := Probe(SumLengths(segs));
    SegmentsRoomy(segs, data);
    ReadBackHeads(disk, segs, SameChunks(segs, data));
    var s := FirstByteAgain(segs, data);
    assert Heads(segs, SameChunks(segs, data))[s] != data[s];
  }

  /** A writer that cuts the buffer at the segment ends would read back every block. */
  lemma {:induction false} SlicedReadBack(files: seq<BTFile>, index: nat, length: nat, disk: Disk, data: seq<byte>)
    requires DistinctPaths(files) && files != [] && index + length <= Total(files, 0) && |data| == length
    ensures MapFiles(files, index, length).Ok? && SumLengths(MapFiles(files, index, length).value) == length
    ensures var segs := MapFiles(files, index, length).value;
            ReadSegments(WriteAll(disk, segs, SlicedChunks(segs, data)), segs) == Ok(data)
  {
    var (k, at) := Locate(files, 0, index);
    var segs := MapFiles(files, index, length).value;
    SegmentPaths(files, k, at, length);
    SegmentsPartition(files, k, at, length);
    SlicedHeads(segs, data);
    ReadBackHeads(disk, segs, SlicedChunks(segs, data));
  }

  // ------------------------------------------------- effect on the whole torrent

  /** Chunks that stay inside their segments, apart from those sent to empty segments. */
  ghost predicate Tight(segs: seq<FilePiece>, chunks: seq<seq<byte>>) {
    && |segs| == |chunks|
    && forall i :: 0 <= i < |segs| ==> segs[i].length == |chunks[i]| || segs[i].length == 0
  }

  ghost function TightHeads(segs: seq<FilePiece>, chunks: seq<seq<byte>>): (r: seq<byte>)
    requires Tight(segs, chunks)
    ensures |r| == SumLengths(segs)
  {
    Heads(segs, chunks)
  }

  /** One file after one tight write: its declared bytes change only inside the segment. */
  lemma {:induction false} OneFile(c: seq<byte>, length: nat, begin: nat, load: nat, chunk: seq<byte>)
    requires length <= |c| && begin + load <= length
    requires load == |chunk| || (load == 0 && begin == length)
    ensures length <= |WriteAt(c, begin, chunk)|
    ensures WriteAt(c, begin, chunk)[..length] == c[..begin] + chunk[..load] + c[begin + load..length]
  {
  }

  lemma {:induction false} FlatDependsOn(disk: Disk, disk': Disk, files: seq<BTFile>, k: nat)
    requires Allocated(disk, files) && Allocated(disk', files) && k <= |files|
    requires forall i :: k <= i < |files| ==> disk'[files[i].path] == disk[files[i].path]
    ensures Flat(disk', files, k) == Flat(disk, files, k)
    decreases |files| - k
  {
    if k < |files| {
      FlatDependsOn(disk, disk', files, k + 1);
    }
  }

  /** A range of the flat bytes replaced by `data`. */
  ghost function Spliced(flat: seq<byte>, at: nat, data: seq<byte>): seq<byte>
    requires at + |data| <= |flat|
  {
    flat[..at] + data + flat[at + |data|..]
  }

  lemma {:induction false} SpliceHead(head: seq<byte>, rest: seq<byte>, at: nat, data: seq<byte>)
    requires at + |data| <= |head|
    ensures Spliced(head, at, data) + rest == Spliced(head + rest, at, data)
  {
  }

  lemma {:induction false} SpliceAcross(head: seq<byte>, rest: seq<byte>, at: nat, d0: seq<byte>, d1: seq<byte>)
    requires at + |d0| == |head| && |d1| <= |rest|
    ensures Spliced(head, at, d0) + Spliced(rest, 0, d1) == Spliced(head + rest, at, d0 + d1)
  {
  }

  lemma {:induction false} SpliceRest(head: seq<byte>, rest: seq<byte>, at: nat, data: seq<byte>)
    requires at + |data| <= |rest|
    ensures head + Spliced(rest, at, data) == Spliced(head + rest, |head| + at, data)
  {
  }

  lemma {:induction false} TightTail(segs: seq<FilePiece>, chunks: seq<seq<byte>>)
    requires Tight(segs, chunks) && segs != []
    ensures Tight(segs[1..], chunks[1..])
    ensures TightHeads(segs, chunks) == chunks[0][..segs[0].length] + TightHeads(segs[1..], chunks[1..])
  {
  }

  /** A write to file k keeps the files allocated and the bytes of the later files. */
  lemma {:induction false} WriteOne(disk: Disk, files: seq<BTFile>, k: nat, begin: nat, load: nat, chunk: seq<byte>)
    requires Allocated(disk, files) && DistinctPaths(files) && k < |files| && begin + load <= files[k].length
    requires load == |chunk| || (load == 0 && begin == files[k].length)
    ensures var disk' := disk[files[k].path := WriteAt(disk[files[k].path], begin, chunk)];
            && Allocated(disk', files) && Flat(disk', files, k + 1) == Flat(disk, files, k + 1)
            && disk'[files[k].path][..files[k].length]
               == Spliced(disk[files[k].path][..files[k].length], begin, chunk[..load])
  {
    var c := disk[files[k].path];
    OneFile(c, files[k].length, begin, load, chunk);
    FlatDependsOn(disk, disk[files[k].path := WriteAt(c, begin, chunk)], files, k + 1);
  }

  /** A write that fills file k to its end and goes on in the later files. */
  lemma {:induction false} FlatAcross(disk: Disk, disk1: Disk, disk2: Disk, files: seq<BTFile>, k: nat, at: nat,
                   d0: seq<byte>, d1: seq<byte>)
    requires Allocated(disk, files) && Allocated(disk1, files) && Allocated(disk2, files) && k < |files|
    requires at + |d0| == files[k].length && |d1| <= Total(files, k + 1)
    requires disk1[files[k].path][..files[k].length] == Spliced(disk[files[k].path][..files[k].length], at, d0)
    requires disk2[files[k].path] == disk1[files[k].path] && Flat(disk1, files, k + 1) == Flat(disk, files, k + 1)
    requires Flat(disk2, files, k + 1) == Spliced(Flat(disk1, files, k + 1), 0, d1)
    ensures Flat(disk2, files, k) == Spliced(Flat(disk, files, k), at, d0 + d1)
  {
    SpliceAcross(disk[files[k].path][..files[k].length], Flat(disk, files, k + 1), at, d0, d1);
  }

  /** A write inside file k. */
  lemma {:induction false} FlatWithin(disk: Disk, disk1: Disk, files: seq<BTFile>, k: nat, at: nat, d0: seq<byte>)
    requires Allocated(disk, files) && Allocated(disk1, files) && k < |files| && at + |d0| <= files[k].length
    requires disk1[files[k].path][..files[k].length] == Spliced(disk[files[k].path][..files[k].length], at, d0)
    requires Flat(disk1, files, k + 1) == Flat(disk, files, k + 1)
    ensures Flat(disk1, files, k) == Spliced(Flat(disk, files, k), at, d0 + [])
  {
    SpliceHead(disk[files[k].path][..files[k].length], Flat(disk, files, k + 1), at, d0);
    assert d0 + [] == d0;
  }

  /** Writing tight chunks through the segments of a range replaces exactly that range of the flat bytes. */
  lemma {:induction false} WriteFlat(disk: Disk, files: seq<BTFile>, k: nat, at: nat, remaining: nat,
                                     chunks: seq<seq<byte>>)
    requires Allocated(disk, files) && DistinctPaths(files)
    requires k < |files| && at <= files[k].length && at + remaining <= Total(files, k)
    requires Tight(Segments(files, k, at, remaining), chunks)
    ensures SumLengths(Segments(files, k, at, remaining)) == remaining
    ensures var segs := Segments(files, k, at, remaining);
            var disk' := WriteAll(disk, segs, chunks);
            && Allocated(disk', files)
            && Flat(disk', files, k) == Spliced(Flat(disk, files, k), at, TightHeads(segs, chunks))
    decreases |files| - k
  {
    var segs := Segments(files, k, at, remaining);
    SegmentsPartition(files, k, at, remaining);
    if remaining > 0 {
      var load := Min(remaining, files[k].length - at);
      var path := files[k].path;
      var disk1 := disk[path := WriteAt(disk[path], at, chunks[0])];
      WriteOne(disk, files, k, at, load, chunks[0]);
      TightTail(segs, chunks);
      if load < remaining {
        var tail := Segments(files, k + 1, 0, remaining - load);
        assert segs[1..] == tail;
        WriteFlat(disk1, files, k + 1, 0, remaining - load, chunks[1..]);
        LaterPaths(files, k, tail, remaining - load);
        OtherFilesKept(disk1, tail, chunks[1..], path);
        FlatAcross(disk, disk1, WriteAll(disk1, tail, chunks[1..]), files, k, at, chunks[0][..load],
                   TightHeads(tail, chunks[1..]));
      } else {
        assert segs[1..] == [] && chunks[1..] == [];
        FlatWithin(disk, disk1, files, k, at, chunks[0][..load]);
      }
    }
  }

  lemma {:induction false} LaterPaths(files: seq<BTFile>, k: nat, tail: seq<FilePiece>, remaining: nat)
    requires DistinctPaths(files) && k + 1 < |files| && remaining <= Total(files, k + 1)
    requires tail == Segments(files, k + 1, 0, remaining)
    ensures forall i :: 0 <= i < |tail| ==> tail[i].path != files[k].path
  {
    SegmentsPartition(files, k + 1, 0, remaining);
  }

  /** Seen from the first file, too, the write replaces exactly its range. */
  lemma {:induction false} LocateWrite(disk: Disk, disk': Disk, files: seq<BTFile>, k: nat, index: nat, data: seq<byte>)
    requires Allocated(disk, files) && Allocated(disk', files)
    requires k < |files| && index + |data| <= Total(files, k)
    requires var (m, at) := Locate(files, k, index);
             && (forall i :: k <= i < m ==> disk'[files[i].path] == disk[files[i].path])
             && Flat(disk', files, m) == Spliced(Flat(disk, files, m), at, data)
    ensures Flat(disk', files, k) == Spliced(Flat(disk, files, k), index, data)
    decreases |files| - k
  {
    if files[k].length < index {
      var i := index - files[k].length;
      LocateWrite(disk, disk', files, k + 1, i, data);
      SpliceRest(disk[files[k].path][..files[k].length], Flat(disk, files, k + 1), i, data);
    }
  }

  /** A block write with tight chunks replaces exactly the block's range of the torrent's bytes. */
  lemma {:induction false} BlockWrite(disk: Disk, files: seq<BTFile>, index: nat, length: nat, chunks: seq<seq<byte>>)
    requires Allocated(disk, files) && DistinctPaths(files) && files != [] && index + length <= Total(files, 0)
    requires Tight(MapFiles(files, index, length).value, chunks)
    ensures SumLengths(MapFiles(files, index, length).value) == length
    ensures var segs := MapFiles(files, index, length).value;
            var disk' := WriteAll(disk, segs, chunks);
            && Allocated(disk', files)
            && Flat(disk', files, 0) == Spliced(Flat(disk, files, 0), index, TightHeads(segs, chunks))
  {
    var (k, at) := Locate(files, 0, index);
    var segs := Segments(files, k, at, length);
    SegmentsPartition(files, k, at, length);
    WriteFlat(disk, files, k, at, length, chunks);
    forall i | 0 <= i < k ensures WriteAll(disk, segs, chunks)[files[i].path] == disk[files[i].path] {
      OtherFilesKept(disk, segs, chunks, files[i].path);
    }
    LocateWrite(disk, WriteAll(disk, segs, chunks), files, 0, index, TightHeads(segs, chunks));
  }

  /** As coded: when the block falls on one stretch of file, its range is all that changes of the declared bytes.
      What happens past the declared ends is told in FileEnds. */
  lemma {:induction false} CodedWrite(disk: Disk, files: seq<BTFile>, index: nat, data: seq<byte>)
    requires Allocated(disk, files) && DistinctPaths(files) && files != [] && index + |data| <= Total(files, 0)
    requires AtMostOneNonEmpty(MapFiles(files, index, |data|).value)
    ensures var segs := MapFiles(files, index, |data|).value;
            var disk' := WriteAll(disk, segs, SameChunks(segs, data));
            Allocated(disk', files) && Flat(disk', files, 0) == Spliced(Flat(disk, files, 0), index, data)
  {
    var (k, at) := Locate(files, 0, index);
    var segs := MapFiles(files, index, |data|).value;
    SegmentsPartition(files, k, at, |data|);
    OneSegmentTight(segs, data);
    SegmentsRoomy(segs, data);
    OneSegmentHeads(segs, data);
    BlockWrite(disk, files, index, |data|, SameChunks(segs, data));
  }

  lemma {:induction false} OneSegmentTight(segs: seq<FilePiece>, data: seq<byte>)
    requires AtMostOneNonEmpty(segs) && SumLengths(segs) == |data|
    ensures Tight(segs, SameChunks(segs, data))
    decreases |segs|
  {
    if segs != [] {
      if segs[0].length > 0 {
        EmptySum(segs[1..]);
      } else {
        OneSegmentTight(segs[1..], data);
        TailChunks(segs, data);
        assert forall i :: 1 <= i < |segs| ==> segs[i] == segs[1..][i - 1];
      }
    }
  }

  /** The slicing writer replaces the range of every block. */
  lemma {:induction false} SlicedWrite(disk: Disk, files: seq<BTFile>, index: nat, data: seq<byte>)
    requires Allocated(disk, files) && DistinctPaths(files) && files != [] && index + |data| <= Total(files, 0)
    ensures SumLengths(MapFiles(files, index, |data|).value) == |data|
    ensures var segs := MapFiles(files, index, |data|).value;
            var disk' := WriteAll(disk, segs, SlicedChunks(segs, data));
            Allocated(disk', files) && Flat(disk', files, 0) == Spliced(Flat(disk, files, 0), index, data)
  {
    var (k, at) := Locate(files, 0, index);
    var segs := MapFiles(files, index, |data|).value;
    SegmentsPartition(files, k, at, |data|);
    SlicedHeads(segs, data);
    BlockWrite(disk, files, index, |data|, SlicedChunks(segs, data));
  }

  /** A block read after a write to a disjoint range of an intact torrent returns what it did before. */
  lemma {:induction false} DisjointRead(disk: Disk, disk': Disk, files: seq<BTFile>, index: nat, data: seq<byte>,
                                        other: nat, length: nat)
    requires Allocated(disk, files) && Allocated(disk', files) && files != []
    requires index + |data| <= Total(files, 0) && other + length <= Total(files, 0)
    requires Flat(disk', files, 0) == Spliced(Flat(disk, files, 0), index, data)
    requires other + length <= index || index + |data| <= other
    ensures MapFiles(files, other, length).Ok?
    ensures ReadSegments(disk', MapFiles(files, other, length).value)
            == ReadSegments(disk, MapFiles(files, other, length).value)
  {
    ReadBlockIsSlice(disk, files, other, length);
    ReadBlockIsSlice(disk', files, other, length);
    var f := Flat(disk, files, 0);
    assert Spliced(f, index, data)[other..other + length] == f[other..other + length];
  }
}
