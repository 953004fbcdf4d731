/** What the writer of src/bittorrent/torrent.rs does to the files outside the block's range: the whole buffer
    goes to every segment, an empty one included, and may run past the end of its file. */
module FileEnds {
  import opened Outcomes
  import opened FileMap

  /** Every file exists at exactly its declared length. */
  ghost predicate ExactLengths(disk: Disk, files: seq<BTFile>) {
    forall i :: 0 <= i < |files| ==> files[i].path in disk && |disk[files[i].path]| == files[i].length
  }

  /** The disk after `write_block_raw` of a buffer that fits the files. */
  function Coded(disk: Disk, files: seq<BTFile>, index: nat, data: seq<byte>): Disk {
    match MapFiles(files, index, |data|)
    case Ok(segs) => WriteAll(disk, segs, SameChunks(segs, data))
    case _ => disk
  }

  lemma {:induction false} WriteLength(c: seq<byte>, pos: nat, data: seq<byte>)
    ensures |WriteAt(c, pos, data)| == if data == [] || pos + |data| <= |c| then |c| else pos + |data|
  {
  }

  /** No write shortens a file. */
  lemma {:induction false} LengthsGrow(disk: Disk, segs: seq<FilePiece>, chunks: seq<seq<byte>>, path: string)
    requires |segs| == |chunks| && path in disk
    ensures path in WriteAll(disk, segs, chunks) && |WriteAll(disk, segs, chunks)[path]| >= |disk[path]|
    decreases |segs|
  {
    if segs != [] {
      WriteLength(Contents(disk, segs[0].path), segs[0].begin, chunks[0]);
      var disk' := disk[segs[0].path := WriteAt(Contents(disk, segs[0].path), segs[0].begin, chunks[0])];
      LengthsGrow(disk', segs[1..], chunks[1..], path);
    }
  }

  /** A write keeps files that are long enough long enough; one once too long stays too long. */
  lemma {:induction false} WriteGrows(disk: Disk, files: seq<BTFile>, index: nat, data: seq<byte>)
    requires Allocated(disk, files)
    ensures Allocated(Coded(disk, files, index, data), files)
    ensures ExactLengths(Coded(disk, files, index, data), files) ==> ExactLengths(disk, files)
  {
    if MapFiles(files, index, |data|).Ok? {
      var segs := MapFiles(files, index, |data|).value;
      forall i | 0 <= i < |files|
        ensures var disk' := Coded(disk, files, index, data); var path := files[i].path;
                path in disk' && |disk'[path]| >= |disk[path]|
      {
        LengthsGrow(disk, segs, SameChunks(segs, data), files[i].path);
      }
    }
  }

  /** One segment takes all the bytes; the first of several ends at the end of its file, before the bytes do. */
  lemma {:induction false} FirstSegment(files: seq<BTFile>, k: nat, at: nat, remaining: nat)
    requires k < |files| && at <= files[k].length && at + remaining <= Total(files, k) && remaining > 0
    ensures var segs := Segments(files, k, at, remaining);
            && segs != [] && segs[0].path == files[k].path && segs[0].begin == at
            && (if |segs| == 1 then at + remaining <= files[k].length else at + remaining > files[k].length)
  {
    var load := Min(remaining, files[k].length - at);
    SegmentsPartition(files, k + 1, 0, remaining - load);
  }

  /** With one segment the coded writer changes the block's range of one file and nothing else on the disk. */
  lemma {:induction false} OneSegmentWrite(disk: Disk, seg: FilePiece, data: seq<byte>)
    requires seg.path in disk && seg.begin + |data| <= |disk[seg.path]|
    ensures WriteAll(disk, [seg], SameChunks([seg], data))
            == disk[seg.path := Spliced(disk[seg.path], seg.begin, data)]
  {
    WriteSegment(disk, seg, data);
    var c := disk[seg.path];
    assert WriteAt(c, seg.begin, data) == Spliced(c, seg.begin, data);
  }

  /** With several segments the first file grows. */
  lemma {:induction false} SeveralSegmentsGrow(disk: Disk, segs: seq<FilePiece>, data: seq<byte>)
    requires segs != [] && data != [] && segs[0].path in disk && segs[0].begin + |data| > |disk[segs[0].path]|
    ensures var disk' := WriteAll(disk, segs, SameChunks(segs, data));
            segs[0].path in disk' && |disk'[segs[0].path]| > |disk[segs[0].path]|
  {
    var path, chunks := segs[0].path, SameChunks(segs, data);
    assert chunks[0] == data && Contents(disk, path) == disk[path];
    WriteLength(disk[path], segs[0].begin, data);
    LengthsGrow(disk[path := WriteAt(disk[path], segs[0].begin, data)], segs[1..], chunks[1..], path);
  }

  /** Files at their declared lengths keep them exactly when the block falls on a single segment, an empty one counted;
      and then the block's range of one file changes, and nothing else on the disk. */
  lemma {:induction false} LengthsKeptExactly(disk: Disk, files: seq<BTFile>, index: nat, data: seq<byte>)
    requires ExactLengths(disk, files) && files != [] && data != [] && index + |data| <= Total(files, 0)
    ensures MapFiles(files, index, |data|).Ok? && MapFiles(files, index, |data|).value != []
    ensures ExactLengths(Coded(disk, files, index, data), files) <==> |MapFiles(files, index, |data|).value| == 1
    ensures var seg := MapFiles(files, index, |data|).value[0];
            && seg.path in disk
            && (|MapFiles(files, index, |data|).value| == 1 ==>
                  && seg.begin + |data| <= |disk[seg.path]|
                  && Coded(disk, files, index, data) == disk[seg.path := Spliced(disk[seg.path], seg.begin, data)])
  {
    var (k, at) := Locate(files, 0, index);
    var segs := MapFiles(files, index, |data|).value;
    FirstSegment(files, k, at, |data|);
    if |segs| == 1 {
      assert segs == [segs[0]];
      OneSegmentWrite(disk, segs[0], data);
    } else {
      SeveralSegmentsGrow(disk, segs, data);
    }
  }

  /** A block of one byte that starts at a file boundary: it is also written past the end of the earlier file. */
  lemma {:induction false} BoundaryBlockGrows()
    ensures var files, disk := [BTFile("a", 1), BTFile("b", 1)], map["a" := [1], "b" := [2]];
            && MapFiles(files, 1, 1) == Ok([FilePiece("a", 1, 0), FilePiece("b", 0, 1)])
            && AtMostOneNonEmpty(MapFiles(files, 1, 1).value)
            && ExactLengths(disk, files)
            && Coded(disk, files, 1, [7]) == map["a" := [1, 7], "b" := [7]]
  {
    var files, disk: Disk := [BTFile("a", 1), BTFile("b", 1)], map["a" := [1], "b" := [2]];
    TwoFiles(files);
    var segs := [FilePiece("a", 1, 0), FilePiece("b", 0, 1)];
    assert Segments(files, 0, 1, 1) == segs;
    assert WriteAt([1], 1, [7]) == [1, 7] && WriteAt([2], 0, [7]) == [7];
    WriteTwo(disk, segs, [7]);
  }

  /** A block of two bytes that spans two files does not read back. */
  lemma {:induction false} SpanningBlockLost()
    ensures var files, disk := [BTFile("a", 1), BTFile("b", 1)], map["a" := [1], "b" := [2]];
            && MapFiles(files, 0, 2) == Ok([FilePiece("a", 0, 1), FilePiece("b", 0, 1)])
            && Coded(disk, files, 0, [7, 8]) == map["a" := [7, 8], "b" := [7, 8]]
            && ReadRaw(Coded(disk, files, 0, [7, 8]), files, 0, 2) == Ok([7, 7])
  {
    var files, disk: Disk := [BTFile("a", 1), BTFile("b", 1)], map["a" := [1], "b" := [2]];
    TwoFiles(files);
    var segs := [FilePiece("a", 0, 1), FilePiece("b", 0, 1)];
    assert Segments(files, 0, 0, 2) == segs;
    assert WriteAt([1], 0, [7, 8]) == [7, 8] && WriteAt([2], 0, [7, 8]) == [7, 8];
    WriteTwo(disk, segs, [7, 8]);
    var data: seq<byte> := [7, 8];
    assert data[segs[0].begin..segs[0].begin + segs[0].length] == [7];
    assert data[segs[1].begin..segs[1].begin + segs[1].length] == [7];
    var disk': Disk := map["a" := data, "b" := data];
    assert Coded(disk, files, 0, data) == disk' && MapFiles(files, 0, 2) == Ok(segs);
    ReadTwo(disk', segs);
    var seven, twice: seq<byte> := [7], [7, 7];
    assert seven + seven == twice;
    assert ReadRaw(disk', files, 0, 2) == Ok(twice);
  }

  lemma {:induction false} TwoFiles(files: seq<BTFile>)
    requires |files| == 2
    ensures Total(files, 2) == 0 && Total(files, 1) == files[1].length
    ensures Total(files, 0) == files[0].length + files[1].length
    ensures files[0].length == files[1].length == 1 ==>
              && Segments(files, 1, 0, 1) == [FilePiece(files[1].path, 0, 1)]
              && Locate(files, 0, 0) == (0, 0) && Locate(files, 0, 1) == (0, 1)
  {
  }

  lemma {:induction false} WriteTwo(disk: Disk, segs: seq<FilePiece>, data: seq<byte>)
    requires |segs| == 2
    ensures var disk1 := disk[segs[0].path := WriteAt(Contents(disk, segs[0].path), segs[0].begin, data)];
            WriteAll(disk, segs, SameChunks(segs, data))
            == disk1[segs[1].path := WriteAt(Contents(disk1, segs[1].path), segs[1].begin, data)]
  {
    var disk1 := disk[segs[0].path := WriteAt(Contents(disk, segs[0].path), segs[0].begin, data)];
    TailChunks(segs, data);
    assert segs[1..] == [segs[1]];
    WriteSegment(disk1, segs[1], data);
  }

  lemma {:induction false} WriteSegment(disk: Disk, seg: FilePiece, data: seq<byte>)
    ensures WriteAll(disk, [seg], SameChunks([seg], data))
            == disk[seg.path := WriteAt(Contents(disk, seg.path), seg.begin, data)]
  {
    var disk' := disk[seg.path := WriteAt(Contents(disk, seg.path), seg.begin, data)];
    TailChunks([seg], data);
    assert SameChunks([seg], data)[0] == data && [seg][1..] == [];
    assert WriteAll(disk', [], SameChunks([], data)) == disk';
  }

  lemma {:induction false} ReadTwo(disk: Disk, segs: seq<FilePiece>)
    requires |segs| == 2 && forall i :: 0 <= i < 2 ==>
               segs[i].path in disk && segs[i].length > 0 && segs[i].begin + segs[i].length <= |disk[segs[i].path]|
    ensures ReadSegments(disk, segs)
            == Ok(disk[segs[0].path][segs[0].begin..segs[0].begin + segs[0].length]
                  + disk[segs[1].path][segs[1].begin..segs[1].begin + segs[1].length])
  {
    var a := disk[segs[0].path][segs[0].begin..segs[0].begin + segs[0].length];
    var b := disk[segs[1].path][segs[1].begin..segs[1].begin + segs[1].length];
    assert segs[1..] == [segs[1]] && [segs[1]][1..] == [];
    PrependTwice(b, [], Ok([]));
    assert ReadSegments(disk, segs[1..]) == Ok(b);
  }
}
