/** Blocks and files together: what a torrent holds on disk after a run of block writes, and what
    `read_block` then hands out (src/bittorrent/torrent.rs). */
module Storage {
  import opened Outcomes
  import opened Blocks
  import opened FileMap
  import opened FileEnds
  import opened Neighbours
  import opened TorrentObject

  datatype BlockWrite = BlockWrite(piece: Piece, data: seq<byte>)

  /** Offset of a block in the files laid end to end. */
  function FileIndex(g: Geometry, p: Piece): nat {
    p.begin + p.index * g.pieceLength
  }

  /** The disk after the writes, as coded: the whole buffer to every segment. */
  function DiskRun(g: Geometry, files: seq<BTFile>, disk: Disk, ws: seq<BlockWrite>): Disk {
    if ws == [] then disk
    else
      var w := ws[|ws| - 1];
      Coded(DiskRun(g, files, disk, ws[..|ws| - 1]), files, FileIndex(g, w.piece), w.data)
  }

  /** The sizes of the pieces and of the files agree. */
  ghost predicate SameSize(g: Geometry, files: seq<BTFile>) {
    Exact(g) && files != [] && Total(files, 0) == g.totalSize
  }

  /** A block inside its piece, with as many bytes as it announces. */
  ghost predicate Fitting(g: Geometry, w: BlockWrite) {
    InPiece(g, w.piece) && |w.data| == w.piece.length
  }

  /** Such a block that falls on one non-empty stretch of file at most. */
  ghost predicate OneStretch(g: Geometry, files: seq<BTFile>, w: BlockWrite) {
    && Fitting(g, w)
    && var m := MapFiles(files, FileIndex(g, w.piece), |w.data|);
       m.Ok? && AtMostOneNonEmpty(m.value)
  }

  /** A block that is written to a single segment, an empty one counted, or has nothing to write. */
  ghost predicate OneSegment(g: Geometry, files: seq<BTFile>, w: BlockWrite) {
    w.data == [] || var m := MapFiles(files, FileIndex(g, w.piece), |w.data|); m.Ok? && |m.value| == 1
  }

  function Pieces(ws: seq<BlockWrite>): (r: seq<Piece>)
    ensures |r| == |ws| && forall i :: 0 <= i < |ws| ==> r[i] == ws[i].piece
  {
    seq(|ws|, i requires 0 <= i < |ws| => ws[i].piece)
  }

  lemma {:induction false} Scale(a: nat, b: nat, p: nat)
    requires a <= b
    ensures a * p <= b * p && (a + 1) * p == a * p + p
  {
  }

  /** A block inside its piece lies inside the files. */
  lemma {:induction false} BlockInside(g: Geometry, files: seq<BTFile>, p: Piece)
    requires SameSize(g, files) && InPiece(g, p)
    ensures FileIndex(g, p) + p.length <= Total(files, 0)
  {
    if p.index < g.npieces - 1 {
      Scale(p.index + 1, g.npieces - 1, g.pieceLength);
      Scale(p.index, p.index, g.pieceLength);
    }
  }

  /** Byte at flat offset x after the writes: the last write that covers it counts. */
  ghost function LastWritten(g: Geometry, ws: seq<BlockWrite>, x: int, original: byte): byte {
    if ws == [] then original
    else
      var w := ws[|ws| - 1];
      var at := FileIndex(g, w.piece);
      if at <= x < at + |w.data| then w.data[x - at] else LastWritten(g, ws[..|ws| - 1], x, original)
  }

  /** After any run of such writes the files hold, at every offset within their declared lengths, what was
      written there last. */
  lemma {:induction false} RunContents(g: Geometry, files: seq<BTFile>, disk: Disk, ws: seq<BlockWrite>)
    requires SameSize(g, files) && Allocated(disk, files) && DistinctPaths(files)
    requires forall w :: w in ws ==> OneStretch(g, files, w)
    ensures Allocated(DiskRun(g, files, disk, ws), files)
    ensures forall x :: 0 <= x < Total(files, 0) ==>
              Flat(DiskRun(g, files, disk, ws), files, 0)[x] == LastWritten(g, ws, x, Flat(disk, files, 0)[x])
    decreases |ws|
  {
    if ws != [] {
      var init, w := ws[..|ws| - 1], ws[|ws| - 1];
      assert ws == init + [w];
      assert w in ws && forall v :: v in init ==> v in ws;
      RunContents(g, files, disk, init);
      BlockInside(g, files, w.piece);
      var before := DiskRun(g, files, disk, init);
      CodedWrite(before, files, FileIndex(g, w.piece), w.data);
      SplicedAt(Flat(before, files, 0), FileIndex(g, w.piece), w.data);
    }
  }

  // ----------------------------------------------------- whatever the blocks

  /** The buffer of the block lands on byte y of file m: it does so from the beginning of the block's segment in the
      file on, wherever the segment ends. */
  ghost predicate Reaches(g: Geometry, files: seq<BTFile>, w: BlockWrite, m: nat, y: nat) {
    var hit := Hit(files, FileIndex(g, w.piece), |w.data|, m);
    hit.Some? && hit.value <= y < hit.value + |w.data|
  }

  ghost predicate Reached(g: Geometry, files: seq<BTFile>, ws: seq<BlockWrite>, m: nat, y: nat) {
    exists w :: w in ws && Reaches(g, files, w, m, y)
  }

  /** Byte y of file m after the writes: the last one that reaches it counts. */
  ghost function LastReaching(g: Geometry, files: seq<BTFile>, ws: seq<BlockWrite>, m: nat, y: nat,
                              original: byte): byte {
    if ws == [] then original
    else
      var w := ws[|ws| - 1];
      if Reaches(g, files, w, m, y) then w.data[y - Hit(files, FileIndex(g, w.piece), |w.data|, m).value]
      else LastReaching(g, files, ws[..|ws| - 1], m, y, original)
  }

  /** c' is file m after the writes, c before: longer by the bytes reached, each byte the one that reached it last. */
  ghost predicate WrittenOver(g: Geometry, files: seq<BTFile>, ws: seq<BlockWrite>, m: nat, c: seq<byte>,
                              c': seq<byte>) {
    && |c| <= |c'|
    && (forall y: nat :: y < |c'| <==> y < |c| || Reached(g, files, ws, m, y))
    && (forall y: nat :: y < |c'| ==> c'[y] == LastReaching(g, files, ws, m, y, if y < |c| then c[y] else 0))
  }

  lemma {:induction false} HitInside(files: seq<BTFile>, index: nat, length: nat, m: nat)
    requires Hit(files, index, length, m).Some?
    ensures m < |files| && Hit(files, index, length, m).value <= files[m].length
  {
    var (k, at) := Locate(files, 0, index);
    Extent(files, k, at, length, m);
  }

  lemma {:induction false} OverlaidByte(c: seq<byte>, b: nat, data: seq<byte>, y: nat)
    requires b <= |c|
    ensures |c| <= |WriteAt(c, b, data)|
    ensures y < |WriteAt(c, b, data)| <==> y < |c| || b <= y < b + |data|
    ensures y < |WriteAt(c, b, data)| ==>
              WriteAt(c, b, data)[y] == if b <= y < b + |data| then data[y - b] else c[y]
  {
  }

  lemma {:induction false} WrittenOverNext(g: Geometry, files: seq<BTFile>, init: seq<BlockWrite>, w: BlockWrite,
                                           m: nat,
                                           c: seq<byte>, mid: seq<byte>)
    requires m < |files| && files[m].length <= |mid| && WrittenOver(g, files, init, m, c, mid)
    ensures WrittenOver(g, files, init + [w], m, c,
                        Overlaid(mid, Hit(files, FileIndex(g, w.piece), |w.data|, m), w.data))
  {
    var ws, hit := init + [w], Hit(files, FileIndex(g, w.piece), |w.data|, m);
    var c' := Overlaid(mid, hit, w.data);
    assert ws[..|ws| - 1] == init;
    if hit.Some? {
      HitInside(files, FileIndex(g, w.piece), |w.data|, m);
    }
    forall y: nat
      ensures |mid| <= |c'|
      ensures y < |c'| <==> y < |mid| || Reaches(g, files, w, m, y)
      ensures Reached(g, files, ws, m, y) <==> Reached(g, files, init, m, y) || Reaches(g, files, w, m, y)
      ensures y < |c'| ==> c'[y] == LastReaching(g, files, ws, m, y, if y < |c| then c[y] else 0)
    {
      ReachedNext(g, files, init, w, m, y);
      if hit.Some? {
        OverlaidByte(mid, hit.value, w.data, y);
      }
    }
  }

  lemma {:induction false} ReachedNext(g: Geometry, files: seq<BTFile>, init: seq<BlockWrite>, w: BlockWrite, m: nat,
                                       y: nat)
    ensures Reached(g, files, init + [w], m, y) <==> Reached(g, files, init, m, y) || Reaches(g, files, w, m, y)
  {
    assert forall v :: v in init + [w] <==> v in init || v == w;
  }

  /** After any run of block writes, whatever the blocks, every file on disk, bytes past its declared length included: a
      byte is there if it was there before or some block reached it, and is the one that reached it last. */
  lemma {:induction false} RunFiles(g: Geometry, files: seq<BTFile>, disk: Disk, ws: seq<BlockWrite>, m: nat)
    requires Allocated(disk, files) && DistinctPaths(files) && m < |files|
    ensures files[m].path in DiskRun(g, files, disk, ws)
    ensures WrittenOver(g, files, ws, m, disk[files[m].path], DiskRun(g, files, disk, ws)[files[m].path])
    decreases |ws|
  {
    if ws != [] {
      var init, w := ws[..|ws| - 1], ws[|ws| - 1];
      var before := DiskRun(g, files, disk, init);
      assert ws == init + [w];
      RunFiles(g, files, disk, init, m);
      RunGrows(g, files, disk, init);
      FileAfterWrite(before, files, FileIndex(g, w.piece), w.data, m);
      WrittenOverNext(g, files, init, w, m, disk[files[m].path], before[files[m].path]);
    }
  }

  lemma {:induction false} SplicedAt(flat: seq<byte>, at: nat, data: seq<byte>)
    requires at + |data| <= |flat|
    ensures |Spliced(flat, at, data)| == |flat|
    ensures forall x :: 0 <= x < |flat| ==>
              Spliced(flat, at, data)[x] == if at <= x < at + |data| then data[x - at] else flat[x]
  {
  }

  lemma {:induction false} EmptyWrite(disk: Disk, files: seq<BTFile>, index: nat)
    requires files != [] && index <= Total(files, 0)
    ensures Coded(disk, files, index, []) == disk
  {
  }

  /** A file once too long stays too long. */
  lemma {:induction false} RunGrows(g: Geometry, files: seq<BTFile>, disk: Disk, ws: seq<BlockWrite>)
    requires Allocated(disk, files)
    ensures Allocated(DiskRun(g, files, disk, ws), files)
    decreases |ws|
  {
    if ws != [] {
      var w := ws[|ws| - 1];
      RunGrows(g, files, disk, ws[..|ws| - 1]);
      WriteGrows(DiskRun(g, files, disk, ws[..|ws| - 1]), files, FileIndex(g, w.piece), w.data);
    }
  }

  /** A run of block writes leaves files at their declared lengths exactly when every block went to a single segment;
      each other one is also written past the end of a file. */
  lemma {:induction false} RunLengths(g: Geometry, files: seq<BTFile>, disk: Disk, ws: seq<BlockWrite>)
    requires SameSize(g, files) && ExactLengths(disk, files) && forall w :: w in ws ==> Fitting(g, w)
    ensures ExactLengths(DiskRun(g, files, disk, ws), files) <==> forall w :: w in ws ==> OneSegment(g, files, w)
    decreases |ws|
  {
    if ws != [] {
      var init, w := ws[..|ws| - 1], ws[|ws| - 1];
      assert ws == init + [w];
      assert w in ws && forall v :: v in init ==> v in ws;
      RunLengths(g, files, disk, init);
      RunGrows(g, files, disk, init);
      BlockInside(g, files, w.piece);
      var before := DiskRun(g, files, disk, init);
      WriteGrows(before, files, FileIndex(g, w.piece), w.data);
      if ExactLengths(before, files) {
        LastLength(g, files, before, w);
      }
    }
  }

  lemma {:induction false} LastLength(g: Geometry, files: seq<BTFile>, disk: Disk, w: BlockWrite)
    requires SameSize(g, files) && ExactLengths(disk, files) && Fitting(g, w)
    ensures ExactLengths(Coded(disk, files, FileIndex(g, w.piece), w.data), files) <==> OneSegment(g, files, w)
  {
    BlockInside(g, files, w.piece);
    if w.data == [] {
      EmptyWrite(disk, files, FileIndex(g, w.piece));
    } else {
      LengthsKeptExactly(disk, files, FileIndex(g, w.piece), w.data);
    }
  }

  /** Reading a block after a run of writes returns at every place the byte written there last. */
  lemma {:induction false} LastWriteIsRead(g: Geometry, files: seq<BTFile>, disk: Disk, ws: seq<BlockWrite>, p: Piece)
    requires SameSize(g, files) && Allocated(disk, files) && DistinctPaths(files)
    requires forall w :: w in ws ==> OneStretch(g, files, w)
    requires InPiece(g, p)
    ensures FileIndex(g, p) + p.length <= |Flat(disk, files, 0)|
    ensures match ReadRaw(DiskRun(g, files, disk, ws), files, FileIndex(g, p), p.length)
            case Ok(r) => |r| == p.length && forall i :: 0 <= i < |r| ==>
              r[i] == LastWritten(g, ws, FileIndex(g, p) + i, Flat(disk, files, 0)[FileIndex(g, p) + i])
            case _ => false
  {
    RunContents(g, files, disk, ws);
    BlockInside(g, files, p);
    var disk' := DiskRun(g, files, disk, ws);
    ReadBlockIsSlice(disk', files, FileIndex(g, p), p.length);
    var now, r := Flat(disk', files, 0), ReadRaw(disk', files, FileIndex(g, p), p.length).value;
    forall i | 0 <= i < |r|
      ensures r[i] == LastWritten(g, ws, FileIndex(g, p) + i, Flat(disk, files, 0)[FileIndex(g, p) + i])
    {
      assert r[i] == now[FileIndex(g, p) + i];
    }
  }

  /** Some write of the run covers flat offset x. */
  ghost predicate Overwritten(g: Geometry, ws: seq<BlockWrite>, x: int) {
    exists w :: w in ws && FileIndex(g, w.piece) <= x < FileIndex(g, w.piece) + |w.data|
  }

  /** What was there before does not show through a byte that has been written. */
  lemma {:induction false} OriginalHidden(g: Geometry, ws: seq<BlockWrite>, x: int, a: byte, b: byte)
    requires Overwritten(g, ws, x)
    ensures LastWritten(g, ws, x, a) == LastWritten(g, ws, x, b)
    decreases |ws|
  {
    var init, last := ws[..|ws| - 1], ws[|ws| - 1];
    assert ws == init + [last];
    if !(FileIndex(g, last.piece) <= x < FileIndex(g, last.piece) + |last.data|) {
      var w :| w in ws && FileIndex(g, w.piece) <= x < FileIndex(g, w.piece) + |w.data|;
      assert w in init;
      OriginalHidden(g, init, x, a, b);
    }
  }

  lemma {:induction false} WrittenIsOverwritten(g: Geometry, ws: seq<BlockWrite>, i: u32, x: int)
    requires (forall w :: w in ws ==> Fitting(g, w)) && Written(Pieces(ws), i, x)
    ensures Overwritten(g, ws, x + i * g.pieceLength)
  {
    var q :| q in Pieces(ws) && InBlock(q, i, x);
    var k :| 0 <= k < |ws| && Pieces(ws)[k] == q;
    assert ws[k] in ws;
  }

  /** b is the byte written last at flat offset x, whatever was there before. */
  ghost predicate Latest(g: Geometry, ws: seq<BlockWrite>, x: int, b: byte) {
    Overwritten(g, ws, x) && forall before: byte :: LastWritten(g, ws, x, before) == b
  }

  lemma {:induction false} GateAfterRun(g: Geometry, ws: seq<BlockWrite>, p: Piece, contents: Outcome<seq<byte>>)
    requires Exact(g) && (forall w :: w in ws ==> Fitting(g, w)) && InPiece(g, p) && p.length > 0
    ensures InsertRun(g, Empty(g), Pieces(ws)).Ok?
    ensures ReadOutcome(InsertRun(g, Empty(g), Pieces(ws)).value, p, contents)
            == if AllWritten(Pieces(ws), p) then contents else Err
  {
    forall q | q in Pieces(ws) ensures InPiece(g, q) {
      var i :| 0 <= i < |ws| && Pieces(ws)[i] == q;
      assert ws[i] in ws;
    }
    ReadGate(g, Pieces(ws), p);
    SizeIsMax(g, p.index);
  }

  lemma {:induction false} BytesAfterRun(g: Geometry, files: seq<BTFile>, disk: Disk, ws: seq<BlockWrite>, p: Piece)
    requires SameSize(g, files) && Allocated(disk, files) && DistinctPaths(files)
    requires forall w :: w in ws ==> OneStretch(g, files, w)
    requires InPiece(g, p) && AllWritten(Pieces(ws), p)
    ensures match ReadRaw(DiskRun(g, files, disk, ws), files, FileIndex(g, p), p.length)
            case Ok(data) =>
              |data| == p.length && forall i :: 0 <= i < |data| ==> Latest(g, ws, FileIndex(g, p) + i, data[i])
            case _ => false
  {
    LastWriteIsRead(g, files, disk, ws, p);
    var data := ReadRaw(DiskRun(g, files, disk, ws), files, FileIndex(g, p), p.length).value;
    forall i | 0 <= i < |data| ensures Latest(g, ws, FileIndex(g, p) + i, data[i]) {
      var x := FileIndex(g, p) + i;
      WrittenIsOverwritten(g, ws, p.index, p.begin + i);
      assert data[i] == LastWritten(g, ws, x, Flat(disk, files, 0)[x]);
      forall before: byte ensures LastWritten(g, ws, x, before) == data[i] {
        OriginalHidden(g, ws, x, before, Flat(disk, files, 0)[x]);
      }
    }
  }

  /** What `read_block` hands out after a run of block writes to an empty torrent: a block comes back exactly when all
      its bytes have been written, and then each byte is the one written there last, whatever was on disk before. */
  lemma {:induction false} ReadAfterRun(g: Geometry, files: seq<BTFile>, disk: Disk, ws: seq<BlockWrite>, p: Piece)
    requires SameSize(g, files) && Allocated(disk, files) && DistinctPaths(files)
    requires forall w :: w in ws ==> OneStretch(g, files, w)
    requires InPiece(g, p) && p.length > 0
    ensures InsertRun(g, Empty(g), Pieces(ws)).Ok?
    ensures var s := InsertRun(g, Empty(g), Pieces(ws)).value;
            match ReadOutcome(s, p, ReadRaw(DiskRun(g, files, disk, ws), files, FileIndex(g, p), p.length))
            case Ok(data) =>
              && AllWritten(Pieces(ws), p) && |data| == p.length
              && forall i :: 0 <= i < |data| ==> Latest(g, ws, FileIndex(g, p) + i, data[i])
            case Err => !AllWritten(Pieces(ws), p)
            case Panic => false
  {
    GateAfterRun(g, ws, p, ReadRaw(DiskRun(g, files, disk, ws), files, FileIndex(g, p), p.length));
    if AllWritten(Pieces(ws), p) {
      BytesAfterRun(g, files, disk, ws, p);
    }
  }

  /** Flat position x is byte y of file m. */
  ghost predicate At(files: seq<BTFile>, m: nat, y: nat, x: int) {
    m < |files| && y < files[m].length && Offset(files, m) + y == x
  }

  ghost function FileByte(disk: Disk, files: seq<BTFile>, m: nat, y: nat): byte
    requires Allocated(disk, files) && m < |files| && y < files[m].length
  {
    disk[files[m].path][y]
  }

  /** b is the byte that reached flat position x last, or the original one. */
  ghost predicate ReachedLast(g: Geometry, files: seq<BTFile>, disk: Disk, ws: seq<BlockWrite>, x: int, b: byte)
    requires Allocated(disk, files)
  {
    forall m: nat, y: nat :: At(files, m, y, x) ==> b == LastReaching(g, files, ws, m, y, FileByte(disk, files, m, y))
  }

  lemma {:induction false} FlatReached(g: Geometry, files: seq<BTFile>, disk: Disk, ws: seq<BlockWrite>, x: nat)
    requires Allocated(disk, files) && DistinctPaths(files) && x < Total(files, 0)
    ensures Allocated(DiskRun(g, files, disk, ws), files)
    ensures ReachedLast(g, files, disk, ws, x, Flat(DiskRun(g, files, disk, ws), files, 0)[x])
  {
    RunGrows(g, files, disk, ws);
    var disk' := DiskRun(g, files, disk, ws);
    forall m: nat, y: nat | At(files, m, y, x)
      ensures Flat(disk', files, 0)[x] == LastReaching(g, files, ws, m, y, FileByte(disk, files, m, y))
    {
      FlatIndex(disk', files, 0, m, y);
      RunFiles(g, files, disk, ws, m);
    }
  }

  lemma {:induction false} BytesReached(g: Geometry, files: seq<BTFile>, disk: Disk, ws: seq<BlockWrite>, p: Piece)
    requires SameSize(g, files) && Allocated(disk, files) && DistinctPaths(files) && InPiece(g, p)
    ensures match ReadRaw(DiskRun(g, files, disk, ws), files, FileIndex(g, p), p.length)
            case Ok(data) =>
              && |data| == p.length
              && forall i :: 0 <= i < |data| ==> ReachedLast(g, files, disk, ws, FileIndex(g, p) + i, data[i])
            case _ => false
  {
    BlockInside(g, files, p);
    RunGrows(g, files, disk, ws);
    var disk', x := DiskRun(g, files, disk, ws), FileIndex(g, p);
    ReadBlockIsSlice(disk', files, x, p.length);
    var data := ReadRaw(disk', files, x, p.length).value;
    forall i | 0 <= i < |data| ensures ReachedLast(g, files, disk, ws, x + i, data[i]) {
      assert data[i] == Flat(disk', files, 0)[x + i];
      FlatReached(g, files, disk, ws, x + i);
    }
  }

  /** The same whatever the blocks, on one stretch of file or not: what comes back for each place is the byte that
      reached it last, which may be one of another block. */
  lemma {:induction false} ReadAfterAnyRun(g: Geometry, files: seq<BTFile>, disk: Disk, ws: seq<BlockWrite>, p: Piece)
    requires SameSize(g, files) && Allocated(disk, files) && DistinctPaths(files)
    requires (forall w :: w in ws ==> Fitting(g, w)) && InPiece(g, p) && p.length > 0
    ensures InsertRun(g, Empty(g), Pieces(ws)).Ok?
    ensures var s := InsertRun(g, Empty(g), Pieces(ws)).value;
            match ReadOutcome(s, p, ReadRaw(DiskRun(g, files, disk, ws), files, FileIndex(g, p), p.length))
            case Ok(data) =>
              && AllWritten(Pieces(ws), p) && |data| == p.length
              && forall i :: 0 <= i < |data| ==> ReachedLast(g, files, disk, ws, FileIndex(g, p) + i, data[i])
            case Err => !AllWritten(Pieces(ws), p)
            case Panic => false
  {
    GateAfterRun(g, ws, p, ReadRaw(DiskRun(g, files, disk, ws), files, FileIndex(g, p), p.length));
    BytesReached(g, files, disk, ws, p);
  }

  // --------------------------------------------------------- files taken over

  /** Piece k as it stands in the files. */
  ghost function PieceBytes(g: Geometry, files: seq<BTFile>, disk: Disk, k: nat): seq<byte>
    requires SameSize(g, files) && Allocated(disk, files) && k < g.npieces
  {
    SizeIsMax(g, k);
    var p := Piece(k, 0, PieceSize(g, k));
    BlockInside(g, files, p);
    Flat(disk, files, 0)[FileIndex(g, p)..FileIndex(g, p) + p.length]
  }

  /** Piece k has its hash. */
  ghost predicate HashFits(g: Geometry, files: seq<BTFile>, disk: Disk, sameHash: (Piece, seq<byte>) -> bool, k: nat)
    requires SameSize(g, files) && Allocated(disk, files) && k < g.npieces
  {
    SizeIsMax(g, k);
    sameHash(Piece(k, 0, PieceSize(g, k)), PieceBytes(g, files, disk, k))
  }

  lemma {:induction false} PieceRead(g: Geometry, files: seq<BTFile>, disk: Disk, k: nat)
    requires SameSize(g, files) && Allocated(disk, files) && k < g.npieces
    ensures MaxLength(g, k) == Ok(PieceSize(g, k))
    ensures var p := Piece(k, 0, PieceSize(g, k));
            ReadOutcome(Initial(g.npieces, true), p, ReadRaw(disk, files, k * g.pieceLength, p.length))
            == Ok(PieceBytes(g, files, disk, k))
  {
    var p := Piece(k, 0, PieceSize(g, k));
    SizeIsMax(g, k);
    BlockInside(g, files, p);
    ReadBlockIsSlice(disk, files, FileIndex(g, p), p.length);
  }

  lemma {:induction false} PieceValid(g: Geometry, k: nat, sameHash: bool)
    requires Exact(g) && k < g.npieces
    ensures 0 <= PieceSize(g, k) < U32_LIMIT && ValidPiece(g, Piece(k, 0, PieceSize(g, k)), sameHash) == Ok(sameHash)
  {
    SizeIsMax(g, k);
  }

  /** Files taken over as downloaded are accepted exactly when every piece has its hash; otherwise they are refused,
      without a panic. */
  lemma {:induction false} VerifiedExactly(g: Geometry, files: seq<BTFile>, disk: Disk,
                                           sameHash: (Piece, seq<byte>) -> bool, k: nat)
    requires SameSize(g, files) && Allocated(disk, files) && k <= g.npieces
    ensures Verified(g, files, Initial(g.npieces, true), disk, sameHash, k)
            == if forall i :: k <= i < g.npieces ==> HashFits(g, files, disk, sameHash, i) then Ok(()) else Err
    decreases g.npieces - k
  {
    if k < g.npieces {
      PieceRead(g, files, disk, k);
      PieceValid(g, k, HashFits(g, files, disk, sameHash, k));
      VerifiedExactly(g, files, disk, sameHash, k + 1);
    }
  }
}
