/** The torrent object of src/bittorrent/torrent.rs: block bookkeeping and raw block I/O,
    each method proved against the functions of Blocks and FileMap. */
module TorrentObject {
  import opened Outcomes
  import opened Markers
  import opened Blocks
  import opened FileMap

  /** The files on disk. */
  class FileSystem {
    var files: Disk
  }

  /** `Vec::retain` with the test of `insert_piece`: drop the marks from `begin` to `end`. */
  function Retained(ms: seq<Marker>, begin: nat, end: nat): seq<Marker> {
    if ms == [] then []
    else (if ms[0].val < begin || ms[0].val > end then [ms[0]] else []) + Retained(ms[1..], begin, end)
  }

  lemma {:induction false} RetainedAll(ms: seq<Marker>, begin: nat, end: nat)
    requires forall i :: 0 <= i < |ms| ==> ms[i].val > end
    ensures Retained(ms, begin, end) == ms
    decreases |ms|
  {
    if ms != [] {
      RetainedAll(ms[1..], begin, end);
    }
  }

  /** All but the marks from the p-th to the q-th. */
  function Ends(ms: seq<Marker>, p: nat, q: nat): seq<Marker>
    requires p <= |ms| && q <= |ms|
  {
    ms[..p] + ms[q..]
  }

  /** What is retained is the marks before `begin` and the marks after `end`. */
  ghost predicate KeepsEnds(ms: seq<Marker>, begin: nat, end: nat) {
    Retained(ms, begin, end) == Ends(ms, Below(ms, begin), Below(ms, end + 1))
  }

  lemma {:induction false} KeepsLate(ms: seq<Marker>, begin: nat, end: nat)
    requires Increasing(ms) && begin <= end && (ms != [] ==> end < ms[0].val)
    ensures KeepsEnds(ms, begin, end)
  {
    RetainedAll(ms, begin, end);
    assert ms[..0] + ms[0..] == ms;
  }

  lemma {:induction false} KeepsHead(ms: seq<Marker>, begin: nat, end: nat)
    requires Increasing(ms) && ms != [] && begin <= end && ms[0].val <= end && KeepsEnds(ms[1..], begin, end)
    ensures KeepsEnds(ms, begin, end)
  {
    var tail := ms[1..];
    BelowTail(ms, begin);
    BelowTail(ms, end + 1);
    EndsOfHead(ms[0], tail, Below(tail, begin), Below(tail, end + 1));
    assert [ms[0]] + tail == ms;
  }

  lemma {:induction false} RetainedEnds(ms: seq<Marker>, begin: nat, end: nat)
    requires Increasing(ms) && begin <= end
    ensures KeepsEnds(ms, begin, end)
    decreases |ms|
  {
    if ms == [] || end < ms[0].val {
      KeepsLate(ms, begin, end);
    } else {
      RetainedEnds(ms[1..], begin, end);
      KeepsHead(ms, begin, end);
    }
  }

  lemma {:induction false} EndsOfHead(m: Marker, tail: seq<Marker>, p: nat, q: nat)
    requires p <= |tail| && q <= |tail|
    ensures Ends([m] + tail, p + 1, q + 1) == [m] + Ends(tail, p, q)
    ensures p == 0 ==> Ends([m] + tail, 0, q + 1) == [] + Ends(tail, p, q)
  {
    assert ([m] + tail)[q + 1..] == tail[q..] && ([m] + tail)[..p + 1] == [m] + tail[..p];
  }

  lemma {:induction false} BelowTail(ms: seq<Marker>, x: int)
    requires Increasing(ms) && ms != []
    ensures Increasing(ms[1..])
    ensures Below(ms, x) == if ms[0].val < x then 1 + Below(ms[1..], x) else 0
    ensures ms[0].val >= x ==> Below(ms[1..], x) == 0
  {
  }

  /** `read_block`, given what reading the files yields: an error unless the block is readable; the end of a
      block of an incomplete piece with marks is computed in 32 bits first. */
  ghost function ReadOutcome(s: Store, p: Piece, contents: Outcome<seq<byte>>): Outcome<seq<byte>> {
    if p.index < |s.bits| && !s.bits[p.index] && p.index in s.blocks && p.begin + p.length >= U32_LIMIT then Panic
    else if Readable(s, p) then contents
    else Err
  }

  /** `verify_files` from piece k on: every piece is read whole and its hash compared; the first that cannot be read
      or has another hash ends it. */
  ghost function Verified(g: Geometry, files: seq<BTFile>, s: Store, disk: Disk, sameHash: (Piece, seq<byte>) -> bool,
                          k: nat): Outcome<()>
    decreases g.npieces - k
  {
    if k >= g.npieces then Ok(())
    else match MaxLength(g, k)
      case Ok(length) =>
        (match ReadOutcome(s, Piece(k, 0, length), ReadRaw(disk, files, k * g.pieceLength, length))
         case Ok(data) =>
           (match ValidPiece(g, Piece(k, 0, length), sameHash(Piece(k, 0, length), data))
            case Ok(true) => Verified(g, files, s, disk, sameHash, k + 1)
            case Ok(false) => Err
            case _ => Panic)
         case Err => Err
         case Panic => Panic)
      case _ => Panic
  }

  /** A torrent just added, complete or empty. */
  function Initial(npieces: nat, downloaded: bool): (s: Store)
    ensures |s.bits| == npieces && (forall i :: 0 <= i < npieces ==> s.bits[i] == downloaded) && s.blocks == map[]
  {
    Store(seq(npieces, i => downloaded), map[])
  }

  class Torrent {
    const geo: Geometry
    const files: seq<BTFile>
    var bitfield: seq<bool>
    var blocks: map<u32, seq<Marker>>

    function State(): Store
      reads this
    {
      Store(bitfield, blocks)
    }

    ghost predicate Valid()
      reads this
    {
      Shaped(geo, State())
    }

    constructor (geo: Geometry, files: seq<BTFile>, downloaded: bool)
      ensures Valid() && this.geo == geo && this.files == files
      ensures State() == Initial(geo.npieces, downloaded)
    {
      this.geo := geo;
      this.files := files;
      bitfield := seq(geo.npieces, i => downloaded);
      blocks := map[];
    }

    /** `new`, once the metainfo has been read: a torrent said to be downloaded is refused unless its files verify. */
    static method Create(fs: FileSystem, geo: Geometry, files: seq<BTFile>, downloaded: bool,
                       sameHash: (Piece, seq<byte>) -> bool) returns (t: Torrent?, r: Outcome<()>)
      ensures r == if downloaded then Verified(geo, files, Initial(geo.npieces, true), fs.files, sameHash, 0)
                   else Ok(())
      ensures t != null <==> r == Ok(())
      ensures t != null ==>
                && fresh(t) && t.Valid() && t.geo == geo && t.files == files
                && t.State() == Initial(geo.npieces, downloaded)
    {
      var torrent := new Torrent(geo, files, downloaded);
      t, r := torrent, Ok(());
      if downloaded {
        r := torrent.VerifyFiles(fs, sameHash);
        if r != Ok(()) {
          t := null;
        }
      }
    }

    /** Reads every piece whole and compares its hash. */
    method VerifyFiles(fs: FileSystem, sameHash: (Piece, seq<byte>) -> bool) returns (r: Outcome<()>)
      requires Valid()
      ensures r == Verified(geo, files, State(), fs.files, sameHash, 0)
    {
      var i := 0;
      while i < geo.npieces
        invariant 0 <= i <= geo.npieces
        invariant Verified(geo, files, State(), fs.files, sameHash, 0)
                  == Verified(geo, files, State(), fs.files, sameHash, i)
      {
        var length := MaxLength(geo, i);
        if !length.Ok? {
          return Panic;
        }
        var piece := Piece(i, 0, length.value);
        var data := ReadBlock(fs, piece);
        if !data.Ok? {
          return if data.Err? then Err else Panic;
        }
        var valid := ValidPiece(geo, piece, sameHash(piece, data.value));
        if valid != Ok(true) {
          return if valid == Ok(false) then Err else Panic;
        }
        i := i + 1;
      }
      return Ok(());
    }

    /** Is the mark at `dlmarker` inside a held range? A range counts as (begin, end] for a
        begin mark and as [begin, end) for an end mark. */
    method InShaded(pieceIndex: u32, dlmarker: u32, begin: bool) returns (shaded: bool)
      requires pieceIndex in blocks && Normal(blocks[pieceIndex])
      ensures shaded <==> Covers(blocks[pieceIndex], if begin then dlmarker - 1 else dlmarker)
    {
      shaded := false;
      var vec := blocks[pieceIndex];
      ghost var x := if begin then dlmarker - 1 else dlmarker;
      var i := 0;
      ghost var p := 0;
      while i < |vec|
        invariant 0 <= i <= |vec| && p == i
        invariant i > 0 ==> vec[i - 1].val < dlmarker
        invariant shaded == Open(vec, i)
      {
        match vec[i] {
          case Begin(val) =>
            if val == dlmarker && begin {
              break;
            } else if val == dlmarker && !begin {
              shaded := true;
              p := i + 1;
              break;
            } else if val > dlmarker {
              break;
            }
            shaded := true;
          case End(val) =>
            if val == dlmarker && begin {
              break;
            } else if val == dlmarker && !begin {
              shaded := false;
              p := i + 1;
              break;
            } else if val > dlmarker {
              break;
            }
            shaded := false;
        }
        i := i + 1;
        p := i;
      }
      CoversOpen(vec, x, p);
    }

    /** Records that block `piece` has been downloaded. */
    method InsertPiece(piece: Piece) returns (r: Outcome<()>)
      requires Valid()
      modifies this
      ensures Valid()
      ensures match Blocks.InsertPiece(geo, old(State()), piece)
              case Ok(s) => r == Ok(()) && State() == s
              case _ => r == Panic && State() == old(State())
    {
      ghost var before := State();
      var max := MaxLength(geo, piece.index);
      if !max.Ok? {
        return Panic;
      }
      if piece.begin == 0 && piece.length == max.value {
        if |bitfield| <= piece.index {
          return Panic;
        }
        bitfield := bitfield[piece.index := true];
        blocks := blocks - {piece.index};
        InsertShaped(geo, before, piece, State());
      } else {
        var begin := piece.begin;
        var end := piece.begin + piece.length;
        if end >= U32_LIMIT {
          return Panic;
        }
        if begin == end {
          return Ok(());
        }
        InsertRange(piece.index, begin, end);
        InsertShaped(geo, before, piece, State());
      }
      return Ok(());
    }

    /** The second half of `insert_piece`: the range [begin, end) joins the marker list of the piece. */
    method InsertRange(index: u32, begin: u32, end: u32)
      requires Valid() && begin < end
      modifies this`blocks
      ensures State() == AddRange(old(State()), index, begin, end)
    {
      if index !in blocks {
        blocks := blocks[index := []];
      }
      var endShaded := InShaded(index, end, false);
      var beginShaded := InShaded(index, begin, true);
      var vec := EditMarks(blocks[index], begin, end, beginShaded, endShaded);
      blocks := blocks[index := vec];
    }

    /** Drops the marks from `begin` to `end` and puts in the new ones, where they are not inside a held range. */
    static method EditMarks(ms: seq<Marker>, begin: u32, end: u32, beginShaded: bool, endShaded: bool)
      returns (vec: seq<Marker>)
      requires Normal(ms) && begin < end
      requires beginShaded <==> Covers(ms, begin as int - 1)
      requires endShaded <==> Covers(ms, end)
      ensures vec == Inserted(ms, begin, end)
    {
      vec := Retained(ms, begin, end);
      RetainedEnds(ms, begin, end);
      var insert := PlaceOf(vec, begin);
      InsertionPlace(ms, begin, end, insert);
      if !endShaded {
        vec := vec[..insert] + [End(end)] + vec[insert..];
      }
      if !beginShaded {
        vec := vec[..insert] + [Begin(begin)] + vec[insert..];
      }
      EditIsInserted(ms, begin, end, beginShaded, endShaded);
    }

    /** Where to insert: before the next mark above `begin`. */
    static method PlaceOf(vec: seq<Marker>, begin: u32) returns (insert: nat)
      ensures insert <= |vec| && (insert < |vec| ==> vec[insert].val > begin)
      ensures forall k :: 0 <= k < insert ==> vec[k].val <= begin
    {
      insert := |vec|;
      var i := 0;
      while i < |vec|
        invariant 0 <= i <= |vec| && insert == |vec|
        invariant forall k :: 0 <= k < i ==> vec[k].val <= begin
      {
        if vec[i].val > begin {
          insert := i;
          break;
        }
        i := i + 1;
      }
    }

    /** The two optional insertions rebuild the list of `Inserted`. */
    static lemma {:induction false} EditIsInserted(ms: seq<Marker>, begin: u32, end: u32, beginShaded: bool,
                                                   endShaded: bool)
      requires Normal(ms) && begin < end
      requires beginShaded <==> Covers(ms, begin as int - 1)
      requires endShaded <==> Covers(ms, end)
      ensures var p := Below(ms, begin);
              var v0 := ms[..p] + ms[Below(ms, end + 1)..];
              var v1 := if endShaded then v0 else v0[..p] + [End(end)] + v0[p..];
              var v2 := if beginShaded then v1 else v1[..p] + [Begin(begin)] + v1[p..];
              v2 == Inserted(ms, begin, end)
    {
      var p, q := Below(ms, begin), Below(ms, end + 1);
      CoversOpen(ms, end, q);
      CoversOpen(ms, begin as int - 1, p);
      var a, b := ms[..p], ms[q..];
      InsertBetween(a, b, [End(end)]);
      InsertBetween(a, if endShaded then b else [End(end)] + b, [Begin(begin)]);
    }

    static lemma {:induction false} InsertBetween(a: seq<Marker>, b: seq<Marker>, m: seq<Marker>)
      ensures (a + b)[..|a|] + m + (a + b)[|a|..] == a + (m + b) == (a + m) + b
    {
    }

    /** The first retained mark above `begin` is the first one that followed the new range. */
    static lemma {:induction false} InsertionPlace(ms: seq<Marker>, begin: nat, end: nat, insert: nat)
      requires Increasing(ms) && begin < end
      requires var vec := ms[..Below(ms, begin)] + ms[Below(ms, end + 1)..];
               insert <= |vec| && (forall k :: 0 <= k < insert ==> vec[k].val <= begin)
               && (insert < |vec| ==> vec[insert].val > begin)
      ensures insert == Below(ms, begin)
    {
      var p, q := Below(ms, begin), Below(ms, end + 1);
      var vec := ms[..p] + ms[q..];
      assert forall k :: 0 <= k < p ==> vec[k] == ms[k] && vec[k].val < begin;
      assert p < |vec| ==> vec[p] == ms[q] && vec[p].val > begin;
    }

    /** Has all of the block been downloaded (into a piece that is not complete)? */
    method HaveBlock(piece: Piece) returns (r: Outcome<bool>)
      requires Valid()
      ensures r.Panic? <==> piece.index in blocks && piece.begin + piece.length >= U32_LIMIT
      ensures r.Panic? || r.Ok?
      ensures r.Ok? ==> (r.value <==> Contains(List(State(), piece.index), piece.begin, piece.begin + piece.length))
    {
      if piece.index !in blocks {
        return Ok(false);
      }
      var vec := blocks[piece.index];
      var inrange := false;
      var end := piece.begin + piece.length;
      if end >= U32_LIMIT {
        return Panic;
      }
      var begin := piece.begin;
      var i := 0;
      while i < |vec|
        invariant 0 <= i <= |vec|
        invariant inrange == Open(vec, i)
        invariant forall k :: 0 <= k < i ==> vec[k].val <= begin && (vec[k].End? ==> vec[k].val < begin)
      {
        match vec[i] {
          case Begin(val) =>
            if !inrange && val <= begin {
              inrange := true;
            } else if !inrange && val > begin {
              break;
            }
          case End(val) =>
            if inrange && val < end {
              inrange := false;
              if val >= begin {
                break;
              }
            } else if inrange && val >= end {
              break;
            }
        }
        i := i + 1;
      }
      if inrange {
        assert i < |vec| && vec[i - 1].val <= begin && end <= vec[i].val;
      }
      return Ok(inrange);
    }

    /** `Piece::file_index`: where the block starts in the files laid end to end. */
    function FileIndex(piece: Piece): nat {
      piece.begin + piece.index * geo.pieceLength
    }

    /** Maps a block to stretches of files; running off the list of files panics. */
    method MapFiles(piece: Piece) returns (r: Outcome<seq<FilePiece>>)
      ensures r == FileMap.MapFiles(files, FileIndex(piece), piece.length)
    {
      var total := 0;
      var index := FileIndex(piece);
      if |files| == 0 {
        return Panic;
      }
      var k: nat := 0;
      while total + files[k].length < index
        invariant k < |files| && 0 <= total <= index
        invariant total == Total(files, 0) - Total(files, k)
        invariant index <= Total(files, 0) ==> Locate(files, 0, index) == Locate(files, k, index - total)
        decreases |files| - k
      {
        assert Total(files, k) == files[k].length + Total(files, k + 1);
        total := total + files[k].length;
        k := k + 1;
        if k == |files| {
          return Panic;
        }
      }
      r := Apportion(piece, k, total, index);
    }

    /** The second loop of `map_files`: apportion the block from file k on. */
    method Apportion(piece: Piece, k0: nat, total0: nat, index0: nat) returns (r: Outcome<seq<FilePiece>>)
      requires k0 < |files| && total0 <= index0 <= total0 + files[k0].length
      ensures r == Apportioned(files, k0, index0 - total0, piece.length)
    {
      var vec := [];
      var k: nat, total, index := k0, total0, index0;
      var remaining: int := piece.length;
      ghost var all := Apportioned(files, k0, index0 - total0, piece.length);
      assert all.Ok? ==> [] + all.value == all.value;
      while remaining > 0
        invariant 0 <= remaining && k < |files| && total <= index <= total + files[k].length
        invariant all == After(vec, Apportioned(files, k, index - total, remaining))
        decreases |files| - k
      {
        var indexInFile := index - total;
        var load := Min(remaining, files[k].length - indexInFile);
        ApportionStep(files, k, indexInFile, remaining, vec);
        remaining := remaining - load;
        total := total + files[k].length;
        index := index + load;
        vec := vec + [FilePiece(files[k].path, indexInFile, load)];
        if remaining == 0 {
          return Ok(vec);
        }
        k := k + 1;
        if k == |files| {
          return Panic;
        }
      }
      ApportionStep(files, k, index - total, remaining, vec);
      return Ok(vec);
    }

    /** Writes the block to disk as the source does, the whole buffer to every segment, and records it. */
    method WriteBlockRaw(fs: FileSystem, piece: Piece, data: seq<byte>) returns (r: Outcome<()>)
      requires Valid()
      modifies this, fs
      ensures Valid()
      ensures match FileMap.MapFiles(files, FileIndex(piece), piece.length)
              case Ok(segs) =>
                && fs.files == WriteAll(old(fs.files), segs, SameChunks(segs, data))
                && (match Blocks.InsertPiece(geo, old(State()), piece)
                    case Ok(s) => r == Ok(()) && State() == s
                    case _ => r == Panic && State() == old(State()))
              case _ => r == Panic && fs.files == old(fs.files) && State() == old(State())
    {
      var mapped := MapFiles(piece);
      if !mapped.Ok? {
        return Panic;
      }
      WriteSegments(fs, mapped.value, data);
      r := InsertPiece(piece);
    }

    /** The writing loop: the whole buffer, at the start of every segment. */
    static method WriteSegments(fs: FileSystem, segs: seq<FilePiece>, data: seq<byte>)
      modifies fs
      ensures fs.files == WriteAll(old(fs.files), segs, SameChunks(segs, data))
    {
      var i := 0;
      WriteFromFirst(fs.files, segs, data);
      while i < |segs|
        invariant 0 <= i <= |segs|
        invariant WriteFrom(fs.files, segs, i, data) == WriteAll(old(fs.files), segs, SameChunks(segs, data))
      {
        var path := segs[i].path;
        ghost var disk := fs.files;
        if path !in fs.files {
          fs.files := fs.files[path := []];
        }
        fs.files := fs.files[path := WriteAt(fs.files[path], segs[i].begin, data)];
        assert fs.files == disk[path := WriteAt(Contents(disk, path), segs[i].begin, data)];
        WriteFromNext(disk, segs, i, data);
        i := i + 1;
      }
    }

    /** The disk once the segments from the i-th on have been written. */
    static ghost function WriteFrom(disk: Disk, segs: seq<FilePiece>, i: nat, data: seq<byte>): Disk
      requires i <= |segs|
    {
      WriteAll(disk, segs[i..], SameChunks(segs[i..], data))
    }

    static lemma {:induction false} WriteFromFirst(disk: Disk, segs: seq<FilePiece>, data: seq<byte>)
      ensures WriteFrom(disk, segs, 0, data) == WriteAll(disk, segs, SameChunks(segs, data))
    {
      assert segs[0..] == segs;
    }

    static lemma {:induction false} WriteFromNext(disk: Disk, segs: seq<FilePiece>, i: nat, data: seq<byte>)
      requires i < |segs|
      ensures WriteFrom(disk, segs, i, data)
              == WriteFrom(disk[segs[i].path := WriteAt(Contents(disk, segs[i].path), segs[i].begin, data)],
                           segs, i + 1, data)
    {
      TailChunks(segs[i..], data);
      assert segs[i..][1..] == segs[i + 1..];
    }

    /** Reads the bytes of a block from disk, segment after segment. */
    method ReadBlockRaw(fs: FileSystem, piece: Piece) returns (r: Outcome<seq<byte>>)
      ensures r == ReadRaw(fs.files, files, FileIndex(piece), piece.length)
    {
      var vec := [];
      var mapped := MapFiles(piece);
      if !mapped.Ok? {
        return Panic;
      }
      var segs := mapped.value;
      var i := 0;
      PrependTwice([], [], ReadSegments(fs.files, segs));
      assert segs[0..] == segs;
      while i < |segs|
        invariant 0 <= i <= |segs|
        invariant ReadSegments(fs.files, segs) == Prepend(vec, ReadSegments(fs.files, segs[i..]))
      {
        assert segs[i..][1..] == segs[i + 1..];
        var seg := segs[i];
        if seg.path !in fs.files {
          return Err;
        }
        var c := fs.files[seg.path];
        if seg.length > 0 {
          if |c| < seg.begin + seg.length {
            return Err;
          }
        }
        var buf := if seg.length == 0 then [] else c[seg.begin..seg.begin + seg.length];
        PrependTwice(vec, buf, ReadSegments(fs.files, segs[i + 1..]));
        vec := vec + buf;
        i := i + 1;
      }
      PrependTwice(vec, [], Ok([]));
      return Ok(vec);
    }

    /** Reads a block after checking that it has been downloaded. */
    method ReadBlock(fs: FileSystem, piece: Piece) returns (r: Outcome<seq<byte>>)
      requires Valid()
      ensures r == ReadOutcome(State(), piece, ReadRaw(fs.files, files, FileIndex(piece), piece.length))
    {
      if piece.index < |bitfield| {
        var have := bitfield[piece.index];
        if !have {
          var scan := HaveBlock(piece);
          if !scan.Ok? {
            return Panic;
          }
          have := scan.value;
        }
        if have {
          r := ReadBlockRaw(fs, piece);
        } else {
          return Err;
        }
      } else {
        return Err;
      }
    }
  }
}
