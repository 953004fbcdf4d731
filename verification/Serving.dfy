/** Which messages stop a worker: a block asked for or sent, a change of what the peer offers, and the torrent the
    worker finds (src/bittorrent/manager.rs, `handle_read`; torrent.rs, `read_block` and `write_block`). */
module Serving {
  import opened Outcomes
  import opened Markers
  import opened Blocks
  import opened FileMap
  import opened TorrentObject
  import opened Runtime
  import opened Storage
  import opened Wire
  import opened Protocol
  import PieceQueues

  /** A torrent with its files and its piece queue. */
  datatype Kept = Kept(g: Geometry, files: seq<BTFile>, store: Store, disk: Disk, queue: PieceQueues.Queue)

  /** Where the torrent ends, seen from the beginning of piece i. */
  function TorrentLimit(g: Geometry): nat -> int {
    (i: nat) => g.totalSize - i * g.pieceLength
  }

  /** The marks of a piece do not go past the end of the torrent. They may go past the end of the piece: a valid block
      with a bogus `begin` is accepted as long as it ends within the files. */
  ghost predicate WithinTorrent(g: Geometry, s: Store) {
    Limited(s, TorrentLimit(g))
  }

  /** Sizes agree, and the lists of marks are well formed and end within the torrent. */
  ghost predicate Sound(t: Kept) {
    SameSize(t.g, t.files) && Shaped(t.g, t.store) && WithinTorrent(t.g, t.store)
  }

  /** Any comparison of hashes. */
  type Hashes = (Piece, seq<byte>) -> bool

  /** The world of a worker whose torrent is t. */
  ghost function Finds(t: Kept, sameHash: Hashes, counterFits: bool): World {
    World(true, counterFits, t.queue,
          q => ReadOutcome(t.store, q, ReadRaw(t.disk, t.files, FileIndex(t.g, q), q.length)),
          (q, data) => WriteOutcome(t.g, t.files, t.store, q, sameHash(q, data)))
  }

  // ------------------------------------------------- torrents stay sound

  /** A block written with success leaves the torrent sound. */
  lemma {:induction false} WriteKeepsSound(t: Kept, q: Piece, sameHash: bool)
    requires Sound(t) && WriteOutcome(t.g, t.files, t.store, q, sameHash) == Ok(())
    ensures InsertPiece(t.g, t.store, q).Ok? && Sound(t.(store := InsertPiece(t.g, t.store, q).value))
  {
    WrittenFits(t, q, sameHash);
    var c := Decide(t.g, |t.store.bits|, q).value;
    AppliedLimited(t.store, q, c, TorrentLimit(t.g), Blocks.Apply(t.store, q, c));
    InsertShaped(t.g, t.store, q, InsertPiece(t.g, t.store, q).value);
  }

  lemma {:induction false} WrittenFits(t: Kept, q: Piece, sameHash: bool)
    requires SameSize(t.g, t.files) && WriteOutcome(t.g, t.files, t.store, q, sameHash) == Ok(())
    ensures InsertPiece(t.g, t.store, q).Ok? && q.begin + q.length <= TorrentLimit(t.g)(q.index)
  {
  }

  /** The store after offering blocks one after the other; refused ones change nothing, a panic ends it. */
  function Offered(t: Kept, qs: seq<(Piece, bool)>): Outcome<Store>
    decreases |qs|
  {
    if qs == [] then Ok(t.store)
    else match WriteOutcome(t.g, t.files, t.store, qs[0].0, qs[0].1)
      case Ok(_) =>
        (match InsertPiece(t.g, t.store, qs[0].0)
         case Ok(s) => Offered(t.(store := s), qs[1..])
         case _ => Panic)
      case Err => Offered(t, qs[1..])
      case Panic => Panic
  }

  /** Whatever blocks are offered, valid or not, to a torrent complete or empty at first: as long as none panics the
      torrent is sound. */
  lemma {:induction false} OfferedSound(t: Kept, qs: seq<(Piece, bool)>)
    requires Sound(t)
    ensures match Offered(t, qs) case Ok(s) => Sound(t.(store := s)) case Err => false case Panic => true
    decreases |qs|
  {
    if qs != [] {
      var outcome := WriteOutcome(t.g, t.files, t.store, qs[0].0, qs[0].1);
      if outcome == Ok(()) {
        WriteKeepsSound(t, qs[0].0, qs[0].1);
        OfferedSound(t.(store := InsertPiece(t.g, t.store, qs[0].0).value), qs[1..]);
      } else if outcome.Err? {
        OfferedSound(t, qs[1..]);
      }
    }
  }

  lemma {:induction false} NewSound(t: Kept, downloaded: bool)
    requires SameSize(t.g, t.files) && t.store == Initial(t.g.npieces, downloaded)
    ensures Sound(t)
  {
  }

  /** Marks past the end of their piece: two bytes at offset 1 of the first of two pieces of two bytes are accepted. */
  lemma {:induction false} MarksPastPiece(disk: Disk, queue: PieceQueues.Queue)
    ensures var t := Kept(Geometry(2, 2, 4), [BTFile("a", 4)], Initial(2, false), disk, queue);
            && Sound(t) && WriteOutcome(t.g, t.files, t.store, Piece(0, 1, 2), true) == Ok(())
            && InsertPiece(t.g, t.store, Piece(0, 1, 2)).Ok?
            && !Inside(t.g, InsertPiece(t.g, t.store, Piece(0, 1, 2)).value)
  {
    var t := Kept(Geometry(2, 2, 4), [BTFile("a", 4)], Initial(2, false), disk, queue);
    assert Total(t.files, 1) == 0 && Total(t.files, 0) == 4;
    var s := InsertPiece(t.g, t.store, Piece(0, 1, 2)).value;
    assert s.blocks[0] == Inserted([], 1, 3);
    InsertedCovers([], 1, 3, 2);
    if Inside(t.g, s) {
      CoversInside(s.blocks[0], 2, 2);
    }
  }

  // ----------------------------------------------------------------- requests

  /** A request that `read_block` panics at: of a complete piece, past the end of the files; or of a piece partly
      there, with an end beyond 32 bits. */
  predicate BadRequest(t: Kept, q: Piece) {
    && q.index < |t.store.bits|
    && (if t.store.bits[q.index] then FileIndex(t.g, q) + q.length > t.g.totalSize
        else q.index in t.store.blocks && q.begin + q.length >= U32_LIMIT)
  }

  /** A block held within one interval lies within the files. */
  lemma {:induction false} HeldInside(t: Kept, q: Piece)
    requires Sound(t) && Contains(List(t.store, q.index), q.begin, q.begin + q.length)
    ensures FileIndex(t.g, q) + q.length <= t.g.totalSize
  {
  }

  lemma {:induction false} ReadPanics(t: Kept, q: Piece)
    requires Sound(t)
    ensures ReadOutcome(t.store, q, ReadRaw(t.disk, t.files, FileIndex(t.g, q), q.length)).Panic? <==> BadRequest(t, q)
  {
    if Contains(List(t.store, q.index), q.begin, q.begin + q.length) {
      HeldInside(t, q);
    }
  }

  /** A request stops the worker exactly when it, or one still waiting with it, is a bad one; nothing is reported
      either way. */
  lemma {:induction false} RequestStops(t: Kept, p: PeerState, q: Piece, extra: seq<byte>, sameHash: Hashes,
                                        counterFits: bool)
    requires Sound(t)
    ensures HandleRead(p, RequestMessage(q) + extra, Finds(t, sameHash, counterFits))
            == Reading(p.(time := 0, requests := []), [],
                       if exists x :: x in p.requests + [q] && BadRequest(t, x) then Dead else Continue, t.queue)
  {
    RequestParsed(p, q, extra);
    forall x ensures Finds(t, sameHash, counterFits).read(x).Panic? <==> BadRequest(t, x) {
      ReadPanics(t, x);
    }
  }

  // ------------------------------------------------------------------- blocks

  /** A block that `write_block` panics at although it is valid: its `begin` puts it past the end of the files, or its
      end beyond 32 bits. */
  predicate BadBlock(t: Kept, q: Piece, sameHash: bool) {
    && ValidPiece(t.g, q, sameHash) == Ok(true)
    && (FileIndex(t.g, q) + q.length > t.g.totalSize
        || (q.begin + q.length >= U32_LIMIT && !(q.begin == 0 && Ok(q.length) == MaxLength(t.g, q.index))))
  }

  lemma {:induction false} WritePanics(t: Kept, q: Piece, sameHash: bool)
    requires SameSize(t.g, t.files) && |t.store.bits| == t.g.npieces
    ensures WriteOutcome(t.g, t.files, t.store, q, sameHash).Panic? <==> BadBlock(t, q, sameHash)
  {
    SizeIsMax(t.g, t.g.npieces - 1);
    if q.index < t.g.npieces {
      SizeIsMax(t.g, q.index);
    }
  }

  /** A block sent stops the worker exactly when the counter of downloaded bytes overflows or it is a bad block. */
  lemma {:induction false} BlockStops(t: Kept, p: PeerState, q: Piece, data: seq<byte>, extra: seq<byte>,
                                      sameHash: Hashes, counterFits: bool)
    requires SameSize(t.g, t.files) && |t.store.bits| == t.g.npieces
    requires 13 + |data| < U32_LIMIT && |data| == q.length
    ensures HandleRead(p, PieceMessage(q, data) + extra, Finds(t, sameHash, counterFits)).fate
            == if !counterFits || BadBlock(t, q, sameHash(q, data)) then Dead else Continue
  {
    PieceParsed(p, q, data, extra);
    WritePanics(t, q, sameHash(q, data));
    assert Piece(q.index, q.begin, |data|) == q;
  }

  // --------------------------------------------------------- the piece queue

  /** A peer that closes, or chokes us, while a piece it has is queued with no holder counted stops the worker without a
      report; every other change of priorities goes through, and is reported. */
  lemma {:induction false} QueueStops(t: Kept, count: nat -> int, p: PeerState, msg: seq<byte>, sameHash: Hashes,
                                      counterFits: bool)
    requires PieceQueues.Refines(t.queue, count)
    ensures var (p', action) := ParseMessage(p, msg);
            Takes(p, msg, Finds(t, sameHash, counterFits))
            <==> (AdjustmentFor(p', action) == AllPieces(-1) ==>
                    !PieceQueues.Unheld(t.queue, count, p'.bitfield, 0))
  {
    var (p', action) := ParseMessage(p, msg);
    match AdjustmentFor(p', action)
    case AllPieces(d) =>
      assert d == 1 || d == -1;
      PieceQueues.UpdateAllExactly(t.queue, count, p'.bitfield, d);
    case OnePiece(i) => PieceQueues.PanicExactly(t.queue, count, i, 1);
    case NoPiece =>
  }

  /** Closing the connection: what comes of the empty message. */
  lemma {:induction false} CloseStops(t: Kept, count: nat -> int, p: PeerState, sameHash: Hashes, counterFits: bool)
    requires PieceQueues.Refines(t.queue, count)
    ensures var r := HandleRead(p, [], Finds(t, sameHash, counterFits));
            if p.peerChoking && PieceQueues.Unheld(t.queue, count, p.bitfield, 0) then
              r.fate == Dead && r.sent == []
            else
              r.fate == Fate.End && r.sent == [Disconnect]
  {
    EofExactly(p, []);
    PieceQueues.UpdateAllExactly(t.queue, count, p.bitfield, -1);
  }

  // ----------------------------------------------------------------- examples

  /** A torrent of a single byte, there or not. */
  function OneByte(have: bool): Kept {
    Kept(Geometry(1, 1, 1), [BTFile("a", 1)], Store([have], map[]), map["a" := [7]], PieceQueues.NewQueue(1))
  }

  lemma {:induction false} OneByteSound(have: bool)
    ensures Sound(OneByte(have))
  {
    var files := OneByte(have).files;
    assert Total(files, 1) == 0 && Total(files, 0) == 1;
  }

  lemma {:induction false} RequestAlone(t: Kept, p: PeerState, q: Piece, sameHash: Hashes)
    requires Sound(t) && BadRequest(t, q)
    ensures HandleRead(p, RequestMessage(q), Finds(t, sameHash, true)).fate == Dead
  {
    RequestStops(t, p, q, [], sameHash, true);
    assert (p.requests + [q])[|p.requests|] == q;
    assert RequestMessage(q) + [] == RequestMessage(q);
  }

  lemma {:induction false} BlockAlone(t: Kept, p: PeerState, q: Piece, data: seq<byte>, sameHash: Hashes)
    requires Sound(t) && 13 + |data| < U32_LIMIT && |data| == q.length && BadBlock(t, q, sameHash(q, data))
    ensures HandleRead(p, PieceMessage(q, data), Finds(t, sameHash, true)).fate == Dead
  {
    BlockStops(t, p, q, data, [], sameHash, true);
    assert PieceMessage(q, data) + [] == PieceMessage(q, data);
  }

  /** Two bytes asked of a complete torrent of one byte stop the worker. */
  lemma {:induction false} LongRequestStops(p: PeerState, sameHash: Hashes) returns (t: Kept, q: Piece)
    ensures t == OneByte(true) && q == Piece(0, 0, 2) && Sound(t)
    ensures HandleRead(p, RequestMessage(q), Finds(t, sameHash, true)).fate == Dead
  {
    t, q := OneByte(true), Piece(0, 0, 2);
    OneByteSound(true);
    RequestAlone(t, p, q, sameHash);
  }

  /** So does a valid one-byte block that claims to begin after the end. */
  lemma {:induction false} LateBlockStops(p: PeerState, data: seq<byte>, sameHash: Hashes) returns (t: Kept, q: Piece)
    requires |data| == 1 && sameHash(Piece(0, 1, 1), data)
    ensures t == OneByte(false) && q == Piece(0, 1, 1) && Sound(t)
    ensures HandleRead(p, PieceMessage(q, data), Finds(t, sameHash, true)).fate == Dead
  {
    t, q := OneByte(false), Piece(0, 1, 1);
    OneByteSound(false);
    BlockAlone(t, p, q, data, sameHash);
  }
}
