/** Progress and status of a torrent, and the object that ties its parts together
    (src/bittorrent/torrent_runtime.rs, and `downloaded` and `remaining` of torrent.rs). */
module Runtime {
  import opened Outcomes
  import opened Blocks
  import opened FileMap
  import opened TorrentObject
  import opened PieceQueues
  import opened Rates
  import opened Scheduler

  datatype Status = Paused | Running | Complete

  // ----------------------------------------------------------------- progress

  function CountSet(bits: seq<bool>): (n: nat)
    ensures n <= |bits|
  {
    if bits == [] then 0 else (if bits[0] then 1 else 0) + CountSet(bits[1..])
  }

  /** `downloaded`: bytes of the complete pieces. */
  function Downloaded(g: Geometry, bits: seq<bool>): Outcome<nat> {
    if bits == [] then Panic
    else match LastPieceLength(g)
      case Ok(last) =>
        Ok((if bits[|bits| - 1] then last else 0) + CountSet(bits[..|bits| - 1]) * g.pieceLength)
      case _ => Panic
  }

  /** `remaining`, in unsigned arithmetic. */
  function Remaining(g: Geometry, bits: seq<bool>): Outcome<nat> {
    match Downloaded(g, bits)
    case Ok(dl) => if dl <= g.totalSize then Ok(g.totalSize - dl) else Panic
    case _ => Panic
  }

  /** The pieces cover the files and the last one is not empty. */
  ghost predicate Good(g: Geometry) {
    && g.npieces >= 1
    && (g.npieces - 1) * g.pieceLength < g.totalSize <= g.npieces * g.pieceLength
    && g.pieceLength < U32_LIMIT
  }

  ghost predicate AllSet(bits: seq<bool>) {
    forall i :: 0 <= i < |bits| ==> bits[i]
  }

  /** Bytes of the pieces from k on whose bit is clear. */
  ghost function Missing(g: Geometry, bits: seq<bool>, k: nat): int
    requires k <= |bits|
    decreases |bits| - k
  {
    if k == |bits| then 0 else (if bits[k] then 0 else PieceSize(g, k)) + Missing(g, bits, k + 1)
  }

  lemma {:induction false} Distribute(a: int, b: int, p: int)
    ensures (a + b) * p == a * p + b * p
  {
  }

  lemma {:induction false} LastSize(g: Geometry)
    requires Good(g)
    ensures 0 < PieceSize(g, g.npieces - 1) <= g.pieceLength
    ensures LastPieceLength(g) == Ok(PieceSize(g, g.npieces - 1))
  {
    Distribute(g.npieces - 1, 1, g.pieceLength);
  }

  lemma {:induction false} MissingFull(g: Geometry, bits: seq<bool>, k: nat)
    requires Good(g) && |bits| == g.npieces && k < |bits|
    ensures Missing(g, bits, k) + CountSet(bits[k..|bits| - 1]) * g.pieceLength
            == (|bits| - 1 - k) * g.pieceLength + if bits[|bits| - 1] then 0 else PieceSize(g, g.npieces - 1)
    decreases |bits| - k
  {
    var tail := bits[k..|bits| - 1];
    if k == |bits| - 1 {
      assert tail == [];
      assert Missing(g, bits, k + 1) == 0;
    } else {
      MissingFull(g, bits, k + 1);
      assert tail[1..] == bits[k + 1..|bits| - 1];
      Distribute(if bits[k] then 1 else 0, CountSet(tail[1..]), g.pieceLength);
      Distribute(1, |bits| - 2 - k, g.pieceLength);
    }
  }

  lemma {:induction false} MissingZero(g: Geometry, bits: seq<bool>, k: nat)
    requires Good(g) && |bits| == g.npieces && k <= |bits|
    ensures Missing(g, bits, k) >= 0
    ensures Missing(g, bits, k) == 0 <==> forall i :: k <= i < |bits| ==> bits[i]
    decreases |bits| - k
  {
    if k < |bits| {
      MissingZero(g, bits, k + 1);
      LastSize(g);
    }
  }

  /** `remaining` never underflows: it is the number of bytes of the pieces still missing, and
      it is 0 exactly when every bit is set. */
  lemma {:induction false} RemainingExactly(g: Geometry, bits: seq<bool>)
    requires Good(g) && |bits| == g.npieces
    ensures Remaining(g, bits).Ok? && Remaining(g, bits).value == Missing(g, bits, 0)
    ensures Remaining(g, bits) == Ok(0) <==> AllSet(bits)
  {
    LastSize(g);
    MissingFull(g, bits, 0);
    MissingZero(g, bits, 0);
    assert bits[0..|bits| - 1] == bits[..|bits| - 1];
  }

  // ----------------------------------------------------------- the status machine

  /** `pause`: the new status, and whether it changed. A resumed torrent is complete or running. */
  function PauseResult(status: Status, done: bool, pause: bool): (Status, bool) {
    if pause then (if status != Paused then (Paused, true) else (status, false))
    else if status == Paused then (if done then (Complete, true) else (Running, true))
    else (status, false)
  }

  /** A torrent marked complete has nothing remaining. */
  ghost predicate Truthful(g: Geometry, bits: seq<bool>, status: Status) {
    status == Complete ==> AllSet(bits)
  }

  /** `write_block`, given the comparison of the hashes: an error for an invalid block, a panic where the block runs
      past the files or `insert_piece` panics. */
  function WriteOutcome(g: Geometry, files: seq<BTFile>, s: Store, piece: Piece, sameHash: bool): Outcome<()> {
    match ValidPiece(g, piece, sameHash)
    case Ok(false) => Err
    case Ok(true) =>
      if MapFiles(files, piece.begin + piece.index * g.pieceLength, piece.length).Ok? && InsertPiece(g, s, piece).Ok?
      then Ok(()) else Panic
    case _ => Panic
  }

  /** The queue stands for these counts, and a change by d leaves the count of a queued piece at least 0. */
  ghost predicate Allows(q: Queue, count: nat -> int, i: nat, d: int) {
    Refines(q, count) && (i in q.prio ==> count(i) + d >= 0)
  }

  class TorrentRuntime {
    const torrent: Torrent
    const pieceQueue: PieceQueue
    const dlRate: Rate
    const ulRate: Rate
    var outstanding: seq<Request>
    var status: Status

    ghost predicate Valid()
      reads this, torrent, pieceQueue, dlRate, ulRate
    {
      && Good(torrent.geo)
      && torrent.Valid() && dlRate.Valid() && ulRate.Valid() && dlRate != ulRate
      && Truthful(torrent.geo, torrent.bitfield, status)
    }

    function Scheduled(): Sched
      reads this, pieceQueue
    {
      Sched(pieceQueue.State(), outstanding)
    }

    constructor (torrent: Torrent, downloaded: bool)
      requires torrent.Valid() && Good(torrent.geo) && torrent.State() == Initial(torrent.geo.npieces, downloaded)
      ensures Valid() && fresh(pieceQueue) && fresh(dlRate) && fresh(ulRate) && this.torrent == torrent
      ensures Scheduled() == Sched(NewQueue(torrent.geo.npieces), [])
      ensures status == if downloaded then Complete else Running
    {
      outstanding := [];
      status := if downloaded then Complete else Running;
      pieceQueue := new PieceQueue(torrent.geo.npieces);
      this.torrent := torrent;
      dlRate := new Rate();
      ulRate := new Rate();
    }

    /** A torrent added: one said to be downloaded is taken over, as complete, only when its files verify. */
    static method Create(fs: FileSystem, geo: Geometry, files: seq<BTFile>, downloaded: bool,
                       sameHash: (Piece, seq<byte>) -> bool) returns (rt: TorrentRuntime?, r: Outcome<()>)
      requires Good(geo)
      ensures r == if downloaded then Verified(geo, files, Initial(geo.npieces, true), fs.files, sameHash, 0)
                   else Ok(())
      ensures rt != null <==> r == Ok(())
      ensures rt != null ==>
                && fresh(rt) && rt.Valid() && rt.torrent.geo == geo && rt.torrent.files == files
                && rt.torrent.State() == Initial(geo.npieces, downloaded)
                && rt.Scheduled() == Sched(NewQueue(geo.npieces), [])
                && rt.status == if downloaded then Complete else Running
    {
      var torrent: Torrent?;
      torrent, r := Torrent.Create(fs, geo, files, downloaded, sameHash);
      rt := null;
      if torrent != null {
        rt := new TorrentRuntime(torrent, downloaded);
      }
    }

    method Pause(pause: bool) returns (changed: bool)
      requires Valid()
      modifies this`status
      ensures Valid()
      ensures (status, changed) == PauseResult(old(status), Remaining(torrent.geo, torrent.bitfield) == Ok(0), pause)
    {
      RemainingExactly(torrent.geo, torrent.bitfield);
      if pause {
        if status != Paused {
          status := Paused;
          changed := true;
        } else {
          changed := false;
        }
      } else {
        if status == Paused {
          if Remaining(torrent.geo, torrent.bitfield) == Ok(0) {
            status := Complete;
          } else {
            status := Running;
          }
          changed := true;
        } else {
          changed := false;
        }
      }
    }

    /** Marks a finished torrent complete; an error unless it is running and nothing remains. */
    method SetComplete() returns (r: Outcome<()>)
      requires Valid()
      modifies this`status
      ensures Valid()
      ensures r == if AllSet(torrent.bitfield) && old(status) == Running then Ok(()) else Err
      ensures status == if r.Ok? then Complete else old(status)
    {
      RemainingExactly(torrent.geo, torrent.bitfield);
      if Remaining(torrent.geo, torrent.bitfield) == Ok(0) {
        if status == Running {
          status := Complete;
          return Ok(());
        }
      }
      return Err;
    }

    method RemoveRequest(piece: Piece)
      modifies this`outstanding
      ensures outstanding == Without(old(outstanding), piece)
    {
      outstanding := Without(outstanding, piece);
    }

    /** Forgets the request, then checks, writes and counts the block. */
    method WriteBlock(fs: FileSystem, piece: Piece, data: seq<byte>, sameHash: bool, now: nat) returns (r: Outcome<()>)
      requires Valid() && dlRate.clock <= now
      modifies this`outstanding, torrent, fs, dlRate
      ensures Valid()
      ensures outstanding == Without(old(outstanding), piece)
      ensures ValidPiece(torrent.geo, piece, sameHash) == Ok(false) ==>
                && r == Err && torrent.State() == old(torrent.State()) && fs.files == old(fs.files)
      ensures ValidPiece(torrent.geo, piece, sameHash) != Ok(false) ==>
                match MapFiles(torrent.files, torrent.FileIndex(piece), piece.length)
                case Ok(segs) =>
                  && fs.files == WriteAll(old(fs.files), segs, SameChunks(segs, data))
                  && (match InsertPiece(torrent.geo, old(torrent.State()), piece)
                      case Ok(s) => r == Ok(()) && torrent.State() == s
                      case _ => r == Panic && torrent.State() == old(torrent.State()))
                case _ => r == Panic && fs.files == old(fs.files) && torrent.State() == old(torrent.State())
      ensures r == WriteOutcome(torrent.geo, torrent.files, old(torrent.State()), piece, sameHash)
      ensures dlRate.History() == old(dlRate.History()) + if r.Ok? then [(now, piece.length)] else []
      ensures forall i :: 0 <= i < |old(torrent.bitfield)| && old(torrent.bitfield)[i] ==>
                i < |torrent.bitfield| && torrent.bitfield[i]
    {
      ghost var before := torrent.State();
      RemoveRequest(piece);
      LastSize(torrent.geo);
      var valid := ValidPiece(torrent.geo, piece, sameHash);
      if valid == Ok(false) {
        return Err;
      }
      r := torrent.WriteBlockRaw(fs, piece, data);
      if r.Ok? {
        InsertBits(torrent.geo, before, piece, torrent.State());
        dlRate.Update(now, piece.length);
      }
    }

    method ReadBlock(fs: FileSystem, piece: Piece, now: nat) returns (r: Outcome<seq<byte>>)
      requires Valid() && ulRate.clock <= now
      modifies ulRate
      ensures Valid()
      ensures r == ReadOutcome(torrent.State(), piece,
                               ReadRaw(fs.files, torrent.files, torrent.FileIndex(piece), piece.length))
      ensures ulRate.History() == old(ulRate.History()) + if r.Ok? then [(now, piece.length)] else []
    {
      r := torrent.ReadBlock(fs, piece);
      if r.Ok? {
        ulRate.Update(now, piece.length);
      }
    }

    /** d more peers hold the piece: whatever the counts the queue stands for, it stands for the new ones afterwards,
        without a panic, unless the count of a queued piece goes below zero. */
    method UpdatePriority(index: nat, d: int) returns (r: Outcome<()>)
      modifies pieceQueue
      ensures match Update(old(pieceQueue.State()), index, d)
              case Ok(q) => r == Ok(()) && pieceQueue.State() == q
              case _ => r == Panic && pieceQueue.State() == old(pieceQueue.State())
      ensures forall count :: Allows(old(pieceQueue.State()), count, index, d) ==>
                r == Ok(()) && Refines(pieceQueue.State(), Counted(count, index, d))
    {
      ghost var before := pieceQueue.State();
      r := pieceQueue.ChangePriority(index, d);
      forall count | Allows(before, count, index, d)
        ensures Update(before, index, d).Ok? && Refines(Update(before, index, d).value, Counted(count, index, d))
      {
        UpdateRefines(before, count, index, d, Counted(count, index, d));
      }
    }

    /** Selects the next piece to request. */
    method SelectPiece(now: nat) returns (r: Option<Piece>)
      requires Exact(torrent.geo) && forall i :: i in pieceQueue.queue ==> i < torrent.geo.npieces
      modifies this`outstanding, pieceQueue
      ensures Select(torrent.geo, old(Scheduled()), now, r, Scheduled())
    {
      if outstanding != [] {
        var front := outstanding[0];
        outstanding := outstanding[1..];
        if now - front.time >= READ_TIMEOUT {
          return Some(front.piece);
        } else {
          outstanding := [front] + outstanding;
        }
      }
      var popped := pieceQueue.Pop();
      match popped {
        case Some((index, _)) =>
          SizeIsMax(torrent.geo, index);
          var piece := DefaultPiece(torrent.geo, index).value;
          outstanding := outstanding + [Request(piece, now)];
          return Some(piece);
        case None =>
          return None;
      }
    }
  }
}
