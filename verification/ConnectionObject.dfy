/** The connection object of src/bittorrent/manager.rs: one message read, the peer updated in place,
    the reports put on the channel to the controller. */
module ConnectionObject {
  import opened Outcomes
  import opened Blocks
  import opened PeerObject
  import opened Protocol
  import PieceQueues

  class Connection {
    const peer: Peer
    var comm: seq<PeerUpdate>

    constructor (peer: Peer)
      ensures this.peer == peer && comm == []
    {
      this.peer := peer;
      comm := [];
    }

    /** Reads one message. The reports put on the channel, replayed on what was known of the peer, give what is known
        now, unless the worker stops before it reports. */
    method HandleMessage(buf: seq<byte>, w: World) returns (fate: Fate, queue: PieceQueues.Queue)
      modifies this`comm, peer
      ensures var r := HandleRead(old(peer.State()), buf, w);
              peer.State() == r.peer && comm == old(comm) + r.sent && fate == r.fate && queue == r.queue
      ensures fate == Continue || (w.present && Takes(old(peer.State()), buf, w)) ==>
                Replay(ViewOf(old(peer.State())), comm[|old(comm)|..]) == Ok(ViewOf(peer.State()))
    {
      ghost var before, sent := peer.State(), comm;
      fate, queue := Act(buf, w);
      ReadingReported(before, buf, w);
      assert comm[|sent|..] == HandleRead(before, buf, w).sent;
    }

    /** The branches of `handle_read`. */
    method Act(buf: seq<byte>, w: World) returns (fate: Fate, queue: PieceQueues.Queue)
      modifies this`comm, peer
      ensures var r := HandleRead(old(peer.State()), buf, w);
              peer.State() == r.peer && comm == old(comm) + r.sent && fate == r.fate && queue == r.queue
    {
      queue := w.queue;
      var action := peer.ParseMessage(buf);
      if action.Panic? {
        return Dead, queue;
      }
      if action.Err? {
        return Continue, queue;
      }
      match action.value {
        case Eof =>
          fate, queue := Tell(w, if peer.peerChoking then AllPieces(-1) else NoPiece, Disconnect, End);
        case Request(pieces) =>
          if !w.present {
            return End, queue;
          }
          fate := Serve(w, pieces);
        case Write(piece, data) =>
          if !w.counterFits {
            return Dead, queue;
          }
          if !w.present {
            return End, queue;
          }
          var outcome := w.write(piece, data);
          if outcome.Panic? {
            return Dead, queue;
          }
          if outcome.Ok? {
            comm := comm + [Downloaded(piece.index)];
          }
          return Continue, queue;
        case InterestedChange =>
          comm := comm + [InterestedFlip];
          return Continue, queue;
        case ChokingChange =>
          fate, queue := Tell(w, AllPieces(if peer.peerChoking then -1 else 1), ChokingFlip, Continue);
        case Have(index) =>
          fate, queue := Tell(w, if peer.peerChoking then OnePiece(index) else NoPiece, HavePiece(index), Continue);
        case Bitfield(bits) =>
          fate, queue := Tell(w, if peer.peerChoking then NoPiece else AllPieces(1), BitfieldKnown(bits), Continue);
        case NoAction =>
          return Continue, queue;
      }
    }

    /** The loop over the requests of a message. */
    method Serve(w: World, pieces: seq<Piece>) returns (fate: Fate)
      ensures fate == if exists q :: q in pieces && w.read(q).Panic? then Dead else Continue
    {
      var i := 0;
      while i < |pieces|
        invariant 0 <= i <= |pieces|
        invariant forall k :: 0 <= k < i ==> !w.read(pieces[k]).Panic?
      {
        if w.read(pieces[i]).Panic? {
          return Dead;
        }
        i := i + 1;
      }
      return Continue;
    }

    /** Changes the priorities, then reports. */
    method Tell(w: World, a: Adjustment, u: PeerUpdate, next: Fate) returns (fate: Fate, queue: PieceQueues.Queue)
      modifies this`comm
      ensures var r := Report(peer.State(), w, a, u, next);
              comm == old(comm) + r.sent && fate == r.fate && queue == r.queue
    {
      queue := w.queue;
      if a != NoPiece && !w.present {
        return End, queue;
      }
      var changed;
      match a {
        case AllPieces(d) => changed := UpdatePriorityAll(w.queue, peer.bitfield, d);
        case OnePiece(i) => changed := PieceQueues.Update(w.queue, i, 1);
        case NoPiece => changed := Ok(w.queue);
      }
      if !changed.Ok? {
        return Dead, queue;
      }
      comm := comm + [u];
      return next, changed.value;
    }

    /** `update_priority_all`: one piece after the other, of those the peer has. */
    static method UpdatePriorityAll(q: PieceQueues.Queue, bits: seq<bool>, d: int)
      returns (r: Outcome<PieceQueues.Queue>)
      ensures r == PieceQueues.UpdateAll(q, bits, d)
    {
      var now := q;
      var i := 0;
      while i < |bits|
        invariant 0 <= i <= |bits|
        invariant PieceQueues.UpdateAll(q, bits, d) == PieceQueues.UpdateFrom(now, bits, d, i)
      {
        if bits[i] {
          var changed := PieceQueues.Update(now, i, d);
          if !changed.Ok? {
            return Panic;
          }
          now := changed.value;
        }
        i := i + 1;
      }
      return Ok(now);
    }
  }
}
