/** The messages between the connection workers and the controller (src/bittorrent/manager.rs):
    workers report what they learn about their peer; the controller replays the reports. */
module Protocol {
  import opened Outcomes
  import opened Blocks
  import opened Wire
  import PieceQueues

  datatype PeerUpdate =
    | DownloadSpeed(speed: nat)
    | InterestedFlip
    | ChokingFlip
    | HavePiece(index: u32)
    | Downloaded(index: u32)
    | BitfieldKnown(bits: seq<bool>)
    | Disconnect

  // ------------------------------------------------------------------ reports

  /** The part of a peer's state that both sides keep. */
  datatype View = View(choking: bool, interested: bool, bits: seq<bool>)

  function ViewOf(p: PeerState): View {
    View(p.peerChoking, p.peerInterested, p.bitfield)
  }

  function FreshView(npieces: nat): View {
    ViewOf(NewPeer(npieces))
  }

  /** One report applied to the controller's record of the peer; a bad index or length panics. */
  function Apply(v: View, u: PeerUpdate): Outcome<View> {
    match u
    case InterestedFlip => Ok(v.(interested := !v.interested))
    case ChokingFlip => Ok(v.(choking := !v.choking))
    case HavePiece(i) => if i < |v.bits| then Ok(v.(bits := v.bits[i := true])) else Panic
    case BitfieldKnown(bits) => if |bits| == |v.bits| then Ok(v.(bits := Union(v.bits, bits))) else Panic
    case _ => Ok(v)
  }

  function Replay(v: View, us: seq<PeerUpdate>): Outcome<View>
    decreases |us|
  {
    if us == [] then Ok(v)
    else
      var v' :- Apply(v, us[0]);
      Replay(v', us[1..])
  }

  lemma {:induction false} ReplayAppend(v: View, us: seq<PeerUpdate>, more: seq<PeerUpdate>)
    requires Replay(v, us).Ok?
    ensures Replay(v, us + more) == Replay(Replay(v, us).value, more)
    decreases |us|
  {
    if us == [] {
      assert us + more == more;
    } else {
      assert (us + more)[1..] == us[1..] + more;
      ReplayAppend(Apply(v, us[0]).value, us[1..], more);
    }
  }

  /** a has every bit of b. */
  ghost predicate Covers(a: seq<bool>, b: seq<bool>) {
    |a| == |b| && forall i :: 0 <= i < |b| && b[i] ==> a[i]
  }

  // ------------------------------------------------------------------- worker

  datatype Fate = Continue | End | Dead

  /** What a connection does with one message: new peer state, reports sent, whether it goes on, and the torrent's
      piece queue afterwards (of no account after a panic). */
  datatype Reading = Reading(peer: PeerState, sent: seq<PeerUpdate>, fate: Fate, queue: PieceQueues.Queue)

  /** The rest of the world as the worker finds it: is the torrent still there, does the counter of downloaded bytes
      still fit, the torrent's piece queue, and what comes of reading and writing blocks. */
  datatype World = World(
    present: bool,
    counterFits: bool,
    queue: PieceQueues.Queue,
    read: Piece -> Outcome<seq<byte>>,
    write: (Piece, seq<byte>) -> Outcome<()>)

  /** How a message changes the priorities: of all pieces the peer has, of one piece, or not. */
  datatype Adjustment = AllPieces(d: int) | OnePiece(i: nat) | NoPiece

  function Adjusted(q: PieceQueues.Queue, bits: seq<bool>, a: Adjustment): Outcome<PieceQueues.Queue> {
    match a
    case AllPieces(d) => PieceQueues.UpdateAll(q, bits, d)
    case OnePiece(i) => PieceQueues.Update(q, i, 1)
    case NoPiece => Ok(q)
  }

  /** The change made for an action, with the peer as it now is. */
  function AdjustmentFor(p: PeerState, action: Outcome<Action>): Adjustment {
    match action
    case Ok(Eof) => if p.peerChoking then AllPieces(-1) else NoPiece
    case Ok(ChokingChange) => AllPieces(if p.peerChoking then -1 else 1)
    case Ok(Have(i)) => if p.peerChoking then OnePiece(i) else NoPiece
    case Ok(Bitfield(_)) => if p.peerChoking then NoPiece else AllPieces(1)
    case _ => NoPiece
  }

  /** The piece queue takes the change a message asks for, without a panic. */
  predicate Takes(p: PeerState, msg: seq<byte>, w: World) {
    var (p', action) := ParseMessage(p, msg);
    Adjusted(w.queue, p'.bitfield, AdjustmentFor(p', action)).Ok?
  }

  /** Serving the blocks one after the other comes to a panic. */
  function ServingPanics(read: Piece -> Outcome<seq<byte>>, pieces: seq<Piece>): (r: bool)
    ensures r <==> exists q :: q in pieces && read(q).Panic?
  {
    if pieces == [] then false
    else
      assert pieces == [pieces[0]] + pieces[1..];
      read(pieces[0]).Panic? || ServingPanics(read, pieces[1..])
  }

  /** Reporting to the controller, after the change of priorities. */
  function Report(p: PeerState, w: World, a: Adjustment, u: PeerUpdate, fate: Fate): Reading {
    if a != NoPiece && !w.present then Reading(p, [], End, w.queue)
    else match Adjusted(w.queue, p.bitfield, a)
      case Ok(q) => Reading(p, [u], fate, q)
      case _ => Reading(p, [], Dead, w.queue)
  }

  /** `handle_read`. */
  function HandleRead(p: PeerState, msg: seq<byte>, w: World): Reading {
    var (p', action) := ParseMessage(p, msg);
    React(p', action, w)
  }

  /** What comes of an action, with the peer as it now is. */
  function React(p': PeerState, action: Outcome<Action>, w: World): Reading {
    var a := AdjustmentFor(p', action);
    match action
    case Panic => Reading(p', [], Dead, w.queue)
    case Err => Reading(p', [], Continue, w.queue)
    case Ok(Eof) => Report(p', w, a, Disconnect, End)
    case Ok(Request(pieces)) =>
      if !w.present then Reading(p', [], End, w.queue)
      else Reading(p', [], if ServingPanics(w.read, pieces) then Dead else Continue, w.queue)
    case Ok(Write(piece, data)) =>
      if !w.counterFits then Reading(p', [], Dead, w.queue)
      else if !w.present then Reading(p', [], End, w.queue)
      else (match w.write(piece, data)
            case Ok(_) => Reading(p', [Downloaded(piece.index)], Continue, w.queue)
            case Err => Reading(p', [], Continue, w.queue)
            case Panic => Reading(p', [], Dead, w.queue))
    case Ok(InterestedChange) => Reading(p', [InterestedFlip], Continue, w.queue)
    case Ok(ChokingChange) => Report(p', w, a, ChokingFlip, Continue)
    case Ok(Have(i)) => Report(p', w, a, HavePiece(i), Continue)
    case Ok(Bitfield(bits)) => Report(p', w, a, BitfieldKnown(bits), Continue)
    case Ok(NoAction) => Reading(p', [], Continue, w.queue)
  }

  /** The reports of one reading, replayed on the state before it, give the state after it, unless the worker stops:
      without the torrent, or by a panic of the piece queue, it may stop before it reports. Then only its own record
      has changed. */
  lemma {:induction false} ReadingReported(p: PeerState, msg: seq<byte>, w: World)
    ensures var r := HandleRead(p, msg, w);
            && Replay(ViewOf(p), r.sent).Ok?
            && Covers(r.peer.bitfield, p.bitfield)
            && (w.present && Takes(p, msg, w) ==> Replay(ViewOf(p), r.sent) == Ok(ViewOf(r.peer)))
            && (r.fate == Continue ==> Replay(ViewOf(p), r.sent) == Ok(ViewOf(r.peer)))
  {
    var r := HandleRead(p, msg, w);
    SentIsChange(p, msg, w);
    if r.sent != [] {
      OneReport(ViewOf(p), r.sent[0]);
    }
  }

  /** What is sent is nothing or the one report that tells the change. */
  lemma {:induction false} SentIsChange(p: PeerState, msg: seq<byte>, w: World)
    ensures var r := HandleRead(p, msg, w);
            && Covers(r.peer.bitfield, p.bitfield)
            && (if r.sent != [] then r.sent == [r.sent[0]] && Apply(ViewOf(p), r.sent[0]) == Ok(ViewOf(r.peer))
                else r.fate == Continue || (w.present && Takes(p, msg, w)) ==> ViewOf(r.peer) == ViewOf(p))
  {
    ParsedChange(p, msg);
    var (p', action) := ParseMessage(p, msg);
    Reacted(p, p', action, w);
  }

  lemma {:induction false} Reacted(p: PeerState, p': PeerState, action: Outcome<Action>, w: World)
    requires Explains(p, p', action)
    ensures var r := React(p', action, w);
            && r.peer == p'
            && (if r.sent != [] then r.sent == [r.sent[0]] && Apply(ViewOf(p), r.sent[0]) == Ok(ViewOf(p'))
                else r.fate == Continue
                     || (w.present && Adjusted(w.queue, p'.bitfield, AdjustmentFor(p', action)).Ok?)
                     ==> ViewOf(p') == ViewOf(p))
  {
  }

  lemma {:induction false} OneReport(v: View, u: PeerUpdate)
    ensures Replay(v, [u]) == Apply(v, u)
  {
    assert [u][1..] == [];
  }

  /** The empty message, in a world in which the worker gets as far as reporting it. */
  predicate Farewell(p: PeerState, msg: seq<byte>, w: World) {
    msg == [] && (p.peerChoking ==> w.present && PieceQueues.UpdateAll(w.queue, p.bitfield, -1).Ok?)
  }

  /** A disconnection is reported exactly on such a message, alone, and the worker stops. */
  lemma {:induction false} FarewellExactly(p: PeerState, msg: seq<byte>, w: World)
    ensures var r := HandleRead(p, msg, w);
            && (Disconnect in r.sent <==> Farewell(p, msg, w))
            && (Disconnect in r.sent ==> r.sent == [Disconnect] && r.fate == End)
            && (forall u :: u in r.sent ==> !u.DownloadSpeed?)
            && |r.sent| <= 1
  {
    EofExactly(p, msg);
  }

  lemma {:induction false} EofExactly(p: PeerState, msg: seq<byte>)
    ensures ParseMessage(p, msg).1 == Ok(Eof) <==> msg == []
    ensures msg == [] ==> ParseMessage(p, msg).0 == p
  {
  }

  /** The action tells exactly how the peer's view has changed. */
  ghost predicate Explains(p: PeerState, p': PeerState, a: Outcome<Action>) {
    && Covers(p'.bitfield, p.bitfield)
    && ViewOf(p') == Shown(p, a)
    && (a.Ok? && a.value.Have? ==> a.value.index < |p.bitfield|)
    && (a.Ok? && a.value.Bitfield? ==>
          |a.value.bits| == |p.bitfield| && Union(p.bitfield, a.value.bits) == a.value.bits)
  }

  /** The view an action shows, after the state p. */
  function Shown(p: PeerState, a: Outcome<Action>): View {
    match a
    case Ok(InterestedChange) => ViewOf(p).(interested := !p.peerInterested)
    case Ok(ChokingChange) => ViewOf(p).(choking := !p.peerChoking)
    case Ok(Have(i)) => if i < |p.bitfield| then ViewOf(p).(bits := p.bitfield[i := true]) else ViewOf(p)
    case Ok(Bitfield(bits)) => ViewOf(p).(bits := bits)
    case _ => ViewOf(p)
  }

  lemma {:induction false} BitfieldExplained(p: PeerState, bytes: seq<byte>)
    ensures var (p', a) := ParseBitfield(p, bytes); Explains(p, p', a)
  {
    if bytes != [] {
      var bf := CreateBitfield(bytes, SpareBits(|p.bitfield|));
      if |bf| == |p.bitfield| {
        assert Union(p.bitfield, Union(p.bitfield, bf)) == Union(p.bitfield, bf);
      }
    }
  }

  lemma {:induction false} HaveExplained(p: PeerState, index: u32)
    ensures var (p', a) := ParseHave(p, index); Explains(p, p', a)
  {
  }

  lemma {:induction false} DispatchExplained(p: PeerState, msg: seq<byte>, len: nat)
    requires len > 0 && 4 + len <= |msg|
    ensures var (p', a) := Dispatch(p, msg, len); Explains(p, p', a)
  {
    if msg[4] == 4 && |msg| >= 9 {
      HaveExplained(p, ReadBe32(msg, 5));
    } else if msg[4] == 5 {
      BitfieldExplained(p, msg[5..4 + len]);
    }
  }

  /** The action reported for a message tells exactly how the peer's view has changed. */
  lemma {:induction false} ParsedChange(p: PeerState, msg: seq<byte>)
    ensures var (p', a) := ParseMessage(p, msg); Explains(p, p', a)
  {
    if |msg| >= 4 {
      var len := ReadBe32(msg, 0);
      if 0 < len <= |msg| - 4 {
        DispatchExplained(p.(time := 0), msg, len);
      }
    }
  }
}
