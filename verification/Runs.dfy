/** Runs of the step system that happen. */
module PeerRuns {
  import opened Outcomes
  import opened Wire
  import opened Peers
  import opened Protocol
  import opened ControllerState
  import opened PeerSystem
  import PieceQueues

  /** A torrent with its piece queue; nothing comes of blocks. */
  function Quiet(queue: PieceQueues.Queue): World {
    World(true, true, queue, q => Err, (q, data) => Err)
  }

  function Calmest(): World {
    Quiet(PieceQueues.NewQueue(0))
  }

  /** A peer connected and taken over, with nothing said yet. */
  ghost predicate Joined(np: Pieces, s: System, id: Hash, h: Hash) {
    && h in s.torrents && s.pending == [] && id in s.workers && s.workers[id] == NewWorker(h, np(h))
    && id in s.ctl.peers && s.ctl.peers[id] == [] && id in s.ctl.priority && s.ctl.priority[id] == NewPriority(h)
  }

  lemma {:induction false} JoinedRun(np: Pieces, id: Hash, h: Hash) returns (states: seq<System>, steps: seq<Step>)
    ensures Run(np, states, steps) && |steps| == 3 && Joined(np, states[3], id, h)
  {
    var s0 := System({}, 0, [], map[], Ctl(map[], map[], map[]));
    var s1 := s0.(torrents := s0.torrents + {h});
    var worker := NewWorker(h, np(h));
    var s2 := s1.(npeers := 1, pending := [] + [NewPeerMsg(id, h, [])], workers := s1.workers[id := worker]);
    var c2 := s2.ctl;
    var s3 := s2.(pending := s2.pending[1..],
                  ctl := Ctl(c2.peers[id := []], c2.bitfields[id := NoBits(np(h))],
                             c2.priority[id := NewPriority(h)]));
    states := [s0, s1, s2, s3];
    steps := [AddTorrent(h), Connect(id, h), Register];
  }

  /** The system after a message is read. */
  function AfterMessage(s: System, id: Hash, msg: seq<byte>, world: World): System
    requires id in s.workers
  {
    var w := s.workers[id];
    var sent := HandleRead(w.peer, msg, world).sent;
    s.(pending := SendPending(s.pending, id, sent),
       workers := s.workers[id := AfterRead(w, msg, world)],
       ctl := s.ctl.(peers := SendPeers(s.ctl.peers, id, sent)))
  }

  lemma {:induction false} ReadOn(np: Pieces, states: seq<System>, steps: seq<Step>, id: Hash, msg: seq<byte>,
                                  world: World)
    returns (states': seq<System>, steps': seq<Step>)
    requires Run(np, states, steps)
    requires var s := states[|steps|];
             && id in s.workers && s.workers[id].alive
             && (world.present <==> s.workers[id].infoHash in s.torrents)
    ensures states' == states + [AfterMessage(states[|steps|], id, msg, world)]
    ensures steps' == steps + [Read(id, msg, world)]
    ensures Run(np, states', steps')
  {
    states', steps' := RunOn(np, states, steps, Read(id, msg, world), AfterMessage(states[|steps|], id, msg, world));
  }

  /** A peer connects, is taken over, unchokes us, and the controller records it. */
  lemma {:induction false} UnchokedRun(np: Pieces, id: Hash, h: Hash) returns (states: seq<System>, steps: seq<Step>)
    ensures Run(np, states, steps) && |steps| == 5
    ensures var s := states[5];
            id in s.ctl.peers && s.ctl.peers[id] == [] && id in s.ctl.priority && !s.ctl.priority[id].choking
  {
    states, steps := JoinedRun(np, id, h);
    var s3, msg := states[3], ChokeMessage(false);
    UnchokeSent(s3.workers[id].peer, msg);
    states, steps := ReadOn(np, states, steps, id, msg, Calmest());
    var s4 := states[4];
    assert s4.ctl.peers[id] == [ChokingFlip];
    var s5 := s4.(ctl := Taken(s4.ctl, id).(priority := s4.ctl.priority[id := s4.ctl.priority[id].FlipChoking()]));
    states, steps := RunOn(np, states, steps, Deliver(id), s5);
  }

  lemma {:induction false} UnchokeSent(p: PeerState, msg: seq<byte>)
    requires p.peerChoking && msg == ChokeMessage(false)
    ensures HandleRead(p, msg, Calmest()).sent == [ChokingFlip]
  {
    ChokeParsed(p, false, []);
    assert msg + [] == msg;
    PieceQueues.UpdateAllExactly(PieceQueues.NewQueue(0), j => 0, p.bitfield, 1);
  }

  /** An ordinary visit: while the piece queue is fresh, a peer connects, is taken over, says which pieces it has, which
      is not counted while it chokes us, and closes, which is uncounted. The worker stops by a panic and the peer stays
      registered. */
  lemma {:induction false} AbandonedRun(np: Pieces, id: Hash, h: Hash, bits: seq<bool>)
    returns (states: seq<System>, steps: seq<Step>)
    requires |bits| == np(h) && true in bits && 1 + |ToBytes(bits)| < U32_LIMIT
    ensures Run(np, states, steps) && |steps| == 5 && LeftBehind(states[5], id)
    ensures var world := Quiet(PieceQueues.NewQueue(np(h)));
            steps[3] == Read(id, BitfieldMessage(bits), world) && steps[4] == Read(id, [], world)
  {
    states, steps := JoinedRun(np, id, h);
    var world, msg := Quiet(PieceQueues.NewQueue(np(h))), BitfieldMessage(bits);
    states, steps := OfferOn(np, states, steps, id, h, bits, msg, world);
    states, steps := CloseOn(np, states, steps, id, h, bits, world);
  }

  lemma {:induction false} OfferOn(np: Pieces, states: seq<System>, steps: seq<Step>, id: Hash, h: Hash,
                                   bits: seq<bool>,
                                   msg: seq<byte>, world: World)
    returns (states': seq<System>, steps': seq<Step>)
    requires Run(np, states, steps) && Joined(np, states[|steps|], id, h) && world.present
    requires bits != [] && |bits| == np(h) && 1 + |ToBytes(bits)| < U32_LIMIT && msg == BitfieldMessage(bits)
    ensures Run(np, states', steps') && steps' == steps + [Read(id, msg, world)]
    ensures Offering(states'[|steps'|], id, h, bits)
  {
    AfterOffer(np, states[|steps|], id, h, bits, msg, world);
    states', steps' := ReadOn(np, states, steps, id, msg, world);
  }

  lemma {:induction false} CloseOn(np: Pieces, states: seq<System>, steps: seq<Step>, id: Hash, h: Hash,
                                   bits: seq<bool>,
                                   world: World)
    returns (states': seq<System>, steps': seq<Step>)
    requires Run(np, states, steps) && Offering(states[|steps|], id, h, bits)
    requires true in bits && world == Quiet(PieceQueues.NewQueue(|bits|))
    ensures Run(np, states', steps') && steps' == steps + [Read(id, [], world)] && LeftBehind(states'[|steps'|], id)
  {
    AfterClose(states[|steps|], id, h, bits, world);
    states', steps' := ReadOn(np, states, steps, id, [], world);
  }

  /** A peer that has said which pieces it has, and chokes us. */
  ghost predicate Offering(s: System, id: Hash, h: Hash, bits: seq<bool>) {
    && h in s.torrents && id in s.ctl.peers && id in s.workers && s.workers[id].infoHash == h
    && s.workers[id].alive && !s.workers[id].said
    && s.workers[id].peer.bitfield == bits && s.workers[id].peer.peerChoking
  }

  lemma {:induction false} AfterOffer(np: Pieces, s: System, id: Hash, h: Hash, bits: seq<bool>, msg: seq<byte>,
                                      world: World)
    requires Joined(np, s, id, h) && bits != [] && |bits| == np(h) && 1 + |ToBytes(bits)| < U32_LIMIT
    requires msg == BitfieldMessage(bits)
    ensures Offering(AfterMessage(s, id, msg, world), id, h, bits)
  {
    var p := Offer(s.workers[id].peer, bits, msg, world);
  }

  lemma {:induction false} AfterClose(s: System, id: Hash, h: Hash, bits: seq<bool>, world: World)
    requires Offering(s, id, h, bits) && true in bits && world == Quiet(PieceQueues.NewQueue(|bits|))
    ensures LeftBehind(AfterMessage(s, id, [], world), id)
  {
    CloseUncounted(s.workers[id].peer, world);
  }

  lemma {:induction false} Offer(p: PeerState, bits: seq<bool>, msg: seq<byte>, world: World) returns (p': PeerState)
    requires bits != [] && p == NewPeer(|bits|) && 1 + |ToBytes(bits)| < U32_LIMIT && msg == BitfieldMessage(bits)
    ensures var r := HandleRead(p, msg, world); r.peer == p' && r.fate == Continue && !Farewell(p, msg, world)
    ensures p'.bitfield == bits && p'.peerChoking
  {
    BitfieldParsed(p, bits, []);
    assert msg + [] == msg;
    assert Union(p.bitfield, bits) == bits;
    p' := p.(time := 0, bitfield := bits);
    OfferHandled(p, p', bits, msg, world);
  }

  lemma {:induction false} OfferHandled(p: PeerState, p': PeerState, bits: seq<bool>, msg: seq<byte>, world: World)
    requires ParseMessage(p, msg) == (p', Ok(Bitfield(bits))) && p'.peerChoking && msg != []
    ensures HandleRead(p, msg, world) == Reading(p', [BitfieldKnown(bits)], Continue, world.queue)
  {
  }

  lemma {:induction false} CloseUncounted(p: PeerState, world: World)
    requires true in p.bitfield && p.peerChoking && world == Quiet(PieceQueues.NewQueue(|p.bitfield|))
    ensures HandleRead(p, [], world).fate == Dead && HandleRead(p, [], world).sent == [] && !Farewell(p, [], world)
  {
    var q, none: nat -> int := PieceQueues.NewQueue(|p.bitfield|), j => 0;
    EofExactly(p, []);
    var i :| 0 <= i < |p.bitfield| && p.bitfield[i];
    assert i in PieceQueues.Indices(|p.bitfield|);
    PieceQueues.UpdateAllExactly(q, none, p.bitfield, -1);
    assert PieceQueues.Unheld(q, none, p.bitfield, 0);
  }

  /** n peers with the ids 0, ..., n-1 have connected. */
  ghost predicate Crowd(s: System, h: Hash, n: nat) {
    && h in s.torrents && s.npeers == |s.pending| == n && s.ctl == Ctl(map[], map[], map[])
    && forall id: Hash :: id in s.workers <==> id < n
  }

  /** Admission lets peers in one after the other up to MAX_PEERS + 1. */
  lemma {:induction false} CrowdedRun(np: Pieces, h: Hash, n: nat) returns (states: seq<System>, steps: seq<Step>)
    requires n <= MAX_PEERS + 1
    ensures Run(np, states, steps) && |steps| == n + 1 && Crowd(states[n + 1], h, n)
    decreases n
  {
    if n == 0 {
      var s0 := System({}, 0, [], map[], Ctl(map[], map[], map[]));
      var s1 := s0.(torrents := s0.torrents + {h});
      states, steps := RunOn(np, [s0], [], AddTorrent(h), s1);
    } else {
      states, steps := CrowdedRun(np, h, n - 1);
      var s := states[n];
      var s' := OneMore(np, s, h, n - 1);
      states, steps := RunOn(np, states, steps, Connect(n - 1, h), s');
    }
  }

  lemma {:induction false} OneMore(np: Pieces, s: System, h: Hash, n: nat) returns (s': System)
    requires Crowd(s, h, n) && n <= MAX_PEERS
    ensures Connected(np, s, n, h, s') && Crowd(s', h, n + 1)
  {
    s' := s.(npeers := s.npeers + 1, pending := s.pending + [NewPeerMsg(n, h, [])],
             workers := s.workers[n := NewWorker(h, np(h))]);
  }

  lemma {:induction false} RunOn(np: Pieces, states: seq<System>, steps: seq<Step>, step: Step, s': System)
    returns (states': seq<System>, steps': seq<Step>)
    requires Run(np, states, steps) && Next(np, states[|steps|], step, s')
    ensures states' == states + [s'] && steps' == steps + [step] && Run(np, states', steps')
  {
    states', steps' := states + [s'], steps + [step];
    forall k {:trigger steps'[k]} | 0 <= k < |steps'| ensures Next(np, states'[k], steps'[k], states'[k + 1]) {
      if k < |steps| {
        StepAt(np, states, steps, k);
      }
    }
  }

  /** A run with one peer more than MAX_PEERS; no step lets in another one. */
  lemma {:induction false} FullHouse(np: Pieces, h: Hash) returns (states: seq<System>, steps: seq<Step>)
    ensures Run(np, states, steps) && states[|steps|].npeers == MAX_PEERS + 1
    ensures forall step, s' :: Next(np, states[|steps|], step, s') ==> s'.npeers <= MAX_PEERS + 1
  {
    states, steps := CrowdedRun(np, h, MAX_PEERS + 1);
    RunInv(np, states, steps, |steps|);
    forall step, s' | Next(np, states[|steps|], step, s') ensures s'.npeers <= MAX_PEERS + 1 {
      NextKeeps(np, states[|steps|], step, s');
    }
  }
}
