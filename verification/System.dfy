/** Controller and workers together, as a step system with one queue of reports per peer
    (src/bittorrent/manager.rs). The metainfo, and so the number of pieces, is fixed by a torrent's hash. */
module PeerSystem {
  import opened Outcomes
  import opened Wire
  import opened Peers
  import opened Protocol
  import opened ControllerState
  import PieceQueues

  const MAX_PEERS := PieceQueues.MAX_PEERS

  /** A connection: its peer record, what its reports so far add up to, and whether it still runs. `cut` marks a
      worker that stopped at a message when its torrent had been removed or the piece queue panicked, `said` one that
      stopped at an empty message it could report. */
  datatype Worker = Worker(infoHash: Hash, peer: PeerState, told: View, alive: bool, cut: bool, said: bool)

  function NewWorker(h: Hash, npieces: nat): Worker {
    Worker(h, NewPeer(npieces), FreshView(npieces), true, false, false)
  }

  datatype System = System(
    torrents: set<Hash>,
    npeers: int,
    pending: seq<NewPeerMsg>,
    workers: map<Hash, Worker>,
    ctl: Ctl)

  datatype Step =
    | Connect(id: Hash, infoHash: Hash)
    | Read(id: Hash, msg: seq<byte>, world: World)
    | Register
    | Deliver(id: Hash)
    | AddTorrent(infoHash: Hash)
    | RemoveTorrent(infoHash: Hash)

  type Pieces = Hash -> nat

  // -------------------------------------------------------------------- steps

  ghost predicate Start(s: System) {
    s == System({}, 0, [], map[], Ctl(map[], map[], map[]))
  }

  /** `do_connect`: admission, then `register_peer`. Peer ids are distinct. */
  ghost predicate Connected(np: Pieces, s: System, id: Hash, h: Hash, s': System) {
    && id !in s.workers && h in s.torrents && s.npeers <= MAX_PEERS
    && s' == s.(npeers := s.npeers + 1,
                pending := s.pending + [NewPeerMsg(id, h, [])],
                workers := s.workers[id := NewWorker(h, np(h))])
  }

  /** Reports go to the receiving end, wherever it is: still pending, registered, or gone. */
  function SendPending(pending: seq<NewPeerMsg>, id: Hash, us: seq<PeerUpdate>): (r: seq<NewPeerMsg>)
    ensures |r| == |pending|
    ensures forall k :: 0 <= k < |r| ==>
              r[k] == if pending[k].id == id then pending[k].(updates := pending[k].updates + us) else pending[k]
  {
    seq(|pending|, k requires 0 <= k < |pending| =>
      if pending[k].id == id then pending[k].(updates := pending[k].updates + us) else pending[k])
  }

  function SendPeers(peers: map<Hash, seq<PeerUpdate>>, id: Hash, us: seq<PeerUpdate>): map<Hash, seq<PeerUpdate>> {
    if id in peers then peers[id := peers[id] + us] else peers
  }

  function Told(told: View, sent: seq<PeerUpdate>): View {
    match Replay(told, sent)
    case Ok(v) => v
    case _ => told
  }

  /** The worker after reading one message. */
  function AfterRead(w: Worker, msg: seq<byte>, world: World): Worker {
    var r := HandleRead(w.peer, msg, world);
    Worker(w.infoHash, r.peer, Told(w.told, r.sent), r.fate == Continue,
           w.cut || (r.fate != Continue && !(world.present && Takes(w.peer, msg, world))),
           w.said || Farewell(w.peer, msg, world))
  }

  /** A worker reads one message. */
  ghost predicate HasRead(s: System, id: Hash, msg: seq<byte>, world: World, s': System) {
    && id in s.workers && s.workers[id].alive
    && var w := s.workers[id];
       && (world.present <==> w.infoHash in s.torrents)
       && var sent := HandleRead(w.peer, msg, world).sent;
          s' == s.(pending := SendPending(s.pending, id, sent),
                   workers := s.workers[id := AfterRead(w, msg, world)],
                   ctl := s.ctl.(peers := SendPeers(s.ctl.peers, id, sent)))
  }

  /** `try_recv_new_peer` takes the oldest pending peer; it panics when the torrent is gone. */
  ghost predicate Registered(np: Pieces, s: System, s': System) {
    && s.pending != [] && s.pending[0].infoHash in s.torrents
    && var n := s.pending[0];
       s' == s.(pending := s.pending[1..],
                ctl := Ctl(s.ctl.peers[n.id := n.updates],
                           s.ctl.bitfields[n.id := NoBits(np(n.infoHash))],
                           s.ctl.priority[n.id := NewPriority(n.infoHash)]))
  }

  /** The records just before the oldest report of peer id is processed. */
  function Taken(c: Ctl, id: Hash): Ctl
    requires id in c.peers && c.peers[id] != []
  {
    c.(peers := c.peers[id := c.peers[id][1..]])
  }

  /** `check_messages` and `process`, for the oldest report of peer id. */
  ghost predicate Delivered(s: System, id: Hash, s': System) {
    && id in s.ctl.peers && s.ctl.peers[id] != []
    && var u := s.ctl.peers[id][0];
       && Processed(s.torrents, Taken(s.ctl, id), id, u, Ok(s'.ctl))
       && s' == s.(ctl := s'.ctl, npeers := s.npeers - if u.Disconnect? then 1 else 0)
  }

  /** The peers a `Remove` request disconnects, in some order. */
  ghost predicate PeersOf(pq: PeerQueue, h: Hash, ids: seq<Hash>) {
    NoRepeats(ids) && forall id :: id in ids <==> id in pq && pq[id].infoHash == h
  }

  ghost predicate TorrentRemoved(s: System, h: Hash, ids: seq<Hash>, s': System) {
    && h in s.torrents && PeersOf(s.ctl.priority, h, ids)
    && AllGone(s.ctl, ids, s'.ctl)
    && s' == s.(torrents := s.torrents - {h}, ctl := s'.ctl, npeers := s.npeers - |ids|)
  }

  ghost predicate Next(np: Pieces, s: System, step: Step, s': System) {
    match step
    case Connect(id, h) => Connected(np, s, id, h, s')
    case Read(id, msg, world) => HasRead(s, id, msg, world, s')
    case Register => Registered(np, s, s')
    case Deliver(id) => Delivered(s, id, s')
    case AddTorrent(h) => s' == s.(torrents := s.torrents + {h})
    case RemoveTorrent(h) => exists ids :: TorrentRemoved(s, h, ids, s')
  }

  ghost predicate Run(np: Pieces, states: seq<System>, steps: seq<Step>) {
    && |states| == |steps| + 1
    && Start(states[0])
    && forall k {:trigger steps[k]} :: 0 <= k < |steps| ==> Next(np, states[k], steps[k], states[k + 1])
  }

  // ---------------------------------------------------------------- invariant

  /** A report queue a worker can have produced: no speed reports, and a disconnection only at the very end, exactly
      when the worker has stopped at an empty message it could report. */
  ghost predicate WellEnded(us: seq<PeerUpdate>, alive: bool, said: bool) {
    && (forall k :: 0 <= k < |us| ==> !us[k].DownloadSpeed?)
    && (forall k :: 0 <= k < |us| && us[k] == Disconnect ==> k == |us| - 1)
    && (LastWord(us) <==> said)
    && (said ==> !alive)
  }

  /** The last of the reports is a disconnection. */
  predicate LastWord(us: seq<PeerUpdate>) {
    us != [] && us[|us| - 1] == Disconnect
  }

  /** Worker and receiving end of one peer: replaying the undelivered reports on the record kept
      gives what the worker has told, which is its own record unless it was cut off. */
  ghost predicate InStep(np: Pieces, w: Worker, h: Hash, record: View, us: seq<PeerUpdate>) {
    && w.infoHash == h
    && |w.peer.bitfield| == np(h) && |record.bits| == np(h)
    && Replay(record, us) == Ok(w.told)
    && (if w.cut then !w.alive else w.told == ViewOf(w.peer))
    && WellEnded(us, w.alive, w.said)
  }

  /** Registered peer id is recorded in all three collections and in step with its worker. */
  ghost predicate PeerInStep(np: Pieces, s: System, id: Hash)
    requires id in s.ctl.peers
  {
    && id in s.workers && id in s.ctl.bitfields && id in s.ctl.priority
    && s.ctl.priority[id].infoHash in s.torrents
    && InStep(np, s.workers[id], s.ctl.priority[id].infoHash, Recorded(s.ctl, id), s.ctl.peers[id])
  }

  ghost predicate RegisteredInStep(np: Pieces, s: System) {
    forall id :: id in s.ctl.peers ==> PeerInStep(np, s, id)
  }

  /** A pending peer is in step with the record it will be registered with. */
  ghost predicate NewInStep(np: Pieces, s: System, n: NewPeerMsg) {
    && n.id in s.workers && n.id !in s.ctl.peers
    && InStep(np, s.workers[n.id], n.infoHash, FreshView(np(n.infoHash)), n.updates)
  }

  ghost predicate PendingInStep(np: Pieces, s: System) {
    forall k :: 0 <= k < |s.pending| ==> NewInStep(np, s, s.pending[k])
  }

  ghost predicate PendingDistinct(pending: seq<NewPeerMsg>) {
    forall i, j :: 0 <= i < j < |pending| ==> pending[i].id != pending[j].id
  }

  /** What holds in every reachable state. */
  ghost predicate Inv(np: Pieces, s: System) {
    && KeysAgree(s.ctl) && Calm(s.ctl.priority)
    && s.npeers == |s.ctl.peers| + |s.pending|
    && s.npeers <= MAX_PEERS + 1
    && PendingDistinct(s.pending)
    && RegisteredInStep(np, s)
    && PendingInStep(np, s)
  }

  // --------------------------------------------------------- step by step

  /** Nothing about registered peer id has changed. */
  ghost predicate Untouched(s: System, s': System, id: Hash) {
    && id in s.ctl.peers && id in s'.ctl.peers && s'.ctl.peers[id] == s.ctl.peers[id]
    && id in s.ctl.bitfields && id in s'.ctl.bitfields && s'.ctl.bitfields[id] == s.ctl.bitfields[id]
    && id in s.ctl.priority && id in s'.ctl.priority && s'.ctl.priority[id] == s.ctl.priority[id]
    && s.ctl.priority[id].infoHash in s'.torrents
    && id in s.workers && id in s'.workers && s'.workers[id] == s.workers[id]
  }

  lemma {:induction false} StillInStep(np: Pieces, s: System, s': System, id: Hash)
    requires Untouched(s, s', id) && PeerInStep(np, s, id)
    ensures PeerInStep(np, s', id)
  {
  }

  lemma {:induction false} StillPending(np: Pieces, s: System, s': System, n: NewPeerMsg)
    requires NewInStep(np, s, n) && n.id in s'.workers && s'.workers[n.id] == s.workers[n.id] && n.id !in s'.ctl.peers
    ensures NewInStep(np, s', n)
  {
  }

  lemma {:induction false} PendingKnown(np: Pieces, s: System, k: nat)
    requires PendingInStep(np, s) && k < |s.pending|
    ensures s.pending[k].id in s.workers
  {
    assert NewInStep(np, s, s.pending[k]);
  }

  lemma {:induction false} ConnectDistinct(np: Pieces, s: System, id: Hash, h: Hash, s': System)
    requires PendingInStep(np, s) && PendingDistinct(s.pending) && Connected(np, s, id, h, s')
    ensures PendingDistinct(s'.pending)
  {
    forall k | 0 <= k < |s.pending| ensures s.pending[k].id != id {
      PendingKnown(np, s, k);
    }
  }

  lemma {:induction false} ConnectPending(np: Pieces, s: System, id: Hash, h: Hash, s': System)
    requires PendingInStep(np, s) && RegisteredInStep(np, s) && Connected(np, s, id, h, s')
    ensures PendingInStep(np, s')
  {
    forall k | 0 <= k < |s.pending| ensures NewInStep(np, s', s'.pending[k]) {
      PendingKnown(np, s, k);
      StillPending(np, s, s', s.pending[k]);
    }
    assert id in s.ctl.peers ==> PeerInStep(np, s, id);
    assert NewInStep(np, s', NewPeerMsg(id, h, []));
  }

  lemma {:induction false} ConnectKeeps(np: Pieces, s: System, id: Hash, h: Hash, s': System)
    requires Inv(np, s) && Connected(np, s, id, h, s')
    ensures Inv(np, s')
  {
    ConnectDistinct(np, s, id, h, s');
    ConnectPending(np, s, id, h, s');
    forall j | j in s'.ctl.peers ensures PeerInStep(np, s', j) {
      assert PeerInStep(np, s, j);
      StillInStep(np, s, s', j);
    }
  }

  lemma {:induction false} RegisterPeers(np: Pieces, s: System, s': System)
    requires Inv(np, s) && Registered(np, s, s')
    ensures RegisteredInStep(np, s')
  {
    var n := s.pending[0];
    assert NewInStep(np, s, n);
    forall j | j in s'.ctl.peers ensures PeerInStep(np, s', j) {
      if j == n.id {
        assert Recorded(s'.ctl, n.id) == FreshView(np(n.infoHash));
      } else {
        assert PeerInStep(np, s, j);
        StillInStep(np, s, s', j);
      }
    }
  }

  lemma {:induction false} RegisterPending(np: Pieces, s: System, s': System)
    requires Inv(np, s) && Registered(np, s, s')
    ensures PendingInStep(np, s') && PendingDistinct(s'.pending)
  {
    forall k | 0 <= k < |s'.pending| ensures NewInStep(np, s', s'.pending[k]) {
      assert s'.pending[k] == s.pending[k + 1] && NewInStep(np, s, s.pending[k + 1]);
      StillPending(np, s, s', s.pending[k + 1]);
    }
  }

  lemma {:induction false} RegisterKeeps(np: Pieces, s: System, s': System)
    requires Inv(np, s) && Registered(np, s, s')
    ensures Inv(np, s')
  {
    assert NewInStep(np, s, s.pending[0]);
    RegisterCounts(np, s, s');
    RegisterPeers(np, s, s');
    RegisterPending(np, s, s');
  }

  lemma {:induction false} RegisterCounts(np: Pieces, s: System, s': System)
    requires KeysAgree(s.ctl) && Calm(s.ctl.priority) && Registered(np, s, s') && s.pending[0].id !in s.ctl.peers
    ensures KeysAgree(s'.ctl) && Calm(s'.ctl.priority)
    ensures |s'.ctl.peers| + |s'.pending| == |s.ctl.peers| + |s.pending|
  {
    assert s'.ctl.peers.Keys == s.ctl.peers.Keys + {s.pending[0].id};
    assert |s'.ctl.peers| == |s'.ctl.peers.Keys| == |s.ctl.peers.Keys| + 1;
  }

  lemma {:induction false} ReadInStep(np: Pieces, w: Worker, h: Hash, record: View, us: seq<PeerUpdate>,
                                      msg: seq<byte>, world: World)
    requires InStep(np, w, h, record, us) && w.alive
    ensures InStep(np, AfterRead(w, msg, world), h, record, us + HandleRead(w.peer, msg, world).sent)
  {
    var r := HandleRead(w.peer, msg, world);
    ReadingReported(w.peer, msg, world);
    ReplayAppend(record, us, r.sent);
    StillWellEnded(w.peer, us, msg, world);
  }

  lemma {:induction false} StillWellEnded(p: PeerState, us: seq<PeerUpdate>, msg: seq<byte>, world: World)
    requires WellEnded(us, true, false)
    ensures var r := HandleRead(p, msg, world);
            WellEnded(us + r.sent, r.fate == Continue, Farewell(p, msg, world))
  {
    FarewellExactly(p, msg, world);
    var r := HandleRead(p, msg, world);
    EndedNext(us, r.sent, r.fate == Continue, Farewell(p, msg, world));
  }

  lemma {:induction false} EndedNext(us: seq<PeerUpdate>, sent: seq<PeerUpdate>, alive: bool, said: bool)
    requires WellEnded(us, true, false) && |sent| <= 1 && forall u :: u in sent ==> !u.DownloadSpeed?
    requires (Disconnect in sent <==> said) && (said ==> !alive)
    ensures WellEnded(us + sent, alive, said)
  {
  }

  lemma {:induction false} ReadKeepsPeer(np: Pieces, s: System, id: Hash, msg: seq<byte>, world: World, s': System)
    requires Inv(np, s) && HasRead(s, id, msg, world, s') && id in s.ctl.peers
    ensures PeerInStep(np, s', id)
  {
    var w := s.workers[id];
    assert PeerInStep(np, s, id);
    ReadInStep(np, w, s.ctl.priority[id].infoHash, Recorded(s.ctl, id), s.ctl.peers[id], msg, world);
    assert Recorded(s'.ctl, id) == Recorded(s.ctl, id);
  }

  lemma {:induction false} ReadKeepsPending(np: Pieces, s: System, id: Hash, msg: seq<byte>, world: World,
                                            s': System, k: nat)
    requires Inv(np, s) && HasRead(s, id, msg, world, s') && k < |s.pending|
    ensures NewInStep(np, s', s'.pending[k])
  {
    var n := s.pending[k];
    var w := s.workers[id];
    assert NewInStep(np, s, n);
    assert s'.ctl.peers.Keys == s.ctl.peers.Keys;
    if n.id == id {
      ReadInStep(np, w, n.infoHash, FreshView(np(n.infoHash)), n.updates, msg, world);
    } else {
      StillPending(np, s, s', n);
    }
  }

  lemma {:induction false} ReadKeepsRegistered(np: Pieces, s: System, id: Hash, msg: seq<byte>, world: World,
                                               s': System)
    requires Inv(np, s) && HasRead(s, id, msg, world, s')
    ensures RegisteredInStep(np, s')
  {
    forall j | j in s'.ctl.peers ensures PeerInStep(np, s', j) {
      if j == id {
        ReadKeepsPeer(np, s, id, msg, world, s');
      } else {
        assert PeerInStep(np, s, j);
        StillInStep(np, s, s', j);
      }
    }
  }

  lemma {:induction false} ReadKeeps(np: Pieces, s: System, id: Hash, msg: seq<byte>, world: World, s': System)
    requires Inv(np, s) && HasRead(s, id, msg, world, s')
    ensures Inv(np, s')
  {
    forall k | 0 <= k < |s'.pending| ensures NewInStep(np, s', s'.pending[k]) {
      ReadKeepsPending(np, s, id, msg, world, s', k);
    }
    ReadKeepsRegistered(np, s, id, msg, world, s');
    ReadKeepsCounts(s, id, msg, world, s');
  }

  lemma {:induction false} ReadKeepsCounts(s: System, id: Hash, msg: seq<byte>, world: World, s': System)
    requires HasRead(s, id, msg, world, s') && KeysAgree(s.ctl) && PendingDistinct(s.pending)
    ensures KeysAgree(s'.ctl) && |s'.ctl.peers| == |s.ctl.peers| && s'.ctl.priority == s.ctl.priority
    ensures |s'.pending| == |s.pending| && PendingDistinct(s'.pending) && s'.npeers == s.npeers
  {
    SameCounts(s.ctl, s'.ctl);
    assert forall k :: 0 <= k < |s.pending| ==> s'.pending[k].id == s.pending[k].id;
  }

  lemma {:induction false} SameCounts(c: Ctl, c': Ctl)
    requires KeysAgree(c) && c'.peers.Keys == c.peers.Keys
    requires c'.bitfields.Keys == c.bitfields.Keys && c'.priority.Keys == c.priority.Keys
    ensures KeysAgree(c') && |c'.peers| == |c.peers|
  {
    assert |c'.peers| == |c'.peers.Keys| == |c.peers|;
  }

  lemma {:induction false} DeliverRecorded(np: Pieces, s: System, id: Hash, s': System)
    requires KeysAgree(s.ctl) && Calm(s.ctl.priority) && Delivered(s, id, s') && s.ctl.peers[id][0] != Disconnect
    requires PeerInStep(np, s, id)
    ensures SameOthers(Taken(s.ctl, id), id, s'.ctl)
    ensures id in s'.ctl.bitfields && id in s'.ctl.priority && s'.ctl.priority[id].speed == 0
    ensures Apply(Recorded(s.ctl, id), s.ctl.peers[id][0]) == Ok(Recorded(s'.ctl, id))
  {
    var c := Taken(s.ctl, id);
    assert c.peers.Keys == s.ctl.peers.Keys;
    assert Recorded(c, id) == Recorded(s.ctl, id);
    ProcessedApplies(s.torrents, c, id, s.ctl.peers[id][0], Ok(s'.ctl));
  }

  /** One report less to replay. */
  lemma {:induction false} AppliedInStep(np: Pieces, w: Worker, h: Hash, record: View, us: seq<PeerUpdate>,
                                         record': View)
    requires InStep(np, w, h, record, us) && us != [] && us[0] != Disconnect && Apply(record, us[0]) == Ok(record')
    ensures InStep(np, w, h, record', us[1..])
  {
  }

  lemma {:induction false} OtherPeersInStep(np: Pieces, s: System, id: Hash, s': System)
    requires RegisteredInStep(np, s) && KeysAgree(s.ctl) && id in s.ctl.peers && s.ctl.peers[id] != []
    requires s' == s.(ctl := s'.ctl) && SameOthers(Taken(s.ctl, id), id, s'.ctl) && PeerInStep(np, s', id)
    ensures RegisteredInStep(np, s')
  {
    forall j | j in s'.ctl.peers ensures PeerInStep(np, s', j) {
      if j != id {
        assert PeerInStep(np, s, j);
        StillInStep(np, s, s', j);
      }
    }
  }

  lemma {:induction false} StillCalm(c: Ctl, id: Hash, c': Ctl)
    requires KeysAgree(c) && Calm(c.priority) && id in c.peers && c.peers[id] != []
    requires SameOthers(Taken(c, id), id, c') && id in c'.priority && c'.priority[id].speed == 0
    ensures KeysAgree(c') && Calm(c'.priority) && |c'.peers| == |c.peers|
  {
    SameCounts(c, c');
  }

  /** Everything but the record of peer id is as it was, and that one is still in step. */
  lemma {:induction false} ReportKeeps(np: Pieces, s: System, id: Hash, s': System)
    requires Inv(np, s) && id in s.ctl.peers && s.ctl.peers[id] != [] && s' == s.(ctl := s'.ctl)
    requires SameOthers(Taken(s.ctl, id), id, s'.ctl) && PeerInStep(np, s', id) && s'.ctl.priority[id].speed == 0
    ensures Inv(np, s')
  {
    StillCalm(s.ctl, id, s'.ctl);
    OtherPeersInStep(np, s, id, s');
    assert s'.ctl.peers.Keys == s.ctl.peers.Keys;
    StillAllPending(np, s, s');
  }

  lemma {:induction false} DeliverReport(np: Pieces, s: System, id: Hash, s': System)
    requires Inv(np, s) && Delivered(s, id, s') && s.ctl.peers[id][0] != Disconnect
    ensures Inv(np, s')
  {
    assert PeerInStep(np, s, id);
    DeliverRecorded(np, s, id, s');
    AppliedInStep(np, s.workers[id], s.ctl.priority[id].infoHash, Recorded(s.ctl, id), s.ctl.peers[id],
                  Recorded(s'.ctl, id));
    ReportKeeps(np, s, id, s');
  }

  lemma {:induction false} StillAllPending(np: Pieces, s: System, s': System)
    requires PendingInStep(np, s) && s'.pending == s.pending && s'.workers == s.workers
    requires s'.ctl.peers.Keys <= s.ctl.peers.Keys
    ensures PendingInStep(np, s')
  {
    forall k | 0 <= k < |s'.pending| ensures NewInStep(np, s', s'.pending[k]) {
      assert NewInStep(np, s, s.pending[k]);
      StillPending(np, s, s', s.pending[k]);
    }
  }

  /** The peers left after some have been dropped are as they were. */
  lemma {:induction false} DropKeeps(np: Pieces, s: System, gone: set<Hash>, s': System)
    requires Inv(np, s) && s'.ctl == Dropped(s.ctl, gone) && s'.pending == s.pending && s'.workers == s.workers
    requires forall j :: j in s.ctl.peers && j !in gone ==>
               j in s.ctl.priority && s.ctl.priority[j].infoHash in s'.torrents
    ensures KeysAgree(s'.ctl) && Calm(s'.ctl.priority) && RegisteredInStep(np, s') && PendingInStep(np, s')
  {
    forall j | j in s'.ctl.peers ensures PeerInStep(np, s', j) {
      assert PeerInStep(np, s, j);
      StillInStep(np, s, s', j);
    }
    StillAllPending(np, s, s');
  }

  /** A disconnection takes exactly its peer out of the records. */
  lemma {:induction false} DisconnectExactly(np: Pieces, s: System, id: Hash, s': System)
    requires KeysAgree(s.ctl) && Calm(s.ctl.priority)
    requires Delivered(s, id, s') && s.ctl.peers[id][0] == Disconnect
    ensures s'.ctl == Dropped(s.ctl, {id}) && |s'.ctl.peers| == |s.ctl.peers| - 1
  {
    var c := Taken(s.ctl, id);
    assert c.peers.Keys == s.ctl.peers.Keys;
    assert |c.peers| == |c.peers.Keys| == |s.ctl.peers|;
    GoneExactly(c, id, s'.ctl);
    assert s'.ctl.peers == s.ctl.peers - {id};
  }

  lemma {:induction false} DeliverDisconnect(np: Pieces, s: System, id: Hash, s': System)
    requires Inv(np, s) && Delivered(s, id, s') && s.ctl.peers[id][0] == Disconnect
    ensures Inv(np, s')
  {
    DisconnectExactly(np, s, id, s');
    forall j | j in s.ctl.peers ensures j in s.ctl.priority && s.ctl.priority[j].infoHash in s.torrents {
      assert PeerInStep(np, s, j);
    }
    DropKeeps(np, s, {id}, s');
  }

  /** Removing a torrent disconnects exactly its peers. */
  lemma {:induction false} RemovedExactly(s: System, h: Hash, ids: seq<Hash>, s': System)
    requires KeysAgree(s.ctl) && Calm(s.ctl.priority) && TorrentRemoved(s, h, ids, s')
    ensures s'.ctl == Dropped(s.ctl, Elements(ids)) && |s'.ctl.peers| == |s.ctl.peers| - |ids|
  {
    assert Elements(ids) <= s.ctl.peers.Keys;
    AllGoneExactly(s.ctl, ids, s'.ctl);
  }

  lemma {:induction false} RemoveKeeps(np: Pieces, s: System, h: Hash, ids: seq<Hash>, s': System)
    requires Inv(np, s) && TorrentRemoved(s, h, ids, s')
    ensures Inv(np, s')
  {
    RemovedExactly(s, h, ids, s');
    forall j | j in s.ctl.peers && j !in Elements(ids)
      ensures j in s.ctl.priority && s.ctl.priority[j].infoHash in s'.torrents
    {
      assert PeerInStep(np, s, j);
    }
    DropKeeps(np, s, Elements(ids), s');
  }

  lemma {:induction false} AddKeeps(np: Pieces, s: System, h: Hash)
    requires Inv(np, s)
    ensures Inv(np, s.(torrents := s.torrents + {h}))
  {
    var s' := s.(torrents := s.torrents + {h});
    forall j | j in s'.ctl.peers ensures PeerInStep(np, s', j) {
      assert PeerInStep(np, s, j);
      StillInStep(np, s, s', j);
    }
    StillAllPending(np, s, s');
  }

  lemma {:induction false} NextKeeps(np: Pieces, s: System, step: Step, s': System)
    requires Inv(np, s) && Next(np, s, step, s')
    ensures Inv(np, s')
  {
    match step
    case Connect(id, h) => ConnectKeeps(np, s, id, h, s');
    case Read(id, msg, world) => ReadKeeps(np, s, id, msg, world, s');
    case Register => RegisterKeeps(np, s, s');
    case Deliver(id) =>
      if s.ctl.peers[id][0] == Disconnect {
        DeliverDisconnect(np, s, id, s');
      } else {
        DeliverReport(np, s, id, s');
      }
    case AddTorrent(h) => AddKeeps(np, s, h);
    case RemoveTorrent(h) =>
      var ids :| TorrentRemoved(s, h, ids, s');
      RemoveKeeps(np, s, h, ids, s');
  }

  // --------------------------------------------------------------- whole runs

  lemma {:induction false} StartInv(np: Pieces, s: System)
    requires Start(s)
    ensures Inv(np, s)
  {
  }

  /** In every reachable state the three collections name the same peers, every peer's torrent exists, the
      peer count is right, and every peer's undelivered reports lead from the record kept to the worker's own. */
  lemma {:induction false} RunInv(np: Pieces, states: seq<System>, steps: seq<Step>, k: nat)
    requires Run(np, states, steps) && k <= |steps|
    ensures Inv(np, states[k])
  {
    StartInv(np, states[0]);
    for i := 0 to k
      invariant Inv(np, states[i])
    {
      StepAt(np, states, steps, i);
      NextKeeps(np, states[i], steps[i], states[i + 1]);
    }
  }

  lemma {:induction false} StepAt(np: Pieces, states: seq<System>, steps: seq<Step>, k: nat)
    requires Run(np, states, steps) && k < |steps|
    ensures Next(np, states[k], steps[k], states[k + 1])
  {
  }

  /** Once a peer's reports are all delivered, the controller's record of it is the worker's own. */
  lemma {:induction false} DrainedAgree(np: Pieces, states: seq<System>, steps: seq<Step>, k: nat, id: Hash)
    requires Run(np, states, steps) && k <= |steps|
    requires id in states[k].ctl.peers && states[k].ctl.peers[id] == []
    ensures var s := states[k];
            && id in s.workers && id in s.ctl.priority && id in s.ctl.bitfields
            && (!s.workers[id].cut ==> Recorded(s.ctl, id) == ViewOf(s.workers[id].peer))
  {
    RunInv(np, states, steps, k);
    assert PeerInStep(np, states[k], id);
  }

  lemma {:induction false} DeliverySafe(np: Pieces, s: System, id: Hash, r: Outcome<Ctl>)
    requires KeysAgree(s.ctl) && id in s.ctl.peers && s.ctl.peers[id] != [] && PeerInStep(np, s, id)
    requires Processed(s.torrents, Taken(s.ctl, id), id, s.ctl.peers[id][0], r)
    ensures r.Ok?
  {
    var c := Taken(s.ctl, id);
    if s.ctl.peers[id][0] != Disconnect {
      assert c.peers.Keys == s.ctl.peers.Keys && Recorded(c, id) == Recorded(s.ctl, id);
      ProcessedApplies(s.torrents, c, id, s.ctl.peers[id][0], r);
    }
  }

  /** Delivering a report never panics. */
  lemma {:induction false} NoPanic(np: Pieces, states: seq<System>, steps: seq<Step>, k: nat, id: Hash, r: Outcome<Ctl>)
    requires Run(np, states, steps) && k <= |steps|
    requires id in states[k].ctl.peers && states[k].ctl.peers[id] != []
    requires Processed(states[k].torrents, Taken(states[k].ctl, id), id, states[k].ctl.peers[id][0], r)
    ensures r.Ok?
  {
    RunInv(np, states, steps, k);
    DeliverySafe(np, states[k], id, r);
  }

  lemma {:induction false} DeliveredBitsGrow(np: Pieces, s: System, j: Hash, s': System, id: Hash)
    requires Inv(np, s) && Delivered(s, j, s')
    requires id in s.ctl.bitfields && id in s'.ctl.bitfields
    ensures Covers(s'.ctl.bitfields[id], s.ctl.bitfields[id])
  {
    if s.ctl.peers[j][0] == Disconnect {
      DisconnectExactly(np, s, j, s');
    } else {
      var c := Taken(s.ctl, j);
      ProcessedBitsGrow(s.torrents, c, j, s.ctl.peers[j][0], s'.ctl, id);
    }
  }

  lemma {:induction false} RegisteredBitsGrow(np: Pieces, s: System, s': System, id: Hash)
    requires KeysAgree(s.ctl) && PendingInStep(np, s) && Registered(np, s, s') && id in s.ctl.bitfields
    ensures s'.ctl.bitfields[id] == s.ctl.bitfields[id]
  {
    assert NewInStep(np, s, s.pending[0]);
  }

  /** The bits recorded of a peer by the controller are never cleared. */
  lemma {:induction false} RecordedBitsGrow(np: Pieces, s: System, step: Step, s': System, id: Hash)
    requires Inv(np, s) && Next(np, s, step, s')
    requires id in s.ctl.bitfields && id in s'.ctl.bitfields
    ensures Covers(s'.ctl.bitfields[id], s.ctl.bitfields[id])
  {
    match step
    case Deliver(j) => DeliveredBitsGrow(np, s, j, s', id);
    case RemoveTorrent(h) =>
      var ids :| TorrentRemoved(s, h, ids, s');
      RemovedExactly(s, h, ids, s');
    case Register => RegisteredBitsGrow(np, s, s', id);
    case _ =>
  }

  /** Nor are the bits a worker records of its peer. */
  lemma {:induction false} WorkerBitsGrow(np: Pieces, s: System, step: Step, s': System, id: Hash)
    requires Next(np, s, step, s') && id in s.workers
    ensures id in s'.workers && Covers(s'.workers[id].peer.bitfield, s.workers[id].peer.bitfield)
  {
    if step.Read? {
      var w := s.workers[step.id];
      ReadingReported(w.peer, step.msg, step.world);
    }
  }

  /** A message read is one whose change of priorities the piece queue takes. */
  predicate QueueTakes(s: System, step: Step) {
    step.Read? && step.id in s.workers ==> Takes(s.workers[step.id].peer, step.msg, step.world)
  }

  /** Without torrent removals and panics of the piece queue no worker is ever cut off: every worker's torrent is
      present and what it has told is its own record. */
  lemma {:induction false} NeverCut(np: Pieces, states: seq<System>, steps: seq<Step>, k: nat, id: Hash)
    requires Run(np, states, steps) && k <= |steps| && id in states[k].workers
    requires forall j :: 0 <= j < k ==> !steps[j].RemoveTorrent? && QueueTakes(states[j], steps[j])
    ensures states[k].workers[id].infoHash in states[k].torrents && !states[k].workers[id].cut
    decreases k
  {
    assert Next(np, states[k - 1], steps[k - 1], states[k]);
    if id in states[k - 1].workers {
      NeverCut(np, states, steps, k - 1, id);
    }
  }

  // ------------------------------------------------------- peers left behind

  /** In every reachable state the last report waiting of a registered peer is a disconnection exactly when its worker
      has stopped at an empty message it could report. */
  lemma {:induction false} FarewellWaiting(np: Pieces, states: seq<System>, steps: seq<Step>, k: nat, id: Hash)
    requires Run(np, states, steps) && k <= |steps| && id in states[k].ctl.peers
    ensures id in states[k].workers
    ensures LastWord(states[k].ctl.peers[id]) <==> states[k].workers[id].said
    ensures states[k].workers[id].said ==> !states[k].workers[id].alive
  {
    RunInv(np, states, steps, k);
    assert PeerInStep(np, states[k], id);
  }

  /** Registered, its worker stopped for another reason, so that nobody will ever report its disconnection. */
  ghost predicate LeftBehind(s: System, id: Hash) {
    id in s.ctl.peers && id in s.workers && !s.workers[id].alive && !s.workers[id].said
  }

  lemma {:induction false} ReportLeavesBehind(np: Pieces, s: System, j: Hash, s': System, id: Hash)
    requires Inv(np, s) && Delivered(s, j, s') && s.ctl.peers[j][0] != Disconnect && LeftBehind(s, id)
    ensures LeftBehind(s', id)
  {
    assert PeerInStep(np, s, j);
    DeliverRecorded(np, s, j, s');
  }

  lemma {:induction false} DisconnectLeavesBehind(np: Pieces, s: System, j: Hash, s': System, id: Hash)
    requires Inv(np, s) && Delivered(s, j, s') && s.ctl.peers[j][0] == Disconnect && LeftBehind(s, id)
    ensures LeftBehind(s', id)
  {
    DisconnectExactly(np, s, j, s');
    LastWordFirst(np, s, j);
  }

  lemma {:induction false} LastWordFirst(np: Pieces, s: System, j: Hash)
    requires RegisteredInStep(np, s) && j in s.ctl.peers && s.ctl.peers[j] != [] && s.ctl.peers[j][0] == Disconnect
    ensures j in s.workers && s.workers[j].said
  {
    assert PeerInStep(np, s, j);
  }

  lemma {:induction false} RemovalLeavesBehind(np: Pieces, s: System, h: Hash, s': System, id: Hash)
    requires Inv(np, s) && (exists ids :: TorrentRemoved(s, h, ids, s'))
    requires LeftBehind(s, id) && h != s.workers[id].infoHash
    ensures LeftBehind(s', id)
  {
    var ids :| TorrentRemoved(s, h, ids, s');
    assert PeerInStep(np, s, id);
    RemovedExactly(s, h, ids, s');
  }

  lemma {:induction false} ConnectLeavesBehind(np: Pieces, s: System, j: Hash, h: Hash, s': System, id: Hash)
    requires Connected(np, s, j, h, s') && LeftBehind(s, id)
    ensures LeftBehind(s', id)
  {
  }

  lemma {:induction false} ReadLeavesBehind(s: System, j: Hash, msg: seq<byte>, world: World, s': System, id: Hash)
    requires HasRead(s, j, msg, world, s') && LeftBehind(s, id)
    ensures LeftBehind(s', id)
  {
  }

  lemma {:induction false} StoppedStays(np: Pieces, s: System, step: Step, s': System, id: Hash)
    requires Next(np, s, step, s') && id in s.workers && !s.workers[id].alive
    ensures id in s'.workers && s'.workers[id] == s.workers[id]
  {
  }

  lemma {:induction false} RegisteringLeavesBehind(np: Pieces, s: System, s': System, id: Hash)
    requires PendingInStep(np, s) && Registered(np, s, s') && LeftBehind(s, id)
    ensures LeftBehind(s', id)
  {
    assert NewInStep(np, s, s.pending[0]);
  }

  /** The record of such a peer stays until its torrent is removed. */
  lemma {:induction false} StillLeftBehind(np: Pieces, s: System, step: Step, s': System, id: Hash)
    requires Inv(np, s) && Next(np, s, step, s') && LeftBehind(s, id)
    requires step != RemoveTorrent(s.workers[id].infoHash)
    ensures LeftBehind(s', id)
  {
    match step
    case Deliver(j) =>
      if s.ctl.peers[j][0] == Disconnect {
        DisconnectLeavesBehind(np, s, j, s', id);
      } else {
        ReportLeavesBehind(np, s, j, s', id);
      }
    case RemoveTorrent(h) => RemovalLeavesBehind(np, s, h, s', id);
    case Register => RegisteringLeavesBehind(np, s, s', id);
    case Read(j, msg, world) => ReadLeavesBehind(s, j, msg, world, s', id);
    case Connect(j, h) => ConnectLeavesBehind(np, s, j, h, s', id);
    case AddTorrent(h) =>
  }

  /** However the run goes on. */
  lemma {:induction false} LeftForGood(np: Pieces, states: seq<System>, steps: seq<Step>, m: nat, n: nat, id: Hash)
    requires Run(np, states, steps) && m <= n <= |steps| && LeftBehind(states[m], id)
    requires forall j :: m <= j < n ==> steps[j] != RemoveTorrent(states[m].workers[id].infoHash)
    ensures LeftBehind(states[n], id) && states[n].workers[id] == states[m].workers[id]
    decreases n - m
  {
    if m < n {
      LeftForGood(np, states, steps, m, n - 1, id);
      RunInv(np, states, steps, n - 1);
      StepAt(np, states, steps, n - 1);
      StillLeftBehind(np, states[n - 1], steps[n - 1], states[n], id);
      StoppedStays(np, states[n - 1], steps[n - 1], states[n], id);
    }
  }
}
