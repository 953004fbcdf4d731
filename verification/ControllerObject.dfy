/** The controller object of src/bittorrent/manager.rs: its methods update the three collections of
    peers in place, as the relations of ControllerState say. */
module ControllerObject {
  import opened Outcomes
  import opened Wire
  import opened Peers
  import opened Protocol
  import opened ControllerState
  import Runtime

  /** Bytes missing of a torrent, and its status. */
  datatype Progress = Progress(remaining: nat, status: Runtime.Status)

  /** State shared by all threads: the torrents there are, and the count of peers. */
  class TorrentState {
    var torrents: map<Hash, Progress>
    var npeers: int

    constructor ()
      ensures torrents == map[] && npeers == 0
    {
      torrents := map[];
      npeers := 0;
    }
  }

  /** Drained reports, each with the peer it came from. */
  type Messages = seq<(Hash, PeerUpdate)>

  /** The reports of one peer among the messages, in order. */
  function Only(ms: Messages, id: Hash): seq<PeerUpdate> {
    if ms == [] then [] else Only(ms[..|ms| - 1], id) + (if ms[|ms| - 1].0 == id then [ms[|ms| - 1].1] else [])
  }

  /** The messages are all the undelivered reports, in an order that keeps each peer's own. */
  ghost predicate AllReports(peers: map<Hash, seq<PeerUpdate>>, ms: Messages) {
    && (forall id :: id in peers ==> Only(ms, id) == peers[id])
    && (forall m :: m in ms ==> m.0 in peers)
  }

  function Emptied(peers: map<Hash, seq<PeerUpdate>>): map<Hash, seq<PeerUpdate>> {
    map id | id in peers :: []
  }

  /** Processing the messages one by one; a panic ends it. */
  ghost predicate ProcessedAll(torrents: set<Hash>, c: Ctl, ms: Messages, r: Outcome<Ctl>)
    decreases |ms|
  {
    if ms == [] then r == Ok(c)
    else exists m :: Processed(torrents, c, ms[0].0, ms[0].1, m)
                     && (if m.Ok? then ProcessedAll(torrents, m.value, ms[1..], r) else r == m)
  }

  lemma {:induction false} ProcessOneMore(torrents: set<Hash>, c: Ctl, ms: Messages, mid: Ctl, m: (Hash, PeerUpdate),
                                          r: Outcome<Ctl>)
    requires ProcessedAll(torrents, c, ms, Ok(mid)) && Processed(torrents, mid, m.0, m.1, r)
    ensures ProcessedAll(torrents, c, ms + [m], r)
    decreases |ms|
  {
    if ms == [] {
      assert ms + [m] == [m] && [m][1..] == [];
      assert r.Ok? ==> ProcessedAll(torrents, r.value, [], r);
    } else {
      var x :| Processed(torrents, c, ms[0].0, ms[0].1, x)
               && (if x.Ok? then ProcessedAll(torrents, x.value, ms[1..], Ok(mid)) else Ok(mid) == x);
      ProcessOneMore(torrents, x.value, ms[1..], mid, m, r);
      assert (ms + [m])[1..] == ms[1..] + [m];
    }
  }

  /** A panic among the first messages is a panic of the whole. */
  lemma {:induction false} PanicEarly(torrents: set<Hash>, c: Ctl, ms: Messages, more: Messages)
    requires ProcessedAll(torrents, c, ms, Panic)
    ensures ProcessedAll(torrents, c, ms + more, Panic)
    decreases |ms|
  {
    if ms != [] {
      var x :| Processed(torrents, c, ms[0].0, ms[0].1, x)
               && (if x.Ok? then ProcessedAll(torrents, x.value, ms[1..], Panic) else Panic == x);
      if x.Ok? {
        PanicEarly(torrents, x.value, ms[1..], more);
      }
      assert (ms + more)[1..] == ms[1..] + more;
    }
  }

  lemma {:induction false} ProcessNext(torrents: set<Hash>, c: Ctl, ms: Messages, i: nat, mid: Ctl, c': Ctl)
    requires i < |ms| && ProcessedAll(torrents, c, ms[..i], Ok(mid))
    requires Processed(torrents, mid, ms[i].0, ms[i].1, Ok(c'))
    ensures ProcessedAll(torrents, c, ms[..i + 1], Ok(c'))
  {
    assert ms[..i + 1] == ms[..i] + [ms[i]];
    ProcessOneMore(torrents, c, ms[..i], mid, ms[i], Ok(c'));
  }

  lemma {:induction false} PanicAt(torrents: set<Hash>, c: Ctl, ms: Messages, i: nat, mid: Ctl)
    requires i < |ms| && ProcessedAll(torrents, c, ms[..i], Ok(mid))
    requires Processed(torrents, mid, ms[i].0, ms[i].1, Panic)
    ensures ProcessedAll(torrents, c, ms, Panic)
  {
    ProcessOneMore(torrents, c, ms[..i], mid, ms[i], Panic);
    PanicEarly(torrents, c, ms[..i] + [ms[i]], ms[i + 1..]);
    assert ms[..i] + [ms[i]] + ms[i + 1..] == ms;
  }

  lemma {:induction false} GoneOneMore(c: Ctl, ids: seq<Hash>, mid: Ctl, id: Hash, c': Ctl)
    requires AllGone(c, ids, mid) && PeerGone(mid, id, c')
    ensures AllGone(c, ids + [id], c')
    decreases |ids|
  {
    if ids == [] {
      assert ids + [id] == [id] && AllGone(c', [], c');
    } else {
      var x :| PeerGone(c, ids[0], x) && AllGone(x, ids[1..], mid);
      GoneOneMore(x, ids[1..], mid, id, c');
      assert (ids + [id])[1..] == ids[1..] + [id];
    }
  }

  lemma {:induction false} GoneNext(c: Ctl, ids: seq<Hash>, i: nat, mid: Ctl, c': Ctl)
    requires i < |ids| && AllGone(c, ids[..i], mid) && PeerGone(mid, ids[i], c')
    ensures AllGone(c, ids[..i + 1], c')
  {
    assert ids[..i + 1] == ids[..i] + [ids[i]];
    GoneOneMore(c, ids[..i], mid, ids[i], c');
  }

  /** How many of the messages are disconnections. */
  function Disconnections(ms: Messages): (n: nat)
    ensures n <= |ms|
  {
    if ms == [] then 0 else (if ms[0].1.Disconnect? then 1 else 0) + Disconnections(ms[1..])
  }

  lemma {:induction false} DisconnectionsAppend(ms: Messages, i: nat)
    requires i < |ms|
    ensures Disconnections(ms[..i + 1]) == Disconnections(ms[..i]) + if ms[i].1.Disconnect? then 1 else 0
    decreases i
  {
    if i > 0 {
      assert ms[..i + 1][1..] == ms[1..][..i] && ms[..i][1..] == ms[1..][..i - 1];
      DisconnectionsAppend(ms[1..], i - 1);
    }
  }

  /** Registering the pending peers one by one; a peer whose torrent is gone panics. */
  function RegisterAll(np: Hash -> nat, torrents: set<Hash>, c: Ctl, pending: seq<NewPeerMsg>): Outcome<Ctl>
    decreases |pending|
  {
    if pending == [] then Ok(c)
    else if pending[0].infoHash !in torrents then Panic
    else RegisterAll(np, torrents, Admit(np, c, pending[0]), pending[1..])
  }

  function Admit(np: Hash -> nat, c: Ctl, n: NewPeerMsg): Ctl {
    Ctl(c.peers[n.id := n.updates], c.bitfields[n.id := NoBits(np(n.infoHash))],
        c.priority[n.id := NewPriority(n.infoHash)])
  }

  /** The torrent, when it is running with nothing missing, so that a download completes it. */
  function Finished(ts: map<Hash, Progress>, h: Hash): seq<Hash> {
    if h in ts && ts[h].remaining == 0 && ts[h].status == Runtime.Running then [h] else []
  }

  /** Exactly the torrents hs have become complete: each was running with nothing missing. */
  ghost predicate Finishing(ts: map<Hash, Progress>, hs: seq<Hash>, ts': map<Hash, Progress>) {
    && ts'.Keys == ts.Keys
    && (forall h :: h in hs ==> h in ts && Finished(ts, h) == [h])
    && (forall h :: h in ts ==> ts'[h] == if h in hs then ts[h].(status := Runtime.Complete) else ts[h])
  }

  /** Exactly the torrents announced since have become complete. */
  ghost predicate Announced(ts: map<Hash, Progress>, told: seq<Hash>, ts': map<Hash, Progress>, told': seq<Hash>) {
    told <= told' && Finishing(ts, told'[|told|..], ts')
  }

  lemma {:induction false} AnnouncedAlso(a: map<Hash, Progress>, toldA: seq<Hash>, b: map<Hash, Progress>,
                                         toldB: seq<Hash>,
                      c: map<Hash, Progress>, toldC: seq<Hash>)
    requires Announced(a, toldA, b, toldB) && Announced(b, toldB, c, toldC)
    ensures Announced(a, toldA, c, toldC)
  {
    assert toldC[|toldA|..] == toldB[|toldA|..] + toldC[|toldB|..];
  }

  class Controller {
    const shared: TorrentState
    const np: Hash -> nat
    var recv: seq<NewPeerMsg>
    var peers: map<Hash, seq<PeerUpdate>>
    var bitfields: map<Hash, seq<bool>>
    var peerPriority: PeerQueue
    var announced: seq<Hash>

    function State(): Ctl
      reads this
    {
      Ctl(peers, bitfields, peerPriority)
    }

    constructor (shared: TorrentState, np: Hash -> nat)
      ensures State() == Ctl(map[], map[], map[]) && recv == [] && announced == []
      ensures this.shared == shared && this.np == np
    {
      announced := [];
      this.shared := shared;
      this.np := np;
      recv := [];
      peers, bitfields, peerPriority := map[], map[], map[];
    }

    /** `remove`: raise the peer to the maximum and pop. */
    method RemoveFromQueue(id: Hash)
      modifies this`peerPriority
      ensures Removed(old(peerPriority), id, peerPriority)
    {
      if id in peerPriority {
        peerPriority := peerPriority[id := peerPriority[id].SetMax()];
      }
      if peerPriority != map[] {
        Peers.TopExists(peerPriority);
        var top :| top in peerPriority && forall j :: j in peerPriority ==> AtMost(peerPriority[j], peerPriority[top]);
        assert Peers.Top(peerPriority, top);
        peerPriority := peerPriority - {top};
      }
    }

    /** `remove_peer!`. */
    method RemovePeer(id: Hash)
      modifies this, shared`npeers
      ensures PeerGone(old(State()), id, State()) && recv == old(recv) && announced == old(announced)
      ensures shared.npeers == old(shared.npeers) - 1
    {
      shared.npeers := shared.npeers - 1;
      RemoveFromQueue(id);
      bitfields := bitfields - {id};
      peers := peers - {id};
    }

    /** `process`. A download that leaves nothing missing completes its torrent, which is announced. */
    method Process(id: Hash, u: PeerUpdate) returns (r: Outcome<()>)
      modifies this, shared
      ensures r == Ok(()) ==> Processed(shared.torrents.Keys, old(State()), id, u, Ok(State()))
      ensures r != Ok(()) ==>
                r == Panic && Processed(shared.torrents.Keys, old(State()), id, u, Panic) && State() == old(State())
      ensures var done := if r.Ok? && u.Downloaded? then Finished(old(shared.torrents), old(peerPriority)[id].infoHash)
                          else [];
              announced == old(announced) + done && Finishing(old(shared.torrents), done, shared.torrents)
      ensures shared.npeers == old(shared.npeers) - if u.Disconnect? then 1 else 0
      ensures recv == old(recv)
    {
      match u {
      case DownloadSpeed(speed) =>
        if id in peerPriority {
          peerPriority := peerPriority[id := peerPriority[id].SetDownload(speed)];
        }
      case InterestedFlip =>
        if id in peerPriority {
          peerPriority := peerPriority[id := peerPriority[id].FlipInterested()];
        }
      case ChokingFlip =>
        if id in peerPriority {
          peerPriority := peerPriority[id := peerPriority[id].FlipChoking()];
        }
      case HavePiece(index) =>
        if id !in bitfields || index >= |bitfields[id]| {
          return Panic;
        }
        bitfields := bitfields[id := bitfields[id][index := true]];
      case Downloaded(_) =>
        if id !in peerPriority || peerPriority[id].infoHash !in shared.torrents {
          return Panic;
        }
        var h := peerPriority[id].infoHash;
        var progress := shared.torrents[h];
        if progress.remaining == 0 {
          if progress.status == Runtime.Running {
            shared.torrents := shared.torrents[h := progress.(status := Runtime.Complete)];
            announced := announced + [h];
          }
        }
      case BitfieldKnown(bits) =>
        if id !in bitfields || |bitfields[id]| != |bits| {
          return Panic;
        }
        bitfields := bitfields[id := Union(bitfields[id], bits)];
      case Disconnect =>
        RemovePeer(id);
      }
      return Ok(());
    }

    /** The receiving loop of `try_recv_new_peer`. */
    method TryRecvNewPeer() returns (r: Outcome<()>)
      modifies this
      ensures match RegisterAll(np, shared.torrents.Keys, old(State()), old(recv))
              case Ok(c) => r == Ok(()) && State() == c && recv == []
              case _ => r == Panic
      ensures announced == old(announced)
    {
      while recv != []
        invariant RegisterAll(np, shared.torrents.Keys, old(State()), old(recv))
                  == RegisterAll(np, shared.torrents.Keys, State(), recv)
        invariant announced == old(announced)
        decreases |recv|
      {
        var n := recv[0];
        if n.infoHash !in shared.torrents {
          return Panic;
        }
        recv := recv[1..];
        peerPriority := peerPriority[n.id := NewPriority(n.infoHash)];
        peers := peers[n.id := n.updates];
        bitfields := bitfields[n.id := NoBits(np(n.infoHash))];
      }
      return Ok(());
    }

    /** The `Remove` branch of `recv_client`, with the peers of the torrent in the order found. */
    method RemoveTorrent(infoHash: Hash) returns (r: Outcome<()>, ids: seq<Hash>)
      modifies this, shared
      ensures infoHash !in old(shared.torrents) ==>
                ids == [] && r == Err && State() == old(State()) && shared.torrents == old(shared.torrents)
      ensures infoHash in old(shared.torrents) ==>
                && shared.torrents == old(shared.torrents) - {infoHash}
                && NoRepeats(ids)
                && (forall id :: id in ids <==> id in old(peerPriority) && old(peerPriority)[id].infoHash == infoHash)
                && (r == Ok(()) ==> AllGone(old(State()), ids, State()) && shared.npeers == old(shared.npeers) - |ids|)
      ensures KeysAgree(old(State())) && Calm(old(peerPriority)) ==> r != Panic
      ensures recv == old(recv) && announced == old(announced)
    {
      if infoHash !in shared.torrents {
        return Err, [];
      }
      shared.torrents := shared.torrents - {infoHash};
      ids := FilterPriority(infoHash);
      ghost var start := State();
      var i := 0;
      assert ids[..0] == [];
      while i < |ids|
        invariant 0 <= i <= |ids| && recv == old(recv) && announced == old(announced)
        invariant shared.torrents == old(shared.torrents) - {infoHash}
        invariant shared.npeers == old(shared.npeers) - i
        invariant AllGone(start, ids[..i], State())
      {
        if ids[i] !in peers {
          AllGoneStays(start, ids, i, State());
          return Panic, ids;
        }
        ghost var before := State();
        RemovePeer(ids[i]);
        GoneNext(start, ids, i, before, State());
        i := i + 1;
      }
      assert ids[..i] == ids;
      return Ok(()), ids;
    }

    /** While a removal is under way, the peers still to be removed are there. */
    static lemma {:induction false} AllGoneStays(c: Ctl, ids: seq<Hash>, i: nat, mid: Ctl)
      requires i < |ids| && NoRepeats(ids) && AllGone(c, ids[..i], mid)
      requires forall id :: id in ids ==> id in c.priority
      ensures KeysAgree(c) && Calm(c.priority) ==> ids[i] in mid.peers
    {
      if KeysAgree(c) && Calm(c.priority) {
        forall id | id in Elements(ids[..i]) ensures id in c.peers.Keys && id != ids[i] {
          assert id in ids[..i] && id in ids;
        }
        AllGoneExactly(c, ids[..i], mid);
        assert ids[i] in ids;
      }
    }

    /** `filter_priority`: the peers of a torrent, in some order. */
    method FilterPriority(infoHash: Hash) returns (ids: seq<Hash>)
      ensures NoRepeats(ids)
      ensures forall id :: id in ids <==> id in peerPriority && peerPriority[id].infoHash == infoHash
    {
      ids := [];
      var todo := peerPriority.Keys;
      while todo != {}
        invariant todo <= peerPriority.Keys && NoRepeats(ids)
        invariant forall id :: id in ids <==> id in peerPriority && id !in todo && peerPriority[id].infoHash == infoHash
        decreases todo
      {
        var id :| id in todo;
        todo := todo - {id};
        if peerPriority[id].infoHash == infoHash {
          ids := ids + [id];
        }
      }
    }

    /** `check_messages`: collect all undelivered reports, then process them one by one. */
    method CheckMessages() returns (r: Outcome<()>, ghost ms: Messages)
      modifies this, shared
      ensures AllReports(old(peers), ms)
      ensures Announced(old(shared.torrents), old(announced), shared.torrents, announced)
      ensures r == Ok(()) ==>
                && ProcessedAll(shared.torrents.Keys, old(State()).(peers := Emptied(old(peers))), ms, Ok(State()))
                && shared.npeers == old(shared.npeers) - Disconnections(ms)
      ensures r != Ok(()) ==>
                r == Panic && ProcessedAll(shared.torrents.Keys, old(State()).(peers := Emptied(old(peers))), ms, Panic)
      ensures recv == old(recv)
    {
      var messages := Drain();
      ms := messages;
      r := ProcessMessages(messages);
    }

    /** The second loop of `check_messages`. */
    method ProcessMessages(messages: Messages) returns (r: Outcome<()>)
      modifies this, shared
      ensures Announced(old(shared.torrents), old(announced), shared.torrents, announced)
      ensures r == Ok(()) ==>
                && ProcessedAll(shared.torrents.Keys, old(State()), messages, Ok(State()))
                && shared.npeers == old(shared.npeers) - Disconnections(messages)
      ensures r != Ok(()) ==> r == Panic && ProcessedAll(shared.torrents.Keys, old(State()), messages, Panic)
      ensures recv == old(recv)
    {
      ghost var start := State();
      var i := 0;
      assert messages[..0] == [];
      while i < |messages|
        invariant 0 <= i <= |messages| && recv == old(recv)
        invariant Announced(old(shared.torrents), old(announced), shared.torrents, announced)
        invariant ProcessedAll(shared.torrents.Keys, start, messages[..i], Ok(State()))
        invariant shared.npeers == old(shared.npeers) - Disconnections(messages[..i])
      {
        var (id, u) := messages[i];
        DisconnectionsAppend(messages, i);
        ghost var before, told, torrents := State(), announced, shared.torrents;
        var p := Process(id, u);
        AnnouncedAlso(old(shared.torrents), old(announced), torrents, told, shared.torrents, announced);
        if p != Ok(()) {
          PanicAt(shared.torrents.Keys, start, messages, i, before);
          return Panic;
        }
        ProcessNext(shared.torrents.Keys, start, messages, i, before, State());
        i := i + 1;
      }
      assert messages[..i] == messages;
      return Ok(());
    }

    /** The collecting loops of `check_messages`. */
    method Drain() returns (messages: Messages)
      modifies this`peers
      ensures AllReports(old(peers), messages) && peers == Emptied(old(peers))
    {
      messages := [];
      var todo := peers.Keys;
      ghost var start := peers;
      while todo != {}
        invariant todo <= peers.Keys && PartlyDrained(start, peers, todo, (j: Hash) => Only(messages, j))
        invariant forall m :: m in messages ==> m.0 in start
        decreases todo
      {
        var id :| id in todo;
        ghost var before := messages;
        messages := DrainPeer(messages, id, peers[id]);
        DrainStep(start, peers, todo, (j: Hash) => Only(before, j), id, (j: Hash) => Only(messages, j));
        todo := todo - {id};
        peers := peers[id := []];
      }
      DrainDone(start, peers, (j: Hash) => Only(messages, j));
      assert forall id :: id in start ==> Only(messages, id) == start[id];
    }

    /** The queues of the peers still to do are untouched, the others are empty and their reports collected. */
    static ghost predicate PartlyDrained(start: map<Hash, seq<PeerUpdate>>, now: map<Hash, seq<PeerUpdate>>,
                                         todo: set<Hash>, collected: Hash -> seq<PeerUpdate>) {
      && now.Keys == start.Keys
      && (forall id :: id in todo && id in now ==> now[id] == start[id] && collected(id) == [])
      && (forall id :: id in now && id !in todo ==> now[id] == [] && collected(id) == start[id])
    }

    static lemma {:induction false} DrainStep(start: map<Hash, seq<PeerUpdate>>, now: map<Hash, seq<PeerUpdate>>,
                                              todo: set<Hash>,
                           collected: Hash -> seq<PeerUpdate>, id: Hash, collected': Hash -> seq<PeerUpdate>)
      requires PartlyDrained(start, now, todo, collected) && id in todo && id in now
      requires collected'(id) == collected(id) + now[id]
      requires forall j :: j != id ==> collected'(j) == collected(j)
      ensures PartlyDrained(start, now[id := []], todo - {id}, collected')
    {
      assert [] + start[id] == start[id];
    }

    static lemma {:induction false} DrainDone(start: map<Hash, seq<PeerUpdate>>, now: map<Hash, seq<PeerUpdate>>,
                           collected: Hash -> seq<PeerUpdate>)
      requires PartlyDrained(start, now, {}, collected)
      ensures now == Emptied(start) && forall id :: id in start ==> collected(id) == start[id]
    {
    }

    /** The inner loop: all reports of one peer join the messages. */
    static method DrainPeer(before: Messages, id: Hash, us: seq<PeerUpdate>) returns (messages: Messages)
      ensures Only(messages, id) == Only(before, id) + us
      ensures forall j :: j != id ==> Only(messages, j) == Only(before, j)
      ensures forall m :: m in messages ==> m in before || m.0 == id
    {
      messages := before;
      var k := 0;
      while k < |us|
        invariant 0 <= k <= |us|
        invariant forall m :: m in messages ==> m in before || m.0 == id
        invariant Only(messages, id) == Only(before, id) + us[..k]
        invariant forall j :: j != id ==> Only(messages, j) == Only(before, j)
      {
        OnlyAppend(messages, (id, us[k]));
        assert us[..k + 1] == us[..k] + [us[k]];
        messages := messages + [(id, us[k])];
        k := k + 1;
      }
      assert us[..k] == us;
    }

    static lemma {:induction false} OnlyAppend(ms: Messages, m: (Hash, PeerUpdate))
      ensures Only(ms + [m], m.0) == Only(ms, m.0) + [m.1]
      ensures forall j :: j != m.0 ==> Only(ms + [m], j) == Only(ms, j)
    {
      assert (ms + [m])[..|ms|] == ms;
    }
  }
}
