/** The controller's records of the connected peers (src/bittorrent/manager.rs): three collections
    that must agree on who is connected, and the shared count of peers. */
module ControllerState {
  import opened Outcomes
  import opened Wire
  import opened Peers
  import opened Protocol

  /** Undelivered reports, recorded bitfield and priority of every connected peer. */
  datatype Ctl = Ctl(peers: map<Hash, seq<PeerUpdate>>, bitfields: map<Hash, seq<bool>>, priority: PeerQueue)

  datatype NewPeerMsg = NewPeerMsg(id: Hash, infoHash: Hash, updates: seq<PeerUpdate>)

  function NoBits(n: nat): seq<bool> {
    FreshView(n).bits
  }

  /** `remove_peer!`, apart from the peer count. */
  ghost predicate PeerGone(c: Ctl, id: Hash, c': Ctl) {
    && Removed(c.priority, id, c'.priority)
    && c'.bitfields == c.bitfields - {id}
    && c'.peers == c.peers - {id}
  }

  /** `process`: one report of peer `id`, with the torrents present. */
  ghost predicate Processed(torrents: set<Hash>, c: Ctl, id: Hash, u: PeerUpdate, r: Outcome<Ctl>) {
    match u
    case DownloadSpeed(speed) =>
      r == Ok(if id in c.priority then c.(priority := c.priority[id := c.priority[id].SetDownload(speed)]) else c)
    case InterestedFlip =>
      r == Ok(if id in c.priority then c.(priority := c.priority[id := c.priority[id].FlipInterested()]) else c)
    case ChokingFlip =>
      r == Ok(if id in c.priority then c.(priority := c.priority[id := c.priority[id].FlipChoking()]) else c)
    case HavePiece(i) =>
      if id in c.bitfields && i < |c.bitfields[id]| then
        r == Ok(c.(bitfields := c.bitfields[id := c.bitfields[id][i := true]]))
      else r == Panic
    case Downloaded(_) =>
      if id in c.priority && c.priority[id].infoHash in torrents then r == Ok(c) else r == Panic
    case BitfieldKnown(bits) =>
      if id in c.bitfields && |c.bitfields[id]| == |bits| then
        r == Ok(c.(bitfields := c.bitfields[id := Union(c.bitfields[id], bits)]))
      else r == Panic
    case Disconnect => r.Ok? && PeerGone(c, id, r.value)
  }

  /** Peers that `remove` will not confuse: nobody is at the maximum rank. */
  ghost predicate Calm(pq: PeerQueue) {
    forall id :: id in pq ==> pq[id].speed == 0
  }

  ghost predicate KeysAgree(c: Ctl) {
    c.peers.Keys == c.bitfields.Keys == c.priority.Keys
  }

  function Dropped(c: Ctl, ids: set<Hash>): Ctl {
    Ctl(c.peers - ids, c.bitfields - ids, c.priority - ids)
  }

  /** Removing a connected peer removes exactly that peer, from all three collections. */
  lemma {:induction false} GoneExactly(c: Ctl, id: Hash, c': Ctl)
    requires KeysAgree(c) && Calm(c.priority) && id in c.peers && PeerGone(c, id, c')
    ensures c' == Dropped(c, {id}) && KeysAgree(c') && Calm(c'.priority) && |c'.peers| == |c.peers| - 1
  {
    RemoveExactly(c.priority, id);
    assert c'.peers.Keys == c.peers.Keys - {id};
    assert |c'.peers| == |c'.peers.Keys| == |c.peers.Keys| - 1;
  }

  /** The loop of a `Remove` request over the peers of the torrent. */
  ghost predicate AllGone(c: Ctl, ids: seq<Hash>, c': Ctl)
    decreases |ids|
  {
    if ids == [] then c' == c
    else exists mid :: PeerGone(c, ids[0], mid) && AllGone(mid, ids[1..], c')
  }

  ghost predicate NoRepeats(ids: seq<Hash>) {
    forall i, j :: 0 <= i < j < |ids| ==> ids[i] != ids[j]
  }

  ghost function Elements(ids: seq<Hash>): set<Hash> {
    set id | id in ids
  }

  lemma {:induction false} FirstElement(ids: seq<Hash>)
    requires ids != [] && NoRepeats(ids)
    ensures Elements(ids) == {ids[0]} + Elements(ids[1..]) && ids[0] !in Elements(ids[1..]) && NoRepeats(ids[1..])
  {
    assert ids == [ids[0]] + ids[1..];
  }

  lemma {:induction false} DropTwice(c: Ctl, a: set<Hash>, b: set<Hash>)
    ensures Dropped(Dropped(c, a), b) == Dropped(c, a + b)
  {
  }

  lemma {:induction false} AllGoneExactly(c: Ctl, ids: seq<Hash>, c': Ctl)
    requires KeysAgree(c) && Calm(c.priority) && NoRepeats(ids) && Elements(ids) <= c.peers.Keys
    requires AllGone(c, ids, c')
    ensures c' == Dropped(c, Elements(ids)) && |c'.peers| == |c.peers| - |ids|
    decreases |ids|
  {
    if ids == [] {
      assert Dropped(c, {}) == c;
    } else {
      var mid :| PeerGone(c, ids[0], mid) && AllGone(mid, ids[1..], c');
      FirstGone(c, ids, mid);
      AllGoneExactly(mid, ids[1..], c');
      RestGone(c, ids, mid, c');
    }
  }

  lemma {:induction false} RestGone(c: Ctl, ids: seq<Hash>, mid: Ctl, c': Ctl)
    requires ids != [] && NoRepeats(ids) && mid == Dropped(c, {ids[0]}) && c' == Dropped(mid, Elements(ids[1..]))
    ensures c' == Dropped(c, Elements(ids))
  {
    FirstElement(ids);
    DropTwice(c, {ids[0]}, Elements(ids[1..]));
  }

  lemma {:induction false} FirstGone(c: Ctl, ids: seq<Hash>, mid: Ctl)
    requires KeysAgree(c) && Calm(c.priority) && NoRepeats(ids) && Elements(ids) <= c.peers.Keys
    requires ids != [] && PeerGone(c, ids[0], mid)
    ensures mid == Dropped(c, {ids[0]}) && KeysAgree(mid) && Calm(mid.priority) && |mid.peers| == |c.peers| - 1
    ensures NoRepeats(ids[1..]) && Elements(ids[1..]) <= mid.peers.Keys
  {
    FirstElement(ids);
    GoneExactly(c, ids[0], mid);
    assert mid.peers.Keys == c.peers.Keys - {ids[0]};
  }

  // ------------------------------------------------------- one report processed

  /** What the controller has recorded of a connected peer. */
  function Recorded(c: Ctl, id: Hash): View
    requires id in c.bitfields && id in c.priority
  {
    View(c.priority[id].choking, c.priority[id].interested, c.bitfields[id])
  }

  ghost predicate SameOthers(c: Ctl, id: Hash, c': Ctl) {
    && c'.peers == c.peers
    && c'.bitfields.Keys == c.bitfields.Keys && c'.priority.Keys == c.priority.Keys
    && (forall j :: j in c.bitfields && j != id ==> c'.bitfields[j] == c.bitfields[j])
    && (forall j :: j in c.priority && j != id ==> c'.priority[j] == c.priority[j])
    && (id in c.priority ==> c'.priority[id].infoHash == c.priority[id].infoHash)
  }

  /** A report that is not a disconnection changes the peer's record as `Apply` says, and nothing else;
      it panics exactly when `Apply` does (for a peer whose torrent is present). */
  lemma {:induction false} ProcessedApplies(torrents: set<Hash>, c: Ctl, id: Hash, u: PeerUpdate, r: Outcome<Ctl>)
    requires KeysAgree(c) && id in c.peers && c.priority[id].infoHash in torrents
    requires u != Disconnect && Processed(torrents, c, id, u, r)
    ensures r.Ok? <==> Apply(Recorded(c, id), u).Ok?
    ensures r.Ok? || r.Panic?
    ensures r.Ok? ==> SameOthers(c, id, r.value) && Recorded(r.value, id) == Apply(Recorded(c, id), u).value
    ensures r.Ok? && !u.DownloadSpeed? ==> r.value.priority[id].speed == c.priority[id].speed
  {
  }

  lemma {:induction false} ProcessedBitsGrow(torrents: set<Hash>, c: Ctl, j: Hash, u: PeerUpdate, c': Ctl, id: Hash)
    requires u != Disconnect && Processed(torrents, c, j, u, Ok(c')) && id in c.bitfields
    ensures id in c'.bitfields && Protocol.Covers(c'.bitfields[id], c.bitfields[id])
  {
  }
}
