/** What the controller records of a peer to rank it (src/bittorrent/manager.rs, `PeerPriority`). */
module Peers {
  import opened Outcomes

  /** A 20-byte identity (of a peer or of a torrent); only equality matters here. */
  type Hash = nat

  const USIZE_MAX: nat := USIZE_LIMIT - 1

  datatype PeerPriority = PeerPriority(infoHash: Hash, interested: bool, speed: nat, choking: bool) {
    function FlipInterested(): PeerPriority {
      this.(interested := !interested)
    }

    function FlipChoking(): PeerPriority {
      this.(choking := !choking)
    }

    function SetDownload(s: nat): PeerPriority {
      this.(speed := s)
    }

    function SetMax(): PeerPriority {
      this.(interested := true, speed := USIZE_MAX)
    }
  }

  function NewPriority(infoHash: Hash): PeerPriority {
    PeerPriority(infoHash, false, 0, true)
  }

  datatype Ordering = Less | Equal | Greater

  function CompareNat(a: nat, b: nat): Ordering {
    if a < b then Less else if a == b then Equal else Greater
  }

  /** `PeerPriority::cmp`. */
  function Compare(a: PeerPriority, b: PeerPriority): Ordering {
    if (a.interested && b.interested) || (!a.interested && !b.interested) then CompareNat(a.speed, b.speed)
    else if a.interested && !b.interested then Greater
    else Less
  }

  predicate AtMost(a: PeerPriority, b: PeerPriority) {
    Compare(a, b) != Greater
  }

  /** The comparison is a total preorder, consistent with its mirror image. */
  lemma {:induction false} TotalPreorder(a: PeerPriority, b: PeerPriority, c: PeerPriority)
    ensures AtMost(a, b) || AtMost(b, a)
    ensures AtMost(a, b) && AtMost(b, c) ==> AtMost(a, c)
    ensures Compare(a, b) == Equal <==> AtMost(a, b) && AtMost(b, a)
    ensures Compare(a, b) == Less <==> Compare(b, a) == Greater
  {
  }

  // ---------------------------------------------------------- the peer queue

  type PeerQueue = map<Hash, PeerPriority>

  ghost predicate Top(pq: PeerQueue, id: Hash) {
    id in pq && forall j :: j in pq ==> AtMost(pq[j], pq[id])
  }

  lemma {:induction false} TopExists(pq: PeerQueue)
    requires pq != map[]
    ensures exists id :: Top(pq, id)
    decreases |pq|
  {
    var k :| k in pq;
    var rest := pq - {k};
    if rest == map[] {
      forall j | j in pq ensures AtMost(pq[j], pq[k]) {
        assert j != k ==> j in rest;
      }
      assert Top(pq, k);
    } else {
      TopExists(rest);
      var i :| Top(rest, i);
      var best := if AtMost(pq[k], pq[i]) then i else k;
      forall j | j in pq ensures AtMost(pq[j], pq[best]) {
        assert j != k ==> j in rest;
        TotalPreorder(pq[j], pq[i], pq[k]);
      }
      assert Top(pq, best);
    }
  }

  /** `pop`: some item of highest priority goes. */
  ghost predicate Popped(pq: PeerQueue, pq': PeerQueue) {
    if pq == map[] then pq' == pq else exists id :: Top(pq, id) && pq' == pq - {id}
  }

  function Raised(pq: PeerQueue, id: Hash): PeerQueue {
    if id in pq then pq[id := pq[id].SetMax()] else pq
  }

  /** `remove`: raise the peer to the maximum, then pop. */
  ghost predicate Removed(pq: PeerQueue, id: Hash, pq': PeerQueue) {
    Popped(Raised(pq, id), pq')
  }

  /** As high as `set_max` raises a peer. */
  predicate AtMaximum(p: PeerPriority) {
    p.interested && p.speed == USIZE_MAX
  }

  ghost predicate Bounded(pq: PeerQueue) {
    forall j :: j in pq ==> pq[j].speed <= USIZE_MAX
  }

  /** `remove` is sure to take out the named peer, and only that one, exactly when the peer is in
      the queue and no other peer is already at the maximum (or the queue is empty). */
  lemma {:induction false} RemoveExactly(pq: PeerQueue, id: Hash)
    requires Bounded(pq)
    ensures (forall pq' :: Removed(pq, id, pq') ==> pq' == pq - {id})
            <==> pq == map[] || (id in pq && forall j :: j in pq && j != id ==> !AtMaximum(pq[j]))
  {
    var up: PeerQueue := Raised(pq, id);
    if pq == map[] {
    } else if id !in pq {
      TopExists(pq);
      var t :| Top(pq, t);
      assert Removed(pq, id, pq - {t});
      assert t in pq - {id};
    } else if exists j :: j in pq && j != id && AtMaximum(pq[j]) {
      var j :| j in pq && j != id && AtMaximum(pq[j]);
      assert Top(up, j);
      assert Removed(pq, id, up - {j});
      assert j in pq - {id} && j !in up - {j};
    } else {
      forall pq' | Removed(pq, id, pq') ensures pq' == pq - {id} {
        var t :| Top(up, t) && pq' == up - {t};
        assert AtMost(up[id], up[t]);
        assert t == id;
      }
    }
  }

  // ------------------------------------------------------------------- choking

  const MAX_UPLOADERS := 5

  /** Every peer once, best first. */
  ghost predicate Ranking(pq: PeerQueue, order: seq<Hash>) {
    && (forall id :: id in order <==> id in pq)
    && (forall i, j :: 0 <= i < j < |order| ==> order[i] != order[j])
    && (forall i, j :: 0 <= i < j < |order| ==> AtMost(pq[order[j]], pq[order[i]]))
  }

  /** The peers of `order` come before those of `rest`, best first. */
  ghost predicate RankedSoFar(pq: PeerQueue, order: seq<Hash>, rest: PeerQueue) {
    && (forall id :: id in pq <==> id in rest || id in order)
    && (forall id :: id in rest ==> id in pq && rest[id] == pq[id] && id !in order)
    && (forall i, j :: 0 <= i < j < |order| ==> order[i] != order[j])
    && (forall i, j :: 0 <= i < j < |order| ==> AtMost(pq[order[j]], pq[order[i]]))
    && (forall id, i :: id in rest && 0 <= i < |order| ==> AtMost(pq[id], pq[order[i]]))
  }

  lemma {:induction false} RankNext(pq: PeerQueue, order: seq<Hash>, rest: PeerQueue, id: Hash)
    requires RankedSoFar(pq, order, rest) && Top(rest, id)
    ensures RankedSoFar(pq, order + [id], rest - {id})
  {
    var longer := order + [id];
    forall j | j in pq ensures j in rest - {id} || j in longer {
      assert longer[|order|] == id;
      if j in order {
        assert j in longer;
      }
    }
  }

  lemma {:induction false} SplitRanking(pq: PeerQueue, a: seq<Hash>, b: seq<Hash>)
    requires Ranking(pq, a + b)
    ensures forall u, c :: u in a && c in b ==> AtMost(pq[c], pq[u])
  {
    forall u, c | u in a && c in b ensures AtMost(pq[c], pq[u]) {
      var i :| 0 <= i < |a| && a[i] == u;
      var j :| 0 <= j < |b| && b[j] == c;
      assert (a + b)[i] == u && (a + b)[|a| + j] == c;
    }
  }

  /** `choke`: walk the peers best first; the first five are unchoked, the others choked. */
  method Choke(pq: PeerQueue) returns (unchoked: seq<Hash>, choked: seq<Hash>)
    ensures |unchoked| <= MAX_UPLOADERS && (choked != [] ==> |unchoked| == MAX_UPLOADERS)
    ensures Ranking(pq, unchoked + choked)
    ensures forall u, c :: u in unchoked && c in choked ==> AtMost(pq[c], pq[u])
  {
    unchoked, choked := [], [];
    var rest := pq;
    var i := 0;
    while rest != map[]
      invariant |unchoked| <= MAX_UPLOADERS && (choked != [] ==> |unchoked| == MAX_UPLOADERS)
      invariant i == |unchoked + choked|
      invariant RankedSoFar(pq, unchoked + choked, rest)
      decreases rest.Keys
    {
      TopExists(rest);
      var id :| id in rest && forall j :: j in rest ==> AtMost(rest[j], rest[id]);
      RankNext(pq, unchoked + choked, rest, id);
      ghost var longer := unchoked + choked + [id];
      if i < MAX_UPLOADERS {
        unchoked := unchoked + [id];
      } else {
        choked := choked + [id];
      }
      assert unchoked + choked == longer;
      rest := rest - {id};
      i := i + 1;
    }
    SplitRanking(pq, unchoked, choked);
  }
}
