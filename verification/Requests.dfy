/** Sending requests (src/bittorrent/manager.rs, `make_requests`): selects pieces of a running torrent
    and sends each to the first eligible peer that has it. */
module Requests {
  import opened Outcomes
  import opened Blocks
  import opened PieceQueues
  import opened Scheduler
  import opened Runtime
  import opened Peers

  const REQUESTS_LIMIT := 5

  /** The peers that may be asked for pieces of a torrent, in the order the queue is walked. */
  function Eligible(order: seq<Hash>, pq: PeerQueue, infoHash: Hash): (r: seq<Hash>)
    requires forall id :: id in order ==> id in pq
    ensures forall id :: id in r <==> id in order && !pq[id].choking && pq[id].infoHash == infoHash
  {
    if order == [] then []
    else
      var id := order[0];
      assert order == [id] + order[1..];
      (if !pq[id].choking && pq[id].infoHash == infoHash then [id] else []) + Eligible(order[1..], pq, infoHash)
  }

  /** The first peer that has piece `index`. */
  function FirstHolder(peers: seq<Hash>, bitfields: map<Hash, seq<bool>>, index: nat): (r: Option<Hash>)
    requires forall id :: id in peers ==> id in bitfields && index < |bitfields[id]|
    ensures r.Some? ==> r.value in peers && bitfields[r.value][index]
    ensures r.None? ==> forall id :: id in peers ==> !bitfields[id][index]
  {
    if peers == [] then None
    else
      assert peers == [peers[0]] + peers[1..];
      if bitfields[peers[0]][index] then Some(peers[0]) else FirstHolder(peers[1..], bitfields, index)
  }

  /** All eligible peers have a bitfield with one bit a piece. */
  ghost predicate Covered(peers: seq<Hash>, bitfields: map<Hash, seq<bool>>, npieces: nat) {
    forall id :: id in peers ==> id in bitfields && |bitfields[id]| == npieces
  }

  /** Every peer's bitfield says whether it has each of the pieces. */
  ghost predicate Known(peers: seq<Hash>, bitfields: map<Hash, seq<bool>>, selected: seq<Piece>) {
    forall p, id :: p in selected && id in peers ==> id in bitfields && p.index < |bitfields[id]|
  }

  /** The requests sent for the selected pieces: for each, one to its first holder, if it has one. */
  function Routed(peers: seq<Hash>, bitfields: map<Hash, seq<bool>>, selected: seq<Piece>): seq<(Hash, Piece)>
    requires Known(peers, bitfields, selected)
  {
    if selected == [] then []
    else
      var init, last := selected[..|selected| - 1], selected[|selected| - 1];
      assert selected == init + [last];
      assert forall p :: p in init ==> p in selected;
      Routed(peers, bitfields, init)
      + (match FirstHolder(peers, bitfields, last.index)
         case Some(id) => [(id, last)]
         case None => [])
  }

  /** `at` tells for which selected piece each request was sent: for none twice, for a piece exactly when some peer has
      it, and to a peer that has it. */
  ghost predicate Placed(peers: seq<Hash>, bitfields: map<Hash, seq<bool>>, selected: seq<Piece>,
                         sent: seq<(Hash, Piece)>, at: seq<nat>) {
    SentFor(peers, bitfields, selected, sent, at) && AllSent(peers, bitfields, selected, at)
  }

  ghost predicate SentFor(peers: seq<Hash>, bitfields: map<Hash, seq<bool>>, selected: seq<Piece>,
                          sent: seq<(Hash, Piece)>, at: seq<nat>) {
    && |at| == |sent|
    && (forall m, n :: 0 <= m < n < |at| ==> at[m] < at[n])
    && (forall m :: 0 <= m < |at| ==> at[m] < |selected| && sent[m].1 == selected[at[m]])
    && (forall m :: 0 <= m < |at| ==> HasPiece(peers, bitfields, sent[m].0, sent[m].1))
  }

  ghost predicate AllSent(peers: seq<Hash>, bitfields: map<Hash, seq<bool>>, selected: seq<Piece>, at: seq<nat>) {
    forall k :: 0 <= k < |selected| ==> (k in at <==> SomeoneHas(peers, bitfields, selected[k]))
  }

  ghost predicate SomeoneHas(peers: seq<Hash>, bitfields: map<Hash, seq<bool>>, p: Piece) {
    exists id :: HasPiece(peers, bitfields, id, p)
  }

  ghost predicate HasPiece(peers: seq<Hash>, bitfields: map<Hash, seq<bool>>, id: Hash, p: Piece) {
    id in peers && id in bitfields && p.index < |bitfields[id]| && bitfields[id][p.index]
  }

  /** Position by position: of the selected pieces each one that some peer has is sent to exactly one peer, which has
      it, and the others to nobody. */
  lemma {:induction false} RoutedSound(peers: seq<Hash>, bitfields: map<Hash, seq<bool>>, selected: seq<Piece>)
    returns (at: seq<nat>)
    requires Known(peers, bitfields, selected)
    ensures Placed(peers, bitfields, selected, Routed(peers, bitfields, selected), at)
    decreases |selected|
  {
    if selected == [] {
      at := [];
    } else {
      var n := |selected| - 1;
      var init, last := selected[..n], selected[n];
      assert selected == init + [last];
      assert forall p :: p in init ==> p in selected;
      var before := RoutedSound(peers, bitfields, init);
      at := before + if FirstHolder(peers, bitfields, last.index).Some? then [n] else [];
      PlacedAlso(peers, bitfields, init, last, before);
    }
  }

  lemma {:induction false} PlacedAlso(peers: seq<Hash>, bitfields: map<Hash, seq<bool>>, init: seq<Piece>,
                                      last: Piece, before: seq<nat>)
    requires Known(peers, bitfields, init + [last]) && Known(peers, bitfields, init) && last in init + [last]
    requires Placed(peers, bitfields, init, Routed(peers, bitfields, init), before)
    ensures var to := FirstHolder(peers, bitfields, last.index);
            Placed(peers, bitfields, init + [last],
                   Routed(peers, bitfields, init) + (match to case Some(id) => [(id, last)] case None => []),
                   before + if to.Some? then [|init|] else [])
  {
    var to := FirstHolder(peers, bitfields, last.index);
    assert to.Some? ==> HasPiece(peers, bitfields, to.value, last);
    assert to.Some? <==> SomeoneHas(peers, bitfields, last);
    SentForAlso(peers, bitfields, init, last, Routed(peers, bitfields, init), before, to);
    AllSentAlso(peers, bitfields, init, last, before);
  }

  lemma {:induction false} SentForAlso(peers: seq<Hash>, bitfields: map<Hash, seq<bool>>, init: seq<Piece>, last: Piece,
                    sent: seq<(Hash, Piece)>, before: seq<nat>, to: Option<Hash>)
    requires SentFor(peers, bitfields, init, sent, before) && (to.Some? ==> HasPiece(peers, bitfields, to.value, last))
    ensures SentFor(peers, bitfields, init + [last], sent + (match to case Some(id) => [(id, last)] case None => []),
                    before + if to.Some? then [|init|] else [])
  {
  }

  lemma {:induction false} AllSentAlso(peers: seq<Hash>, bitfields: map<Hash, seq<bool>>, init: seq<Piece>,
                                       last: Piece, before: seq<nat>)
    requires AllSent(peers, bitfields, init, before) && forall m :: 0 <= m < |before| ==> before[m] < |init|
    ensures AllSent(peers, bitfields, init + [last],
                    before + if SomeoneHas(peers, bitfields, last) then [|init|] else [])
  {
    var at := before + if SomeoneHas(peers, bitfields, last) then [|init|] else [];
    assert |init| !in before;
    assert SomeoneHas(peers, bitfields, last) ==> at[|before|] == |init|;
    forall k | 0 <= k < |init| ensures k in at <==> k in before {
    }
  }

  /** Piece indices the scheduler can still hand out. */
  ghost predicate InRange(g: Geometry, s: Sched) {
    && (forall i :: i in s.queue.prio ==> i < g.npieces)
    && (forall r :: r in s.outstanding ==> r.piece.index < g.npieces)
  }

  lemma {:induction false} ConsistentInRange(g: Geometry, s: Sched, released: set<nat>, clock: nat)
    requires Consistent(g, s, released, clock)
    ensures InRange(g, s)
  {
    forall r | r in s.outstanding ensures r.piece.index < g.npieces {
      assert r.piece.index in Outstanding(s.outstanding);
      assert r.piece.index in Indices(g.npieces);
    }
    forall i | i in s.queue.prio ensures i < g.npieces {
      assert i in Indices(g.npieces);
    }
  }

  /** A selected piece exists, and selecting it uses up a queued piece or an outstanding request. */
  lemma {:induction false} SelectProgress(g: Geometry, s: Sched, released: set<nat>, clock: nat, now: nat,
                                          r: Option<Piece>, s': Sched)
    requires Consistent(g, s, released, clock) && Select(g, s, now, r, s')
    ensures r.Some? ==>
      && r.value.index < g.npieces
      && |s'.queue.prio| <= |s.queue.prio|
      && (|s'.queue.prio| < |s.queue.prio| || |s'.outstanding| < |s.outstanding|)
    ensures |s'.outstanding| <= |s.outstanding| + 1
  {
    ConsistentInRange(g, s, released, clock);
    if FrontExpired(s, now) {
      assert s.outstanding[0] in s.outstanding;
    } else if r.Some? {
      assert s'.queue.prio.Keys == s.queue.prio.Keys - {r.value.index};
      assert |s'.queue.prio.Keys| == |s.queue.prio.Keys| - 1;
    }
  }

  /** The scheduler at a moment, with the pieces released so far. */
  datatype Book = Book(sched: Sched, released: set<nat>, clock: nat)

  /** b' is reached from b by selecting these pieces, one after the other, each while there was room for a request. */
  ghost predicate Selecting(g: Geometry, b: Book, selected: seq<Piece>, b': Book)
    decreases |selected|
  {
    if selected == [] then b' == b
    else
      var init, last := selected[..|selected| - 1], selected[|selected| - 1];
      exists mid: Book :: Selecting(g, b, init, mid) && Requested(g, mid, last, b')
  }

  /** Selecting a piece while there is room, at time b'.clock. */
  ghost predicate Requested(g: Geometry, b: Book, piece: Piece, b': Book) {
    && |b.sched.outstanding| < REQUESTS_LIMIT
    && b.clock <= b'.clock
    && Select(g, b.sched, b'.clock, Some(piece), b'.sched)
    && b'.released == b.released + ReleasedBy(b.sched, Selected(b'.clock, Some(piece)))
  }

  lemma {:induction false} SelectingNext(g: Geometry, b: Book, selected: seq<Piece>, mid: Book, piece: Piece, b': Book)
    requires Selecting(g, b, selected, mid) && Requested(g, mid, piece, b')
    ensures Selecting(g, b, selected + [piece], b')
  {
    var all := selected + [piece];
    assert all[..|all| - 1] == selected && all[|all| - 1] == piece;
    assert Selecting(g, b, all[..|all| - 1], mid) && Requested(g, mid, all[|all| - 1], b');
  }

  ghost predicate InOrder(g: Geometry, b: Book) {
    Consistent(g, b.sched, b.released, b.clock)
  }

  /** No room for another request, or nothing left to select. */
  ghost predicate Finished(g: Geometry, b: Book) {
    || |b.sched.outstanding| >= REQUESTS_LIMIT
    || exists now: nat :: b.clock <= now && Select(g, b.sched, now, None, b.sched)
  }

  // ------------------------------------------------------------- whole runs

  /** Every selection of the run is made while there is room for a request, as the loop makes them. */
  ghost predicate Guarded(states: seq<Sched>, es: seq<Event>)
    requires |states| == |es| + 1
  {
    forall k :: 0 <= k < |es| && es[k].Selected? ==> |states[k].outstanding| < REQUESTS_LIMIT
  }

  lemma {:induction false} LimitNext(g: Geometry, s: Sched, e: Event, s': Sched)
    requires Next(g, s, e, s')
    ensures |s'.outstanding| <= |s.outstanding| + if e.Selected? then 1 else 0
  {
  }

  /** Over every run whose selections are guarded so, no more than REQUESTS_LIMIT requests are ever outstanding. */
  lemma {:induction false} WithinLimit(g: Geometry, states: seq<Sched>, es: seq<Event>, n: nat)
    requires Scheduler.Run(g, states, es) && Guarded(states, es) && n <= |es|
    ensures |states[n].outstanding| <= REQUESTS_LIMIT
  {
    for k := 0 to n
      invariant |states[k].outstanding| <= REQUESTS_LIMIT
    {
      RunStep(g, states, es, k);
      LimitNext(g, states[k], es[k], states[k + 1]);
    }
  }

  /** Where a run has got to. */
  ghost function BookAt(states: seq<Sched>, es: seq<Event>): Book
    requires |states| == |es| + 1
  {
    Book(states[|es|], Released(states, es), Clock(es))
  }

  lemma {:induction false} RunNext(g: Geometry, states: seq<Sched>, es: seq<Event>, piece: Piece, b: Book)
    requires Scheduler.Run(g, states, es) && Guarded(states, es) && Requested(g, BookAt(states, es), piece, b)
    ensures var states', es' := states + [b.sched], es + [Selected(b.clock, Some(piece))];
            Scheduler.Run(g, states', es') && Guarded(states', es') && BookAt(states', es') == b
  {
    var e := Selected(b.clock, Some(piece));
    var states', es' := states + [b.sched], es + [e];
    assert es'[..|es|] == es && states'[..|es'|] == states;
    forall k | 0 <= k < |es'| && es'[k].Selected? ensures Clock(es'[..k]) <= es'[k].now {
      assert k < |es| ==> es'[..k] == es[..k];
    }
  }

  /** The selections of the loop continue any run, and keep its selections guarded. */
  lemma {:induction false} SelectingRuns(g: Geometry, states: seq<Sched>, es: seq<Event>, selected: seq<Piece>, b: Book)
    returns (states': seq<Sched>, es': seq<Event>)
    requires Scheduler.Run(g, states, es) && Guarded(states, es) && Selecting(g, BookAt(states, es), selected, b)
    ensures Scheduler.Run(g, states', es') && Guarded(states', es') && BookAt(states', es') == b
    ensures states <= states' && es <= es'
    decreases |selected|
  {
    if selected == [] {
      states', es' := states, es;
    } else {
      var init, last := selected[..|selected| - 1], selected[|selected| - 1];
      var mid :| Selecting(g, BookAt(states, es), init, mid) && Requested(g, mid, last, b);
      states', es' := SelectingRuns(g, states, es, init, mid);
      RunNext(g, states', es', last, b);
      states', es' := states' + [b.sched], es' + [Selected(b.clock, Some(last))];
    }
  }

  // ---------------------------------------------------------------- the loop

  /** The request loop for one torrent, running: it goes on until there is no room for another request or nothing left
      to select. The clock is read anew for every selection. */
  method MakeRequests(rt: TorrentRuntime, infoHash: Hash, order: seq<Hash>, pq: PeerQueue,
                      bitfields: map<Hash, seq<bool>>, clock: nat, ghost released: set<nat>)
    returns (sent: seq<(Hash, Piece)>, ghost selected: seq<Piece>, ghost at: seq<nat>, ghost b: Book)
    requires Exact(rt.torrent.geo)
    requires forall id :: id in order ==> id in pq
    requires Covered(Eligible(order, pq, infoHash), bitfields, rt.torrent.geo.npieces)
    requires Consistent(rt.torrent.geo, rt.Scheduled(), released, clock)
    modifies rt`outstanding, rt.pieceQueue
    ensures b.sched == rt.Scheduled() && InOrder(rt.torrent.geo, b)
    ensures |rt.outstanding| <= REQUESTS_LIMIT || |rt.outstanding| <= |old(rt.outstanding)|
    ensures Selecting(rt.torrent.geo, Book(old(rt.Scheduled()), released, clock), selected, b)
    ensures if rt.status == Running then Finished(rt.torrent.geo, b) else selected == []
    ensures Known(Eligible(order, pq, infoHash), bitfields, selected)
    ensures sent == Routed(Eligible(order, pq, infoHash), bitfields, selected)
    ensures Placed(Eligible(order, pq, infoHash), bitfields, selected, sent, at)
    ensures forall m :: m in sent ==> m.0 in order && !pq[m.0].choking && pq[m.0].infoHash == infoHash
  {
    sent, selected, at := [], [], [];
    b := Book(rt.Scheduled(), released, clock);
    if rt.status == Running {
      var peers := Eligible(order, pq, infoHash);
      sent, selected, b := RequestPieces(rt, peers, bitfields, clock, b);
      at := RoutedSound(peers, bitfields, selected);
      SentToEligible(peers, bitfields, selected, sent, at);
    }
  }

  /** The loop itself, with the eligible peers collected. */
  method RequestPieces(rt: TorrentRuntime, peers: seq<Hash>, bitfields: map<Hash, seq<bool>>, clock: nat,
                       ghost start: Book)
    returns (sent: seq<(Hash, Piece)>, ghost selected: seq<Piece>, ghost b: Book)
    requires Exact(rt.torrent.geo) && Covered(peers, bitfields, rt.torrent.geo.npieces)
    requires start.sched == rt.Scheduled() && start.clock == clock && InOrder(rt.torrent.geo, start)
    modifies rt`outstanding, rt.pieceQueue
    ensures b.sched == rt.Scheduled() && InOrder(rt.torrent.geo, b)
    ensures |rt.outstanding| <= REQUESTS_LIMIT || |rt.outstanding| <= |old(rt.outstanding)|
    ensures Selecting(rt.torrent.geo, start, selected, b) && Finished(rt.torrent.geo, b)
    ensures Known(peers, bitfields, selected) && sent == Routed(peers, bitfields, selected)
  {
    var now := clock;
    sent, selected, b := [], [], start;
    var g := rt.torrent.geo;
    while |rt.outstanding| < REQUESTS_LIMIT
      invariant b.sched == rt.Scheduled() && b.clock <= now && InOrder(g, b)
      invariant |rt.outstanding| <= |old(rt.outstanding)| || |rt.outstanding| <= REQUESTS_LIMIT
      invariant Selecting(g, start, selected, b)
      invariant Known(peers, bitfields, selected) && sent == Routed(peers, bitfields, selected)
      decreases |rt.pieceQueue.queue|, |rt.outstanding|
    {
      var reading: nat :| reading >= now;
      now := reading;
      var choice;
      choice, b := SelectOne(rt, start, selected, b, now);
      match choice {
        case Some(piece) =>
          var to := SendToFirst(peers, bitfields, piece);
          RoutedNext(peers, bitfields, g.npieces, selected, piece);
          selected := selected + [piece];
          sent := sent + to;
        case None => break;
      }
    }
  }

  lemma {:induction false} SentToEligible(peers: seq<Hash>, bitfields: map<Hash, seq<bool>>, selected: seq<Piece>,
                       sent: seq<(Hash, Piece)>, at: seq<nat>)
    requires Placed(peers, bitfields, selected, sent, at)
    ensures forall m :: m in sent ==> m.0 in peers
  {
    forall m | m in sent ensures m.0 in peers {
      var k :| 0 <= k < |sent| && sent[k] == m;
      assert at[k] < |selected|;
    }
  }

  lemma {:induction false} RoutedNext(peers: seq<Hash>, bitfields: map<Hash, seq<bool>>, npieces: nat,
                                      selected: seq<Piece>, piece: Piece)
    requires Known(peers, bitfields, selected) && Covered(peers, bitfields, npieces) && piece.index < npieces
    ensures Known(peers, bitfields, selected + [piece])
    ensures Routed(peers, bitfields, selected + [piece])
            == Routed(peers, bitfields, selected)
               + (match FirstHolder(peers, bitfields, piece.index) case Some(id) => [(id, piece)] case None => [])
  {
    assert (selected + [piece])[..|selected|] == selected;
  }

  /** One selection of the loop, with what it does to the bookkeeping. */
  method SelectOne(rt: TorrentRuntime, ghost start: Book, ghost selected: seq<Piece>, ghost b: Book, now: nat)
    returns (r: Option<Piece>, ghost b': Book)
    requires Exact(rt.torrent.geo) && b.sched == rt.Scheduled() && b.clock <= now && InOrder(rt.torrent.geo, b)
    requires Selecting(rt.torrent.geo, start, selected, b) && |rt.outstanding| < REQUESTS_LIMIT
    modifies rt`outstanding, rt.pieceQueue
    ensures b'.sched == rt.Scheduled() && b'.clock <= now && InOrder(rt.torrent.geo, b')
    ensures r.None? ==> b' == b && Finished(rt.torrent.geo, b')
    ensures r.Some? ==>
      && Selecting(rt.torrent.geo, start, selected + [r.value], b')
      && r.value.index < rt.torrent.geo.npieces
      && |rt.pieceQueue.queue| <= |old(rt.pieceQueue.queue)|
      && (|rt.pieceQueue.queue| < |old(rt.pieceQueue.queue)| || |rt.outstanding| < |old(rt.outstanding)|)
    ensures |rt.outstanding| <= |old(rt.outstanding)| + 1
  {
    ghost var g, before := rt.torrent.geo, rt.Scheduled();
    ConsistentInRange(g, before, b.released, b.clock);
    r := rt.SelectPiece(now);
    SelectConsistent(g, before, b.released, b.clock, now, r, rt.Scheduled());
    SelectProgress(g, before, b.released, b.clock, now, r, rt.Scheduled());
    if r.Some? {
      b' := Book(rt.Scheduled(), b.released + ReleasedBy(before, Selected(now, r)), now);
      SelectingNext(g, start, selected, b, r.value, b');
    } else {
      b' := b;
      assert rt.Scheduled() == before;
    }
  }

  /** The inner loop: ask the first eligible peer that has the piece. */
  method SendToFirst(peers: seq<Hash>, bitfields: map<Hash, seq<bool>>, piece: Piece) returns (sent: seq<(Hash, Piece)>)
    requires forall id :: id in peers ==> id in bitfields && piece.index < |bitfields[id]|
    ensures sent == match FirstHolder(peers, bitfields, piece.index) case Some(id) => [(id, piece)] case None => []
  {
    var k := 0;
    assert peers[0..] == peers;
    while k < |peers|
      invariant 0 <= k <= |peers|
      invariant FirstHolder(peers, bitfields, piece.index) == FirstHolder(peers[k..], bitfields, piece.index)
    {
      var id := peers[k];
      if bitfields[id][piece.index] {
        return [(id, piece)];
      }
      assert peers[k..][1..] == peers[k + 1..];
      k := k + 1;
    }
    return [];
  }
}
