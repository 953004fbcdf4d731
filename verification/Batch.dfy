/** The controller's `check_messages` round, which drains all queues before processing anything, seen
    as single deliveries of the step system. */
module Batch {
  import opened Outcomes
  import opened Peers
  import opened Protocol
  import opened ControllerState
  import opened ControllerObject
  import opened PeerSystem

  function Undelivered(c: Ctl): Ctl {
    c.(peers := Emptied(c.peers))
  }

  /** A system whose controller has processed one drained report, its other queues still waiting. */
  function AfterOne(s: System, id: Hash, mid: Ctl): System
    requires id in s.ctl.peers && s.ctl.peers[id] != []
  {
    var us := s.ctl.peers[id];
    var waiting := s.ctl.peers[id := us[1..]];
    s.(ctl := mid.(peers := map j | j in mid.peers && j in waiting :: waiting[j]),
       npeers := s.npeers - if us[0].Disconnect? then 1 else 0)
  }

  /** The queues left after that step. */
  function Waiting(s: System, id: Hash): map<Hash, seq<PeerUpdate>>
    requires id in s.ctl.peers && s.ctl.peers[id] != []
  {
    var us := s.ctl.peers[id];
    if us[0].Disconnect? then s.ctl.peers - {id} else s.ctl.peers[id := us[1..]]
  }

  lemma {:induction false} QueuesAfter(s: System, id: Hash, mid: Ctl)
    requires id in s.ctl.peers && s.ctl.peers[id] != []
    requires Processed(s.torrents, Undelivered(s.ctl), id, s.ctl.peers[id][0], Ok(mid))
    ensures AfterOne(s, id, mid).ctl.peers == Waiting(s, id)
    ensures mid.peers == Emptied(Waiting(s, id))
  {
    var us := s.ctl.peers[id];
    if us[0].Disconnect? {
      assert mid.peers == Emptied(s.ctl.peers) - {id};
    } else {
      assert mid.peers == Emptied(s.ctl.peers);
    }
  }

  /** Processing a drained report and delivering it from its queue come to the same. */
  lemma {:induction false} SameStep(s: System, id: Hash, mid: Ctl)
    requires id in s.ctl.peers && s.ctl.peers[id] != []
    requires Processed(s.torrents, Undelivered(s.ctl), id, s.ctl.peers[id][0], Ok(mid))
    ensures Delivered(s, id, AfterOne(s, id, mid)) && Undelivered(AfterOne(s, id, mid).ctl) == mid
  {
    QueuesAfter(s, id, mid);
    var us := s.ctl.peers[id];
    var queued := s.ctl.(peers := s.ctl.peers[id := us[1..]]);
    SameProcessing(s.torrents, Undelivered(s.ctl), queued, id, us[0], mid, AfterOne(s, id, mid).ctl);
  }

  /** Processing looks at the queues of undelivered reports only to drop one. */
  lemma {:induction false} SameProcessing(torrents: set<Hash>, c: Ctl, d: Ctl, id: Hash, u: PeerUpdate, c': Ctl,
                                          d': Ctl)
    requires Processed(torrents, c, id, u, Ok(c'))
    requires c.bitfields == d.bitfields && c.priority == d.priority
    requires c'.bitfields == d'.bitfields && c'.priority == d'.priority
    requires d'.peers == if u.Disconnect? then d.peers - {id} else d.peers
    ensures Processed(torrents, d, id, u, Ok(d'))
  {
  }

  /** No drained report can panic. */
  lemma {:induction false} NoPanicInBatch(np: Pieces, s: System, id: Hash, m: Outcome<Ctl>)
    requires Inv(np, s) && id in s.ctl.peers && s.ctl.peers[id] != []
    requires Processed(s.torrents, Undelivered(s.ctl), id, s.ctl.peers[id][0], m)
    ensures m.Ok?
  {
    var u := s.ctl.peers[id][0];
    assert PeerInStep(np, s, id);
    if u != Disconnect {
      assert Recorded(Undelivered(s.ctl), id) == Recorded(s.ctl, id);
      ProcessedApplies(s.torrents, Undelivered(s.ctl), id, u, m);
    }
  }

  lemma {:induction false} FirstOf(ms: Messages, id: Hash)
    requires ms != []
    ensures Only(ms, id) == (if ms[0].0 == id then [ms[0].1] else []) + Only(ms[1..], id)
    decreases |ms|
  {
    var n := |ms| - 1;
    if n == 0 {
      assert ms[1..] == [] && ms[..0] == [];
    } else {
      var first, last := if ms[0].0 == id then [ms[0].1] else [], if ms[n].0 == id then [ms[n].1] else [];
      var middle := ms[1..][..n - 1];
      FirstOf(ms[..n], id);
      assert ms[..n][1..] == middle;
      assert Only(ms[1..], id) == Only(middle, id) + last;
      Regroup(first, Only(middle, id), last);
    }
  }

  lemma {:induction false} Regroup(a: seq<PeerUpdate>, b: seq<PeerUpdate>, c: seq<PeerUpdate>)
    ensures (a + b) + c == a + (b + c)
  {
  }

  lemma {:induction false} SentBy(ms: Messages, id: Hash)
    requires Only(ms, id) == []
    ensures forall m :: m in ms ==> m.0 != id
    decreases |ms|
  {
    if ms != [] {
      SentBy(ms[..|ms| - 1], id);
      assert ms == ms[..|ms| - 1] + [ms[|ms| - 1]];
    }
  }

  /** The messages after the first are the reports still waiting. */
  lemma {:induction false} RestWaiting(s: System, ms: Messages)
    requires ms != [] && AllReports(s.ctl.peers, ms)
    requires ms[0].0 in s.ctl.peers && s.ctl.peers[ms[0].0] != [] && s.ctl.peers[ms[0].0][0] == ms[0].1
    requires ms[0].1.Disconnect? ==> s.ctl.peers[ms[0].0][1..] == []
    ensures AllReports(Waiting(s, ms[0].0), ms[1..])
  {
    var (id, u) := ms[0];
    forall j | j in s.ctl.peers
      ensures Only(ms[1..], j) == if j == id then s.ctl.peers[id][1..] else s.ctl.peers[j]
    {
      FirstOf(ms, j);
    }
    if u.Disconnect? {
      SentBy(ms[1..], id);
    }
    forall m | m in ms[1..] ensures m.0 in Waiting(s, id) {
      assert m in ms;
    }
  }

  /** Nothing is waiting behind a disconnection. */
  lemma {:induction false} LastReport(np: Pieces, s: System, id: Hash)
    requires Inv(np, s) && id in s.ctl.peers && s.ctl.peers[id] != [] && s.ctl.peers[id][0] == Disconnect
    ensures s.ctl.peers[id][1..] == []
  {
    assert PeerInStep(np, s, id);
  }

  /** With nothing left to deliver, the records are what the workers have told. */
  lemma {:induction false} AllDelivered(np: Pieces, s: System)
    requires Inv(np, s) && AllReports(s.ctl.peers, [])
    ensures Undelivered(s.ctl) == s.ctl
    ensures forall id :: id in s.ctl.peers ==>
              && s.ctl.peers[id] == [] && id in s.workers && id in s.ctl.priority && id in s.ctl.bitfields
              && Recorded(s.ctl, id) == s.workers[id].told
  {
    forall id | id in s.ctl.peers ensures s.ctl.peers[id] == [] && PeerInStep(np, s, id) {
      assert Only([], id) == [];
    }
    assert Undelivered(s.ctl).peers == s.ctl.peers;
  }

  /** A whole round of `check_messages` never panics, and is a sequence of deliveries: it ends in a state that
      keeps the invariant and in which, with all queues empty, the controller's record of every
      peer is what the peer's worker has told. */
  lemma {:induction false} RoundOfDeliveries(np: Pieces, s: System, ms: Messages, r: Outcome<Ctl>) returns (s': System)
    requires Inv(np, s) && AllReports(s.ctl.peers, ms)
    requires ProcessedAll(s.torrents, Undelivered(s.ctl), ms, r)
    ensures r == Ok(s'.ctl) && Inv(np, s')
    ensures s'.npeers == s.npeers - Disconnections(ms)
    ensures s'.workers == s.workers && s'.torrents == s.torrents && s'.pending == s.pending
    ensures forall id :: id in s'.ctl.peers ==>
              && s'.ctl.peers[id] == [] && id in s'.workers && id in s'.ctl.priority && id in s'.ctl.bitfields
              && Recorded(s'.ctl, id) == s'.workers[id].told
    decreases |ms|
  {
    if ms == [] {
      s' := s;
      AllDelivered(np, s);
    } else {
      var (id, u) := ms[0];
      var m :| Processed(s.torrents, Undelivered(s.ctl), id, u, m)
               && (if m.Ok? then ProcessedAll(s.torrents, m.value, ms[1..], r) else r == m);
      assert ms[0] in ms;
      FirstOf(ms, id);
      NoPanicInBatch(np, s, id, m);
      SameStep(s, id, m.value);
      QueuesAfter(s, id, m.value);
      if u.Disconnect? {
        LastReport(np, s, id);
      }
      RestWaiting(s, ms);
      var s1 := AfterOne(s, id, m.value);
      NextKeeps(np, s, Deliver(id), s1);
      s' := RoundOfDeliveries(np, s1, ms[1..], r);
    }
  }

  /** A round of `try_recv_new_peer` panics exactly when some pending peer's torrent is gone. */
  lemma {:induction false} RegistrationPanics(np: Pieces, torrents: set<Hash>, c: Ctl, pending: seq<NewPeerMsg>)
    ensures RegisterAll(np, torrents, c, pending) != Err
    ensures RegisterAll(np, torrents, c, pending).Panic? <==> exists n :: n in pending && n.infoHash !in torrents
    decreases |pending|
  {
    if pending != [] {
      RegistrationPanics(np, torrents, Admit(np, c, pending[0]), pending[1..]);
      assert forall n :: n in pending <==> n == pending[0] || n in pending[1..];
    }
  }

  function Admitted(np: Pieces, s: System): System
    requires s.pending != []
  {
    s.(pending := s.pending[1..], ctl := Admit(np, s.ctl, s.pending[0]))
  }

  lemma {:induction false} RegisterStep(np: Pieces, s: System)
    requires s.pending != [] && s.pending[0].infoHash in s.torrents
    ensures Next(np, s, Register, Admitted(np, s))
  {
  }

  /** Otherwise it is a sequence of registrations: it takes over every pending peer and keeps the invariant. */
  lemma {:induction false} RoundOfRegistrations(np: Pieces, s: System, c: Ctl)
    requires Inv(np, s) && RegisterAll(np, s.torrents, s.ctl, s.pending) == Ok(c)
    ensures Inv(np, s.(pending := [], ctl := c))
    decreases |s.pending|
  {
    if s.pending == [] {
      assert s.(pending := [], ctl := c) == s;
    } else {
      var s1 := Admitted(np, s);
      RegisterStep(np, s);
      NextKeeps(np, s, Register, s1);
      RoundOfRegistrations(np, s1, c);
      assert s1.(pending := [], ctl := c) == s.(pending := [], ctl := c);
    }
  }
}
