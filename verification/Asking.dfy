/** The request loop and the choking round in the step system: what they expect of the controller's records holds in
    every reachable state (src/bittorrent/manager.rs, `make_requests` and `choke`). */
module Asking {
  import opened Peers
  import PeerSystem
  import Requests

  /** In every reachable state each peer in the priority queue has a channel and a bitfield with one bit for each
      piece of its torrent; so whoever is asked for a piece, its bit can be looked up and the request sent. */
  lemma {:induction false} RequestsCovered(np: PeerSystem.Pieces, states: seq<PeerSystem.System>,
                                           steps: seq<PeerSystem.Step>, k: nat, order: seq<Hash>, h: Hash)
    requires PeerSystem.Run(np, states, steps) && k <= |steps|
    requires forall id :: id in order ==> id in states[k].ctl.priority
    ensures var c := states[k].ctl;
            && Requests.Covered(Requests.Eligible(order, c.priority, h), c.bitfields, np(h))
            && (forall id :: id in order ==> id in c.peers)
  {
    PeerSystem.RunInv(np, states, steps, k);
    var s := states[k];
    forall id | id in Requests.Eligible(order, s.ctl.priority, h)
      ensures id in s.ctl.bitfields && |s.ctl.bitfields[id]| == np(h)
    {
      assert PeerSystem.PeerInStep(np, s, id);
    }
  }

  /** Nor does the choking round miss a channel: everybody it ranks is connected. */
  lemma {:induction false} ChokingCovered(np: PeerSystem.Pieces, states: seq<PeerSystem.System>,
                                          steps: seq<PeerSystem.Step>, k: nat, order: seq<Hash>)
    requires PeerSystem.Run(np, states, steps) && k <= |steps| && Ranking(states[k].ctl.priority, order)
    ensures forall id :: id in order <==> id in states[k].ctl.peers
  {
    PeerSystem.RunInv(np, states, steps, k);
  }
}
