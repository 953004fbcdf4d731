/** The web server's view of the torrents (src/bin/webserver/torrent_state.rs, `update_state`). */
module StateFold {
  import opened Outcomes

  /** What is shown of a torrent; everything but its identity is carried along. */
  datatype Info = Info(infoHash: nat, name: string, status: nat, up: nat, down: nat, npeers: nat)

  datatype InfoMsg = All(infos: seq<Info>) | One(info: Info) | Disconnect

  type Infos = map<nat, Info>

  function InsertAll(infos: Infos, news: seq<Info>): Infos
    decreases |news|
  {
    if news == [] then infos else InsertAll(infos[news[0].infoHash := news[0]], news[1..])
  }

  /** The effect of one message: a batch replaces everything, a single info replaces its own. */
  function ApplyMsg(infos: Infos, msg: InfoMsg): Infos {
    match msg
    case All(batch) => InsertAll(map[], batch)
    case One(info) => infos[info.infoHash := info]
    case Disconnect => infos
  }

  /** The messages applied one after the other. */
  function ApplyAll(infos: Infos, msgs: seq<InfoMsg>): Infos {
    if msgs == [] then infos else ApplyMsg(ApplyAll(infos, msgs[..|msgs| - 1]), msgs[|msgs| - 1])
  }

  /** What the drained batch and single updates add up to. */
  function Batched(infos: Infos, batch: Option<seq<Info>>, singles: seq<Info>): Infos {
    InsertAll(Replaced(infos, batch), singles)
  }

  function Replaced(infos: Infos, batch: Option<seq<Info>>): Infos {
    if batch.Some? then InsertAll(map[], batch.value) else infos
  }

  lemma {:induction false} InsertLast(infos: Infos, news: seq<Info>, info: Info)
    ensures InsertAll(infos, news + [info]) == InsertAll(infos, news)[info.infoHash := info]
    decreases |news|
  {
    if news == [] {
      assert (news + [info])[1..] == [];
    } else {
      assert (news + [info])[1..] == news[1..] + [info];
      InsertLast(infos[news[0].infoHash := news[0]], news[1..], info);
    }
  }

  /** Draining one more message keeps the batched result equal to applying the messages one by one. */
  lemma {:induction false} BatchStep(infos: Infos, batch: Option<seq<Info>>, singles: seq<Info>, msgs: seq<InfoMsg>,
                                     msg: InfoMsg)
    requires Batched(infos, batch, singles) == ApplyAll(infos, msgs)
    ensures msg.All? ==> ApplyAll(infos, msgs + [msg]) == Batched(infos, Some(msg.infos), [])
    ensures msg.One? ==> ApplyAll(infos, msgs + [msg]) == Batched(infos, batch, singles + [msg.info])
  {
    assert (msgs + [msg])[..|msgs|] == msgs;
    if msg.One? {
      InsertLast(Replaced(infos, batch), singles, msg.info);
    }
  }

  class BackedTorrentState {
    var infos: Infos

    constructor ()
      ensures infos == map[]
    {
      infos := map[];
    }

    /** Drains the channel; a disconnection is an error and leaves the view alone. */
    method UpdateState(msgs: seq<InfoMsg>) returns (r: Outcome<()>)
      modifies this
      ensures Disconnect in msgs ==> r == Err && infos == old(infos)
      ensures Disconnect !in msgs ==> r == Ok(()) && infos == ApplyAll(old(infos), msgs)
    {
      var batch: Option<seq<Info>> := None;
      var singles: seq<Info> := [];
      var i := 0;
      while i < |msgs|
        invariant 0 <= i <= |msgs| && infos == old(infos)
        invariant forall k :: 0 <= k < i ==> msgs[k] != Disconnect
        invariant Batched(infos, batch, singles) == ApplyAll(infos, msgs[..i])
      {
        BatchStep(infos, batch, singles, msgs[..i], msgs[i]);
        assert msgs[..i + 1] == msgs[..i] + [msgs[i]];
        match msgs[i] {
          case All(v) =>
            singles := [];
            batch := Some(v);
          case One(info) =>
            singles := singles + [info];
          case Disconnect =>
            return Err;
        }
        i := i + 1;
      }
      assert msgs[..i] == msgs;
      if batch.Some? {
        infos := map[];
        InsertEach(batch.value);
      }
      InsertEach(singles);
      return Ok(());
    }

    method InsertEach(news: seq<Info>)
      modifies this
      ensures infos == InsertAll(old(infos), news)
    {
      var i := 0;
      assert news[0..] == news;
      while i < |news|
        invariant 0 <= i <= |news|
        invariant InsertAll(infos, news[i..]) == InsertAll(old(infos), news)
      {
        assert news[i..][1..] == news[i + 1..];
        infos := infos[news[i].infoHash := news[i]];
        i := i + 1;
      }
    }
  }
}
