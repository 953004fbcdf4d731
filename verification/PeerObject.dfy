/** The peer object of src/bittorrent/peer.rs: its methods update the record in place
    as the functions of Wire say. */
module PeerObject {
  import opened Outcomes
  import opened Blocks
  import opened Wire
  import opened Protocol

  class Peer {
    var amChoking: bool
    var amInterested: bool
    var peerChoking: bool
    var peerInterested: bool
    var time: nat
    var bitfield: seq<bool>
    var requestQueue: seq<Piece>

    function State(): PeerState
      reads this
    {
      PeerState(amChoking, amInterested, peerChoking, peerInterested, time, bitfield, requestQueue)
    }

    constructor (npieces: nat)
      ensures State() == NewPeer(npieces)
    {
      amChoking, amInterested, peerChoking, peerInterested := true, false, true, false;
      time := 0;
      bitfield := seq(npieces, i => false);
      requestQueue := [];
    }

    /** Whatever the bytes, the action returned tells how choking, interest and bits have changed. */
    method ParseMessage(msg: seq<byte>) returns (r: Outcome<Action>)
      modifies this
      ensures (State(), r) == Wire.ParseMessage(old(State()), msg)
      ensures Explains(old(State()), State(), r)
    {
      ParsedChange(State(), msg);
      if |msg| == 0 {
        return Ok(Eof);
      }
      if |msg| < 4 {
        return Err;
      }
      time := 0;
      var len := ReadBe32(msg, 0);
      if len == 0 {
        return Ok(NoAction);
      }
      if |msg| < 4 + len {
        return if len + 4 >= U32_LIMIT then Panic else Err;
      }
      r := Dispatch(msg, len);
    }

    /** The message with the given identifier; `len` is the length announced. */
    method Dispatch(msg: seq<byte>, len: nat) returns (r: Outcome<Action>)
      requires len > 0 && 4 + len <= |msg|
      modifies this
      ensures (State(), r) == Wire.Dispatch(old(State()), msg, len)
    {
      var id := msg[4];
      if id == 0 {
        r := ParseChoke(true);
      } else if id == 1 {
        r := ParseChoke(false);
      } else if id == 2 {
        r := ParseInterested(true);
      } else if id == 3 {
        r := ParseInterested(false);
      } else if id == 4 {
        if |msg| < 9 {
          return Panic;
        }
        r := ParseHave(ReadBe32(msg, 5));
      } else if id == 5 {
        r := ParseBitfield(msg[5..4 + len]);
      } else if id == 6 {
        r := ParseRequest(msg);
      } else if id == 7 {
        r := ParsePiece(msg, len + 4);
      } else if id == 8 {
        r := ParseCancel(msg);
      } else if id == 9 {
        return Panic;
      } else {
        return Err;
      }
    }

    method ParseChoke(choke: bool) returns (r: Outcome<Action>)
      modifies this`peerChoking
      ensures (State(), r) == Wire.ParseChoke(old(State()), choke)
    {
      if peerChoking == choke {
        return Ok(NoAction);
      }
      peerChoking := choke;
      return Ok(ChokingChange);
    }

    method ParseInterested(interested: bool) returns (r: Outcome<Action>)
      modifies this`peerInterested
      ensures (State(), r) == Wire.ParseInterested(old(State()), interested)
    {
      if peerInterested == interested {
        return Ok(NoAction);
      }
      peerInterested := interested;
      return Ok(InterestedChange);
    }

    method ParseHave(index: u32) returns (r: Outcome<Action>)
      modifies this`bitfield
      ensures (State(), r) == Wire.ParseHave(old(State()), index)
      ensures Covers(bitfield, old(bitfield))
    {
      if index >= |bitfield| {
        return Err;
      }
      if bitfield[index] {
        return Ok(NoAction);
      }
      bitfield := bitfield[index := true];
      return Ok(Have(index));
    }

    /** Unpacks the bytes of a bitfield, pushing the bits of the last byte one by one. */
    static method UnpackBitfield(bytes: seq<byte>, spare: nat) returns (bf: seq<bool>)
      requires bytes != [] && spare <= 8
      ensures bf == CreateBitfield(bytes, spare)
    {
      var last := bytes[|bytes| - 1];
      ghost var low := LowBits(last, 8);
      bf := FromBytes(bytes[..|bytes| - 1]);
      ghost var head := bf;
      var bit := 8;
      while bit > spare
        invariant spare <= bit <= 8
        invariant bf == head + low[..8 - bit]
      {
        bit := bit - 1;
        LowBitAt(last, 8, 7 - bit);
        assert low[..8 - bit] == low[..7 - bit] + [low[7 - bit]];
        bf := bf + [BitAt(last, bit)];
      }
    }

    method ParseBitfield(bytes: seq<byte>) returns (r: Outcome<Action>)
      modifies this`bitfield
      ensures (State(), r) == Wire.ParseBitfield(old(State()), bytes)
      ensures Covers(bitfield, old(bitfield))
    {
      if |bytes| == 0 {
        return Err;
      }
      var spare := SpareBits(|bitfield|);
      var bf := UnpackBitfield(bytes, spare);
      if |bf| == |bitfield| {
        bitfield := Union(bitfield, bf);
      } else {
        return Err;
      }
      return Ok(Bitfield(bitfield));
    }

    method ParseRequest(msg: seq<byte>) returns (r: Outcome<Action>)
      modifies this`requestQueue
      ensures (State(), r) == Wire.ParseRequest(old(State()), msg)
    {
      if |msg| < 17 {
        return Panic;
      }
      requestQueue := requestQueue + [ReadPiece(msg)];
      if |requestQueue| >= QUEUE_LENGTH {
        r := Ok(Request(requestQueue));
        requestQueue := [];
      } else {
        r := Ok(NoAction);
      }
    }

    /** The requests lose exactly the first equal one and keep their order; without one it is an error. */
    method ParseCancel(msg: seq<byte>) returns (r: Outcome<Action>)
      modifies this`requestQueue
      ensures (State(), r) == Wire.ParseCancel(old(State()), msg)
      ensures r.Ok? <==> |msg| >= 17 && ReadPiece(msg) in old(requestQueue)
      ensures if r.Ok? then FirstRemoved(old(requestQueue), ReadPiece(msg), requestQueue)
              else requestQueue == old(requestQueue)
    {
      if |msg| < 17 {
        return Panic;
      }
      var piece := ReadPiece(msg);
      RemoveFirstExactly(requestQueue, piece);
      if piece in requestQueue {
        requestQueue := RemoveFirst(requestQueue, piece);
        return Ok(NoAction);
      }
      return Err;
    }

    /** Chokes or unchokes the peer, and returns the message that tells it: whoever reads it, whatever follows, takes
        this side to be choking exactly when it is. */
    method Choke(choke: bool) returns (msg: seq<byte>)
      modifies this`amChoking
      ensures State() == old(State()).(amChoking := choke) && msg == ChokeMessage(choke)
      ensures forall p, extra :: Wire.ParseMessage(p, msg + extra).0.peerChoking == amChoking
    {
      forall p, extra ensures Wire.ParseMessage(p, ChokeMessage(choke) + extra).0.peerChoking == choke {
        ChokeParsed(p, choke, extra);
      }
      amChoking := choke;
      msg := ChokeMessage(choke);
    }

    /** The same for interest. */
    method Interested(interested: bool) returns (msg: seq<byte>)
      modifies this`amInterested
      ensures State() == old(State()).(amInterested := interested) && msg == InterestedMessage(interested)
      ensures forall p, extra :: Wire.ParseMessage(p, msg + extra).0.peerInterested == amInterested
    {
      forall p, extra
        ensures Wire.ParseMessage(p, InterestedMessage(interested) + extra).0.peerInterested == interested
      {
        ChokeParsed(p, interested, extra);
      }
      amInterested := interested;
      msg := InterestedMessage(interested);
    }
  }
}
