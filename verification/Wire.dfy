/** Peer wire messages (src/bittorrent/peer.rs; BEP 3, "peer messages"): building them,
    parsing them, and what they change in the record of a peer. */
module Wire {
  import opened Outcomes
  import opened Blocks

  // ------------------------------------------------------------ bytes and bits

  /** Four bytes, most significant first. */
  function Be32(n: u32): (r: seq<byte>)
    ensures |r| == 4
  {
    [n / 0x100_0000, n / 0x1_0000 % 0x100, n / 0x100 % 0x100, n % 0x100]
  }

  function ReadBe32(msg: seq<byte>, at: nat): u32
    requires at + 4 <= |msg|
  {
    var a: int, b: int, c: int, d: int := msg[at], msg[at + 1], msg[at + 2], msg[at + 3];
    ((a * 0x100 + b) * 0x100 + c) * 0x100 + d
  }

  lemma {:induction false} ReadWritten(before: seq<byte>, n: u32, after: seq<byte>)
    ensures ReadBe32(before + Be32(n) + after, |before|) == n
  {
    var all := before + Be32(n) + after;
    assert forall k :: 0 <= k < 4 ==> all[|before| + k] == Be32(n)[k];
    assert all[|before|] == n / 0x100_0000 && all[|before| + 1] == n / 0x1_0000 % 0x100
        && all[|before| + 2] == n / 0x100 % 0x100 && all[|before| + 3] == n % 0x100;
  }

  /** Bit k of a byte, counted from the least significant one. */
  predicate BitAt(b: nat, k: nat) {
    if k == 0 then b % 2 == 1 else BitAt(b / 2, k - 1)
  }

  /** The k low bits of b, most significant first. */
  function LowBits(b: nat, k: nat): (r: seq<bool>)
    ensures |r| == k
  {
    if k == 0 then [] else LowBits(b / 2, k - 1) + [b % 2 == 1]
  }

  lemma {:induction false} LowBitAt(b: nat, k: nat, i: nat)
    requires i < k
    ensures LowBits(b, k)[i] == BitAt(b, k - 1 - i)
    decreases k
  {
    if i < k - 1 {
      LowBitAt(b / 2, k - 1, i);
    }
  }

  function Pow2(k: nat): nat {
    if k == 0 then 1 else 2 * Pow2(k - 1)
  }

  /** The number with these bits, most significant first. */
  function Pack(bits: seq<bool>): (n: nat)
    ensures n < Pow2(|bits|)
  {
    if bits == [] then 0 else 2 * Pack(bits[..|bits| - 1]) + (if bits[|bits| - 1] then 1 else 0)
  }

  lemma {:induction false} UnpackPacked(bits: seq<bool>)
    ensures LowBits(Pack(bits), |bits|) == bits
    decreases |bits|
  {
    if bits != [] {
      UnpackPacked(bits[..|bits| - 1]);
    }
  }

  function Padding(n: nat): (r: seq<bool>)
    ensures |r| == n
  {
    seq(n, i => false)
  }

  function PackByte(bits: seq<bool>): byte
    requires |bits| <= 8
  {
    assert Pow2(8) == 256;
    Pack(bits + Padding(8 - |bits|))
  }

  /** `BitVec::to_bytes`: eight bits a byte, the last byte filled up with zeros. */
  function ToBytes(bits: seq<bool>): (r: seq<byte>)
    ensures |r| == (|bits| + 7) / 8
    decreases |bits|
  {
    if bits == [] then []
    else if |bits| <= 8 then [PackByte(bits)]
    else [PackByte(bits[..8])] + ToBytes(bits[8..])
  }

  /** `BitVec::from_bytes`. */
  function FromBytes(bytes: seq<byte>): (r: seq<bool>)
    ensures |r| == 8 * |bytes|
  {
    if bytes == [] then [] else LowBits(bytes[0], 8) + FromBytes(bytes[1..])
  }

  /** `create_bitfield`: all bits of the leading bytes, and all but the spare bits of the last one. */
  function CreateBitfield(bytes: seq<byte>, spare: nat): (r: seq<bool>)
    requires bytes != [] && spare <= 8
    ensures |r| == 8 * |bytes| - spare
  {
    FromBytes(bytes[..|bytes| - 1]) + LowBits(bytes[|bytes| - 1], 8)[..8 - spare]
  }

  function SpareBits(n: nat): nat {
    (8 - n % 8) % 8
  }

  lemma {:induction false} CreateCons(first: byte, rest: seq<byte>, spare: nat)
    requires rest != [] && spare <= 8
    ensures CreateBitfield([first] + rest, spare) == LowBits(first, 8) + CreateBitfield(rest, spare)
  {
    var bytes := [first] + rest;
    assert bytes[..|bytes| - 1] == [first] + rest[..|rest| - 1];
    assert ([first] + rest[..|rest| - 1])[1..] == rest[..|rest| - 1];
  }

  lemma {:induction false} CreateOne(b: byte, spare: nat)
    requires spare <= 8
    ensures CreateBitfield([b], spare) == LowBits(b, 8)[..8 - spare]
  {
  }

  lemma {:induction false} SpareRule(n: nat)
    ensures 0 < n <= 8 ==> SpareBits(n) == 8 - n
    ensures n > 8 ==> SpareBits(n) == SpareBits(n - 8)
  {
  }

  lemma {:induction false} OneByte(bits: seq<bool>)
    requires 0 < |bits| <= 8
    ensures LowBits(PackByte(bits), 8)[..|bits|] == bits
  {
    UnpackPacked(bits + Padding(8 - |bits|));
  }

  lemma {:induction false} ShortBitfield(bits: seq<bool>)
    requires 0 < |bits| <= 8
    ensures CreateBitfield(ToBytes(bits), SpareBits(|bits|)) == bits
  {
    OneByte(bits);
    SpareRule(|bits|);
    CreateOne(PackByte(bits), SpareBits(|bits|));
  }

  lemma {:induction false} ToBytesStep(bits: seq<bool>)
    requires |bits| > 8
    ensures ToBytes(bits) == [PackByte(bits[..8])] + ToBytes(bits[8..]) && ToBytes(bits[8..]) != []
    ensures LowBits(PackByte(bits[..8]), 8) == bits[..8]
  {
    OneByte(bits[..8]);
  }

  /** Unpacking a packed bitfield drops exactly the padding, whatever its length. */
  lemma {:induction false} BitfieldBytes(bits: seq<bool>)
    requires bits != []
    ensures CreateBitfield(ToBytes(bits), SpareBits(|bits|)) == bits
    decreases |bits|
  {
    if |bits| <= 8 {
      ShortBitfield(bits);
    } else {
      ToBytesStep(bits);
      SpareRule(|bits|);
      BitfieldBytes(bits[8..]);
      CreateCons(PackByte(bits[..8]), ToBytes(bits[8..]), SpareBits(|bits|));
      assert bits[..8] + bits[8..] == bits;
    }
  }

  // ------------------------------------------------------------ the peer record

  datatype PeerState = PeerState(
    amChoking: bool,
    amInterested: bool,
    peerChoking: bool,
    peerInterested: bool,
    time: nat,
    bitfield: seq<bool>,
    requests: seq<Piece>)

  /** What a message asks the connection to do. */
  datatype Action =
    | Eof
    | Request(pieces: seq<Piece>)
    | Write(piece: Piece, data: seq<byte>)
    | InterestedChange
    | ChokingChange
    | Have(index: u32)
    | Bitfield(bits: seq<bool>)
    | NoAction

  const QUEUE_LENGTH := 1

  function NewPeer(npieces: nat): PeerState {
    PeerState(true, false, true, false, 0, seq(npieces, i => false), [])
  }

  function Union(a: seq<bool>, b: seq<bool>): (r: seq<bool>)
    requires |a| == |b|
    ensures |r| == |a| && forall i :: 0 <= i < |a| ==> r[i] == (a[i] || b[i])
  {
    seq(|a|, i requires 0 <= i < |a| => a[i] || b[i])
  }

  function ParseChoke(p: PeerState, choke: bool): (PeerState, Outcome<Action>) {
    if p.peerChoking == choke then (p, Ok(NoAction)) else (p.(peerChoking := choke), Ok(ChokingChange))
  }

  function ParseInterested(p: PeerState, interested: bool): (PeerState, Outcome<Action>) {
    if p.peerInterested == interested then (p, Ok(NoAction))
    else (p.(peerInterested := interested), Ok(InterestedChange))
  }

  function ParseHave(p: PeerState, index: u32): (PeerState, Outcome<Action>) {
    if index >= |p.bitfield| then (p, Err)
    else if p.bitfield[index] then (p, Ok(NoAction))
    else (p.(bitfield := p.bitfield[index := true]), Ok(Have(index)))
  }

  function ParseBitfield(p: PeerState, bytes: seq<byte>): (PeerState, Outcome<Action>) {
    if bytes == [] then (p, Err)
    else
      var bf := CreateBitfield(bytes, SpareBits(|p.bitfield|));
      if |bf| != |p.bitfield| then (p, Err)
      else
        var p' := p.(bitfield := Union(p.bitfield, bf));
        (p', Ok(Bitfield(p'.bitfield)))
  }

  function ReadPiece(msg: seq<byte>): Piece
    requires 17 <= |msg|
  {
    Piece(ReadBe32(msg, 5), ReadBe32(msg, 9), ReadBe32(msg, 13))
  }

  function ParseRequest(p: PeerState, msg: seq<byte>): (PeerState, Outcome<Action>) {
    if |msg| < 17 then (p, Panic)
    else
      var queue := p.requests + [ReadPiece(msg)];
      if |queue| >= QUEUE_LENGTH then (p.(requests := []), Ok(Request(queue)))
      else (p.(requests := queue), Ok(NoAction))
  }

  /** `parse_piece`; `end` is where the message ends. */
  function ParsePiece(msg: seq<byte>, end: nat): Outcome<Action>
    requires end <= |msg|
  {
    if |msg| < 13 || end < 13 || end >= U32_LIMIT then Panic
    else Ok(Write(Piece(ReadBe32(msg, 5), ReadBe32(msg, 9), end - 13), msg[13..end]))
  }

  /** `remove_item`: without the first occurrence. */
  function RemoveFirst(ps: seq<Piece>, x: Piece): seq<Piece> {
    if ps == [] then [] else if ps[0] == x then ps[1..] else [ps[0]] + RemoveFirst(ps[1..], x)
  }

  /** `now` is `ps` less its first x, the others in their order. */
  ghost predicate FirstRemoved(ps: seq<Piece>, x: Piece, now: seq<Piece>) {
    exists k :: 0 <= k < |ps| && ps[k] == x && x !in ps[..k] && now == ps[..k] + ps[k + 1..]
  }

  lemma {:induction false} RemoveFirstExactly(ps: seq<Piece>, x: Piece)
    ensures x in ps ==> FirstRemoved(ps, x, RemoveFirst(ps, x))
    ensures x !in ps ==> RemoveFirst(ps, x) == ps
    decreases |ps|
  {
    if ps != [] {
      assert ps == [ps[0]] + ps[1..];
      if ps[0] == x {
        assert ps[..0] + ps[0 + 1..] == ps[1..];
      } else {
        RemoveFirstExactly(ps[1..], x);
        if x in ps {
          RemovedLater(ps[0], ps[1..], x, RemoveFirst(ps[1..], x));
        }
      }
    }
  }

  lemma {:induction false} RemovedLater(y: Piece, ps: seq<Piece>, x: Piece, now: seq<Piece>)
    requires y != x && FirstRemoved(ps, x, now)
    ensures FirstRemoved([y] + ps, x, [y] + now)
  {
    var k :| 0 <= k < |ps| && ps[k] == x && x !in ps[..k] && now == ps[..k] + ps[k + 1..];
    var all := [y] + ps;
    assert all[..k + 1] == [y] + ps[..k] && all[k + 1 + 1..] == ps[k + 1..];
    assert all[k + 1] == x && [y] + now == all[..k + 1] + all[k + 1 + 1..];
  }

  function ParseCancel(p: PeerState, msg: seq<byte>): (PeerState, Outcome<Action>) {
    if |msg| < 17 then (p, Panic)
    else if ReadPiece(msg) in p.requests then (p.(requests := RemoveFirst(p.requests, ReadPiece(msg))), Ok(NoAction))
    else (p, Err)
  }

  /** The message with the given identifier; `len` is the length announced. */
  function Dispatch(p: PeerState, msg: seq<byte>, len: nat): (PeerState, Outcome<Action>)
    requires len > 0 && 4 + len <= |msg|
  {
    var id := msg[4];
    if id == 0 then ParseChoke(p, true)
    else if id == 1 then ParseChoke(p, false)
    else if id == 2 then ParseInterested(p, true)
    else if id == 3 then ParseInterested(p, false)
    else if id == 4 then (if |msg| < 9 then (p, Panic) else ParseHave(p, ReadBe32(msg, 5)))
    else if id == 5 then ParseBitfield(p, msg[5..4 + len])
    else if id == 6 then ParseRequest(p, msg)
    else if id == 7 then (p, ParsePiece(msg, len + 4))
    else if id == 8 then ParseCancel(p, msg)
    else if id == 9 then (p, Panic)
    else (p, Err)
  }

  /** `parse_message`. A length announced within 4 of 2^32 overflows even in the error text. */
  function ParseMessage(p: PeerState, msg: seq<byte>): (PeerState, Outcome<Action>) {
    if msg == [] then (p, Ok(Eof))
    else if |msg| < 4 then (p, Err)
    else
      var p' := p.(time := 0);
      var len := ReadBe32(msg, 0);
      if len == 0 then (p', Ok(NoAction))
      else if |msg| < 4 + len then (p', if len + 4 >= U32_LIMIT then Panic else Err)
      else Dispatch(p', msg, len)
  }

  // ---------------------------------------------------------- message builders

  function ChokeMessage(choke: bool): seq<byte> {
    Be32(1) + [if choke then 0 else 1]
  }

  function InterestedMessage(interested: bool): seq<byte> {
    Be32(1) + [if interested then 2 else 3]
  }

  function HaveMessage(index: u32): seq<byte> {
    Be32(5) + [4] + Be32(index)
  }

  function BitfieldMessage(bits: seq<bool>): seq<byte>
    requires 1 + |ToBytes(bits)| < U32_LIMIT
  {
    Be32(1 + |ToBytes(bits)|) + [5] + ToBytes(bits)
  }

  function RequestMessage(piece: Piece): seq<byte> {
    Be32(13) + [6] + Be32(piece.index) + Be32(piece.begin) + Be32(piece.length)
  }

  function PieceMessage(piece: Piece, data: seq<byte>): seq<byte>
    requires 9 + |data| < U32_LIMIT
  {
    Be32(9 + |data|) + [7] + Be32(piece.index) + Be32(piece.begin) + data
  }

  // -------------------------------------------------------------- round trips

  lemma {:induction false} Framed(len: u32, id: byte, body: seq<byte>)
    requires |body| + 1 >= len > 0
    ensures var msg := Be32(len) + [id] + body;
            |msg| == 5 + |body| && ReadBe32(msg, 0) == len && msg[4] == id
  {
    ReadWritten([], len, [id] + body);
    assert [] + Be32(len) + ([id] + body) == Be32(len) + [id] + body;
  }

  lemma {:induction false} ChokeParsed(p: PeerState, choke: bool, extra: seq<byte>)
    ensures ParseMessage(p, ChokeMessage(choke) + extra) == ParseChoke(p.(time := 0), choke)
    ensures ParseMessage(p, InterestedMessage(choke) + extra) == ParseInterested(p.(time := 0), choke)
  {
    Framed(1, if choke then 0 else 1, extra);
    Framed(1, if choke then 2 else 3, extra);
  }

  /** A `have` message sets exactly the announced bit, and is reported when it was clear. */
  lemma {:induction false} HaveParsed(p: PeerState, index: u32, extra: seq<byte>)
    requires index < |p.bitfield|
    ensures ParseMessage(p, HaveMessage(index) + extra)
            == (p.(time := 0, bitfield := p.bitfield[index := true]),
                Ok(if p.bitfield[index] then NoAction else Have(index)))
  {
    var body := Be32(index) + extra;
    var msg := HaveMessage(index) + extra;
    assert msg == Be32(5) + [4] + body;
    Framed(5, 4, body);
    ReadWritten(Be32(5) + [4], index, extra);
    assert p.bitfield[index] ==> p.bitfield[index := true] == p.bitfield;
  }

  /** A `bitfield` message of any length adds exactly the bits sent to the bits known. */
  lemma {:induction false} BitfieldParsed(p: PeerState, bits: seq<bool>, extra: seq<byte>)
    requires bits != [] && |bits| == |p.bitfield| && 1 + |ToBytes(bits)| < U32_LIMIT
    ensures ParseMessage(p, BitfieldMessage(bits) + extra)
            == (p.(time := 0, bitfield := Union(p.bitfield, bits)), Ok(Bitfield(Union(p.bitfield, bits))))
  {
    var bytes := ToBytes(bits);
    var len := 1 + |bytes|;
    var msg := BitfieldMessage(bits) + extra;
    assert msg == Be32(len) + [5] + (bytes + extra);
    Framed(len, 5, bytes + extra);
    assert msg[5..4 + len] == bytes;
    BitfieldBytes(bits);
  }

  /** A `request` message is answered at once with the piece asked for. */
  lemma {:induction false} RequestParsed(p: PeerState, piece: Piece, extra: seq<byte>)
    ensures ParseMessage(p, RequestMessage(piece) + extra)
            == (p.(time := 0, requests := []), Ok(Request(p.requests + [piece])))
  {
    var a, b, c := Be32(piece.index), Be32(piece.begin), Be32(piece.length);
    var msg := RequestMessage(piece) + extra;
    var body := a + b + c + extra;
    assert msg == Be32(13) + [6] + body;
    Framed(13, 6, body);
    ReadFields(Be32(13) + [6], piece.index, piece.begin, c + extra);
    assert msg == Be32(13) + [6] + a + b + (c + extra);
    ReadWritten(Be32(13) + [6] + a + b, piece.length, extra);
    assert msg == Be32(13) + [6] + a + b + c + extra;
  }

  lemma {:induction false} ReadFields(before: seq<byte>, m: u32, n: u32, after: seq<byte>)
    ensures var all := before + Be32(m) + Be32(n) + after;
            ReadBe32(all, |before|) == m && ReadBe32(all, |before| + 4) == n
  {
    ReadWritten(before, m, Be32(n) + after);
    assert before + Be32(m) + (Be32(n) + after) == before + Be32(m) + Be32(n) + after;
    ReadWritten(before + Be32(m), n, after);
  }

  /** A `piece` message delivers its data, with the length of the data as the length of the block. */
  lemma {:induction false} PieceParsed(p: PeerState, piece: Piece, data: seq<byte>, extra: seq<byte>)
    requires 13 + |data| < U32_LIMIT
    ensures ParseMessage(p, PieceMessage(piece, data) + extra)
            == (p.(time := 0), Ok(Write(Piece(piece.index, piece.begin, |data|), data)))
  {
    var a, b := Be32(piece.index), Be32(piece.begin);
    var len := 9 + |data|;
    var msg := PieceMessage(piece, data) + extra;
    var body := a + b + data + extra;
    assert msg == Be32(len) + [7] + body;
    Framed(len, 7, body);
    ReadFields(Be32(len) + [7], piece.index, piece.begin, data + extra);
    assert msg == Be32(len) + [7] + a + b + (data + extra);
    assert msg[13..len + 4] == data;
  }

  // ------------------------------------------------------- bytes after the frame

  /** One complete frame and nothing else. */
  ghost predicate IsFrame(msg: seq<byte>) {
    |msg| >= 4 && |msg| == 4 + ReadBe32(msg, 0)
  }

  /** The announced length leaves room for the fields the parser reads. */
  predicate FieldsFit(msg: seq<byte>) {
    |msg| > 4 ==>
      && (msg[4] == 4 ==> |msg| >= 9)
      && (msg[4] == 6 || msg[4] == 8 ==> |msg| >= 17)
  }

  lemma {:induction false} SameHead(msg: seq<byte>, extra: seq<byte>)
    requires IsFrame(msg)
    ensures ReadBe32(msg + extra, 0) == ReadBe32(msg, 0)
    ensures |msg| > 4 ==> (msg + extra)[4] == msg[4]
    ensures forall at :: 0 <= at <= |msg| - 4 ==> ReadBe32(msg + extra, at) == ReadBe32(msg, at)
  {
  }

  /** Bytes after a frame never change the outcome, exactly when the frame has room for the fields of its
      kind; a `have`, `request` or `cancel` frame that is too short is completed from the bytes that follow. */
  lemma {:induction false} TrailingBytes(p: PeerState, msg: seq<byte>)
    requires IsFrame(msg)
    ensures FieldsFit(msg) <==> forall extra :: ParseMessage(p, msg + extra) == ParseMessage(p, msg)
  {
    var zeros: seq<byte> := seq(17, i => 0);
    if FieldsFit(msg) {
      forall extra ensures ParseMessage(p, msg + extra) == ParseMessage(p, msg) {
        TrailingIgnored(p, msg, extra);
      }
    } else {
      SameHead(msg, zeros);
      assert ParseMessage(p, msg).1 == Panic;
      assert ParseMessage(p, msg + zeros).1 != Panic;
    }
  }

  lemma {:induction false} TrailingIgnored(p: PeerState, msg: seq<byte>, extra: seq<byte>)
    requires IsFrame(msg) && FieldsFit(msg)
    ensures ParseMessage(p, msg + extra) == ParseMessage(p, msg)
  {
    SameHead(msg, extra);
    if |msg| > 4 {
      assert (msg + extra)[5..|msg|] == msg[5..|msg|];
      if |msg| >= 13 {
        assert (msg + extra)[13..|msg|] == msg[13..|msg|];
      }
    }
  }
}
