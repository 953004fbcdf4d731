/** Which bytes of which piece have been downloaded (src/bittorrent/torrent.rs): the bitfield of
    whole pieces together with one marker list for every partly downloaded piece. */
module Blocks {
  import opened Outcomes
  import opened Markers

  /** A block: `length` bytes at offset `begin` of piece `index`. */
  datatype Piece = Piece(index: u32, begin: u32, length: u32)

  /** Sizes read from the metainfo file. */
  datatype Geometry = Geometry(npieces: u32, pieceLength: nat, totalSize: nat)

  datatype Store = Store(bits: seq<bool>, blocks: map<u32, seq<Marker>>)

  /** Byte length of the last piece, computed in usize and cut to 32 bits. */
  function LastPieceLength(g: Geometry): Outcome<u32> {
    if g.npieces == 0 || g.totalSize < (g.npieces - 1) * g.pieceLength then Panic
    else Ok((g.totalSize - (g.npieces - 1) * g.pieceLength) % U32_LIMIT)
  }

  /** The length that counts as the whole of piece `index`. */
  function MaxLength(g: Geometry, index: u32): Outcome<u32> {
    if g.npieces == 0 then Panic
    else if index == g.npieces - 1 then LastPieceLength(g)
    else Ok(g.pieceLength % U32_LIMIT)
  }

  /** `valid_piece`, with the comparison of the hashes given. */
  function ValidPiece(g: Geometry, piece: Piece, sameHash: bool): Outcome<bool> {
    if piece.index >= g.npieces then Ok(false)
    else if piece.index == g.npieces - 1 then
      match LastPieceLength(g)
      case Ok(last) => Ok(piece.length == last && sameHash)
      case _ => Panic
    else Ok(sameHash)
  }

  function List(s: Store, index: u32): seq<Marker> {
    if index in s.blocks then s.blocks[index] else []
  }

  /** The whole piece has arrived: its bit is set and its list dropped. */
  function SetWhole(s: Store, i: u32): Store
    requires i < |s.bits|
  {
    Store(s.bits[i := true], s.blocks - {i})
  }

  /** Part of a piece has arrived: its range joins the list of the piece. */
  function AddRange(s: Store, i: u32, begin: nat, end: nat): Store {
    s.(blocks := s.blocks[i := Inserted(List(s, i), begin, end)])
  }

  /** What a block does: it completes its piece at once, adds a range, or changes nothing. */
  datatype Change = WholePiece | Range | Nothing

  /** The branches of `insert_piece`, for a torrent with `bits` bits. */
  function Decide(g: Geometry, bits: nat, p: Piece): Outcome<Change> {
    match MaxLength(g, p.index)
    case Ok(max) =>
      if p.begin == 0 && p.length == max then (if p.index < bits then Ok(WholePiece) else Panic)
      else if p.begin + p.length >= U32_LIMIT then Panic
      else if p.length == 0 then Ok(Nothing)
      else Ok(Range)
    case _ => Panic
  }

  function Apply(s: Store, p: Piece, c: Change): Store
    requires c == WholePiece ==> p.index < |s.bits|
  {
    match c
    case WholePiece => SetWhole(s, p.index)
    case Range => AddRange(s, p.index, p.begin, p.begin + p.length)
    case Nothing => s
  }

  /** The store after block p has been written. */
  function InsertPiece(g: Geometry, s: Store, p: Piece): Outcome<Store> {
    match Decide(g, |s.bits|, p)
    case Ok(c) => Ok(Apply(s, p, c))
    case _ => Panic
  }

  /** One bit a piece, and every marker list well formed. */
  ghost predicate Shaped(g: Geometry, s: Store) {
    && |s.bits| == g.npieces
    && forall i :: i in s.blocks ==> Normal(s.blocks[i])
  }

  // ------------------------------------------------------------- held bytes

  /** The piece sizes are exact: the pieces fill the files and each fits 32 bits. */
  ghost predicate Exact(g: Geometry) {
    && g.npieces >= 1
    && g.pieceLength < U32_LIMIT
    && 0 <= g.totalSize - (g.npieces - 1) * g.pieceLength < U32_LIMIT
  }

  ghost function PieceSize(g: Geometry, index: int): int {
    if index == g.npieces - 1 then g.totalSize - (g.npieces - 1) * g.pieceLength else g.pieceLength
  }

  ghost predicate InPiece(g: Geometry, p: Piece) {
    p.index < g.npieces && p.begin + p.length <= PieceSize(g, p.index)
  }

  ghost predicate UpTo(ms: seq<Marker>, limit: int) {
    forall k :: 0 <= k < |ms| ==> ms[k].val <= limit
  }

  /** The marks of each piece go up to its limit. */
  ghost predicate Limited(s: Store, limit: nat -> int) {
    forall i :: i in s.blocks ==> UpTo(s.blocks[i], limit(i))
  }

  /** Marker lists belong to existing pieces and stay inside them. */
  ghost predicate Inside(g: Geometry, s: Store) {
    forall i :: i in s.blocks ==>
      i < g.npieces && UpTo(s.blocks[i], PieceSize(g, i))
  }

  /** Byte x of piece i is held: its bit is set (the whole piece), or a marked range holds it. */
  ghost predicate Held(g: Geometry, s: Store, i: u32, x: int) {
    || (i < |s.bits| && s.bits[i] && 0 <= x < PieceSize(g, i))
    || Covers(List(s, i), x)
  }

  ghost predicate InBlock(p: Piece, i: u32, x: int) {
    p.index == i && p.begin <= x < p.begin + p.length
  }

  lemma {:induction false} AddRangeShaped(g: Geometry, s: Store, i: u32, begin: nat, end: nat, s': Store)
    requires Shaped(g, s) && begin < end && s' == AddRange(s, i, begin, end)
    ensures Shaped(g, s')
  {
    InsertedNormal(List(s, i), begin, end);
  }

  lemma {:induction false} SetWholeShaped(g: Geometry, s: Store, i: u32, s': Store)
    requires Shaped(g, s) && i < |s.bits| && s' == SetWhole(s, i)
    ensures Shaped(g, s')
  {
    assert forall j :: j in s'.blocks ==> s'.blocks[j] == s.blocks[j];
  }

  lemma {:induction false} DecideRange(g: Geometry, bits: nat, p: Piece)
    ensures Decide(g, bits, p) == Ok(Range) ==> p.length > 0
  {
  }

  /** Whatever the block, a write that does not panic keeps every marker list well formed. */
  lemma {:induction false} InsertShaped(g: Geometry, s: Store, p: Piece, s': Store)
    requires Shaped(g, s) && InsertPiece(g, s, p) == Ok(s')
    ensures Shaped(g, s')
  {
    DecideRange(g, |s.bits|, p);
    match Decide(g, |s.bits|, p)
    case Ok(WholePiece) => SetWholeShaped(g, s, p.index, s');
    case Ok(Range) => AddRangeShaped(g, s, p.index, p.begin, p.begin + p.length, s');
    case _ =>
  }

  /** No write ever clears a bit. */
  lemma {:induction false} InsertBits(g: Geometry, s: Store, p: Piece, s': Store)
    requires InsertPiece(g, s, p) == Ok(s')
    ensures |s'.bits| == |s.bits| && forall i :: 0 <= i < |s.bits| && s.bits[i] ==> s'.bits[i]
  {
  }

  lemma {:induction false} InsertedInside(ms: seq<Marker>, begin: nat, end: nat, limit: int)
    requires begin <= limit && end <= limit
    requires UpTo(ms, limit)
    ensures UpTo(Inserted(ms, begin, end), limit)
  {
    var a, b := Left(ms, Below(ms, begin), begin), Right(ms, Below(ms, end + 1), end);
    assert UpTo(a, limit);
    assert UpTo(b, limit);
  }

  lemma {:induction false} SizeIsMax(g: Geometry, i: u32)
    requires Exact(g) && i < g.npieces
    ensures 0 <= PieceSize(g, i) < U32_LIMIT && MaxLength(g, i) == Ok(PieceSize(g, i))
  {
  }

  ghost predicate Whole(g: Geometry, p: Piece) {
    p.begin == 0 && p.length == PieceSize(g, p.index)
  }

  /** A block inside its piece never panics; the three things it can do. */
  lemma {:induction false} InsertResult(g: Geometry, s: Store, p: Piece)
    requires Exact(g) && |s.bits| == g.npieces && InPiece(g, p)
    ensures InsertPiece(g, s, p) ==
            Ok(if Whole(g, p) then SetWhole(s, p.index)
               else if p.length == 0 then s
               else AddRange(s, p.index, p.begin, p.begin + p.length))
  {
    SizeIsMax(g, p.index);
  }

  lemma {:induction false} InsertInside(g: Geometry, s: Store, p: Piece)
    requires Exact(g) && Shaped(g, s) && Inside(g, s) && InPiece(g, p)
    ensures InsertPiece(g, s, p).Ok?
    ensures var s' := InsertPiece(g, s, p).value; Shaped(g, s') && Inside(g, s')
  {
    InsertResult(g, s, p);
    InsertShaped(g, s, p, InsertPiece(g, s, p).value);
    if !Whole(g, p) && p.length > 0 {
      AddRangeInside(g, s, p, InsertPiece(g, s, p).value);
    }
  }

  /** One list replaced by another within its limit. */
  lemma {:induction false} PutLimited(s: Store, i: u32, ms: seq<Marker>, limit: nat -> int)
    requires Limited(s, limit) && UpTo(ms, limit(i))
    ensures Limited(s.(blocks := s.blocks[i := ms]), limit)
  {
  }

  lemma {:induction false} RangeLimited(s: Store, i: u32, begin: nat, end: nat, limit: nat -> int, s': Store)
    requires Limited(s, limit) && begin <= end <= limit(i) && s' == AddRange(s, i, begin, end)
    ensures Limited(s', limit)
  {
    InsertedInside(List(s, i), begin, end, limit(i));
    PutLimited(s, i, Inserted(List(s, i), begin, end), limit);
  }

  lemma {:induction false} FewerLimited(s: Store, s': Store, limit: nat -> int)
    requires Limited(s, limit) && forall i :: i in s'.blocks ==> i in s.blocks && s'.blocks[i] == s.blocks[i]
    ensures Limited(s', limit)
  {
  }

  /** A block that ends within the limit of its piece leaves all marks within theirs. */
  lemma {:induction false} AppliedLimited(s: Store, p: Piece, c: Change, limit: nat -> int, s': Store)
    requires Limited(s, limit) && p.begin + p.length <= limit(p.index) && (c == WholePiece ==> p.index < |s.bits|)
    requires s' == Apply(s, p, c)
    ensures Limited(s', limit)
  {
    if c == Range {
      var begin, end := p.begin, p.begin + p.length;
      RangeLimited(s, p.index, begin, end, limit, s');
    } else {
      FewerLimited(s, s', limit);
    }
  }

  lemma {:induction false} PutInside(g: Geometry, s: Store, i: u32, ms: seq<Marker>)
    requires Inside(g, s) && i < g.npieces && UpTo(ms, PieceSize(g, i))
    ensures Inside(g, s.(blocks := s.blocks[i := ms]))
  {
  }

  lemma {:induction false} RangeInside(g: Geometry, s: Store, i: u32, begin: nat, end: nat, s': Store)
    requires Inside(g, s) && i < g.npieces && begin <= end <= PieceSize(g, i) && s' == AddRange(s, i, begin, end)
    ensures Inside(g, s')
  {
    ListInside(g, s, i);
    InsertedInside(List(s, i), begin, end, PieceSize(g, i));
    PutInside(g, s, i, Inserted(List(s, i), begin, end));
  }

  lemma {:induction false} AddRangeInside(g: Geometry, s: Store, p: Piece, s': Store)
    requires Inside(g, s) && InPiece(g, p) && s' == AddRange(s, p.index, p.begin, p.begin + p.length)
    ensures Inside(g, s')
  {
    var begin, end := p.begin, p.begin + p.length;
    RangeInside(g, s, p.index, begin, end, s');
  }

  lemma {:induction false} ListInside(g: Geometry, s: Store, i: u32)
    requires Inside(g, s)
    ensures UpTo(List(s, i), PieceSize(g, i))
  {
  }

  lemma {:induction false} CoversInside(ms: seq<Marker>, x: int, limit: int)
    requires UpTo(ms, limit)
    ensures Covers(ms, x) ==> 0 <= x < limit
  {
  }

  lemma {:induction false} AddRangeCovers(g: Geometry, s: Store, p: Piece, i: u32, x: int)
    requires Shaped(g, s) && p.length > 0
    ensures Covers(List(AddRange(s, p.index, p.begin, p.begin + p.length), i), x)
            <==> Covers(List(s, i), x) || InBlock(p, i, x)
  {
    ListNormal(g, s, i);
    AddRangeList(s, p.index, p.begin, p.begin + p.length, i);
    if i == p.index {
      InsertedCovers(List(s, i), p.begin, p.begin + p.length, x);
    }
  }

  lemma {:induction false} ListNormal(g: Geometry, s: Store, i: u32)
    requires Shaped(g, s)
    ensures Normal(List(s, i))
  {
  }

  lemma {:induction false} AddRangeList(s: Store, index: u32, begin: nat, end: nat, i: u32)
    ensures List(AddRange(s, index, begin, end), i)
            == if i == index then Inserted(List(s, i), begin, end) else List(s, i)
  {
  }

  lemma {:induction false} AddRangeHeld(g: Geometry, s: Store, p: Piece, i: u32, x: int)
    requires Shaped(g, s) && p.length > 0
    ensures Held(g, AddRange(s, p.index, p.begin, p.begin + p.length), i, x) <==> Held(g, s, i, x) || InBlock(p, i, x)
  {
    AddRangeCovers(g, s, p, i, x);
  }

  lemma {:induction false} SetWholeHeld(g: Geometry, s: Store, p: Piece, i: u32, x: int)
    requires Shaped(g, s) && Inside(g, s) && InPiece(g, p) && Whole(g, p)
    ensures Held(g, SetWhole(s, p.index), i, x) <==> Held(g, s, i, x) || InBlock(p, i, x)
  {
    if i == p.index {
      CoversInside(List(s, i), x, PieceSize(g, i));
    }
  }

  /** Writing a block inside its piece adds exactly its bytes to what is held, of its piece and of no other. */
  lemma {:induction false} InsertHeld(g: Geometry, s: Store, p: Piece, i: u32, x: int)
    requires Exact(g) && Shaped(g, s) && Inside(g, s) && InPiece(g, p)
    ensures InsertPiece(g, s, p).Ok?
    ensures Held(g, InsertPiece(g, s, p).value, i, x) <==> Held(g, s, i, x) || InBlock(p, i, x)
  {
    InsertResult(g, s, p);
    if Whole(g, p) {
      SetWholeHeld(g, s, p, i, x);
    } else if p.length > 0 {
      AddRangeHeld(g, s, p, i, x);
    }
  }

  // ------------------------------------------------------------------- runs

  /** Writing the blocks ps one after the other. */
  function InsertRun(g: Geometry, s: Store, ps: seq<Piece>): Outcome<Store>
    decreases |ps|
  {
    if ps == [] then Ok(s)
    else match InsertPiece(g, s, ps[0])
      case Ok(s') => InsertRun(g, s', ps[1..])
      case _ => Panic
  }

  /** The held set after a run is the union of what was held and all the blocks written. */
  lemma {:induction false} RunHeld(g: Geometry, s: Store, ps: seq<Piece>, i: u32, x: int)
    requires Exact(g) && Shaped(g, s) && Inside(g, s)
    requires forall p :: p in ps ==> InPiece(g, p)
    ensures InsertRun(g, s, ps).Ok?
    ensures var s' := InsertRun(g, s, ps).value; Shaped(g, s') && Inside(g, s')
    ensures Held(g, InsertRun(g, s, ps).value, i, x) <==> Held(g, s, i, x) || Written(ps, i, x)
    decreases |ps|
  {
    if ps != [] {
      assert ps[0] in ps;
      InsertInside(g, s, ps[0]);
      InsertHeld(g, s, ps[0], i, x);
      RunHeld(g, InsertPiece(g, s, ps[0]).value, ps[1..], i, x);
      assert forall p :: p in ps <==> p == ps[0] || p in ps[1..];
    }
  }

  /** The blocks that change a marker list: non-empty and not a whole piece. */
  ghost predicate Partial(g: Geometry, p: Piece) {
    InPiece(g, p) && p.length > 0 && !(p.begin == 0 && p.length == PieceSize(g, p.index))
  }

  /** A run of partial blocks leaves the bitfield alone and gives a list to exactly the pieces it touches. */
  lemma {:induction false} PartialRun(g: Geometry, s: Store, ps: seq<Piece>)
    requires Exact(g) && Shaped(g, s) && Inside(g, s)
    requires forall p :: p in ps ==> Partial(g, p)
    ensures InsertRun(g, s, ps).Ok?
    ensures InsertRun(g, s, ps).value.bits == s.bits
    ensures InsertRun(g, s, ps).value.blocks.Keys == s.blocks.Keys + Touched(ps)
    decreases |ps|
  {
    if ps != [] {
      assert ps[0] in ps;
      InsertInside(g, s, ps[0]);
      InsertResult(g, s, ps[0]);
      PartialRun(g, InsertPiece(g, s, ps[0]).value, ps[1..]);
      TouchedFirst(ps);
      assert InsertPiece(g, s, ps[0]).value.blocks.Keys == s.blocks.Keys + {ps[0].index};
    }
  }

  ghost function Touched(ps: seq<Piece>): set<u32> {
    set p | p in ps :: p.index
  }

  lemma {:induction false} TouchedFirst(ps: seq<Piece>)
    requires ps != []
    ensures Touched(ps) == {ps[0].index} + Touched(ps[1..])
  {
    assert forall p :: p in ps <==> p == ps[0] || p in ps[1..];
  }

  /** What a run of partial blocks adds to one list. */
  lemma {:induction false} PartialRunCovers(g: Geometry, s: Store, ps: seq<Piece>, i: u32, x: int)
    requires Exact(g) && Shaped(g, s) && Inside(g, s)
    requires forall p :: p in ps ==> Partial(g, p)
    ensures InsertRun(g, s, ps).Ok? && Shaped(g, InsertRun(g, s, ps).value)
    ensures Covers(List(InsertRun(g, s, ps).value, i), x)
            <==> Covers(List(s, i), x) || Written(ps, i, x)
    decreases |ps|
  {
    if ps != [] {
      var p := ps[0];
      assert p in ps;
      InsertInside(g, s, p);
      InsertResult(g, s, p);
      AddRangeCovers(g, s, p, i, x);
      PartialRunCovers(g, InsertPiece(g, s, p).value, ps[1..], i, x);
      assert forall p :: p in ps <==> p == ps[0] || p in ps[1..];
    }
  }

  /** Two runs of the same partial blocks give piece i the same list. */
  lemma {:induction false} SameList(g: Geometry, s: Store, ps: seq<Piece>, qs: seq<Piece>, i: u32)
    requires Exact(g) && Shaped(g, s) && Inside(g, s)
    requires forall p :: p in ps ==> Partial(g, p)
    requires forall p :: p in ps <==> p in qs
    ensures InsertRun(g, s, ps).Ok? && InsertRun(g, s, qs).Ok?
    ensures List(InsertRun(g, s, ps).value, i) == List(InsertRun(g, s, qs).value, i)
  {
    PartialRunCovers(g, s, ps, i, 0);
    PartialRunCovers(g, s, qs, i, 0);
    var a, b := List(InsertRun(g, s, ps).value, i), List(InsertRun(g, s, qs).value, i);
    forall x ensures Covers(a, x) <==> Covers(b, x) {
      PartialRunCovers(g, s, ps, i, x);
      PartialRunCovers(g, s, qs, i, x);
    }
    Canonical(a, b);
  }

  /** Any reordering or repetition of the same partial blocks ends in the identical store. */
  lemma {:induction false} OrderDoesNotMatter(g: Geometry, s: Store, ps: seq<Piece>, qs: seq<Piece>)
    requires Exact(g) && Shaped(g, s) && Inside(g, s)
    requires forall p :: p in ps ==> Partial(g, p)
    requires forall p :: p in ps <==> p in qs
    ensures InsertRun(g, s, ps).Ok? && InsertRun(g, s, ps) == InsertRun(g, s, qs)
  {
    PartialRun(g, s, ps);
    PartialRun(g, s, qs);
    assert Touched(ps) == Touched(qs);
    forall i: u32 ensures List(InsertRun(g, s, ps).value, i) == List(InsertRun(g, s, qs).value, i) {
      SameList(g, s, ps, qs, i);
    }
    SameStore(InsertRun(g, s, ps).value, InsertRun(g, s, qs).value);
  }

  lemma {:induction false} SameStore(a: Store, b: Store)
    requires a.bits == b.bits && a.blocks.Keys == b.blocks.Keys
    requires forall i: u32 :: List(a, i) == List(b, i)
    ensures a == b
  {
    forall i | i in a.blocks ensures a.blocks[i] == b.blocks[i] {
      assert List(a, i) == List(b, i);
    }
  }

  // ------------------------------------------------------------ read gate

  /** Some single interval of the list contains [begin, end]. */
  ghost predicate Contains(ms: seq<Marker>, begin: int, end: int) {
    exists k, m :: 0 <= k < |ms| && 0 <= m < |ms| && m == k + 1
                   && ms[k].Begin? && ms[k].val <= begin && end <= ms[m].val
  }

  /** For a non-empty block, lying in one interval is the same as having all its bytes. */
  lemma {:induction false} ContainsAll(ms: seq<Marker>, begin: int, end: int)
    requires Normal(ms) && begin < end
    ensures Contains(ms, begin, end) <==> forall x :: begin <= x < end ==> Covers(ms, x)
  {
    if forall x :: begin <= x < end ==> Covers(ms, x) {
      assert Covers(ms, begin);
      var k, m :| 0 <= k < |ms| && 0 <= m < |ms| && m == k + 1 && ms[k].Begin? && ms[k].val <= begin < ms[m].val;
      GapAfter(ms, m);
    }
  }

  /** The byte at an end mark is not held. */
  lemma {:induction false} GapAfter(ms: seq<Marker>, m: nat)
    requires Normal(ms) && m < |ms| && ms[m].End?
    ensures !Covers(ms, ms[m].val)
  {
    assert Splits(ms, ms[m].val + 1, m + 1);
    CoversOpen(ms, ms[m].val, m + 1);
  }

  /** `read_block` lets a block through when its piece is complete or one interval contains it. */
  ghost predicate Readable(s: Store, p: Piece) {
    p.index < |s.bits| && (s.bits[p.index] || Contains(List(s, p.index), p.begin, p.begin + p.length))
  }

  /** After any run from the empty store, a non-empty block is let through exactly when every byte of it has been
      written, whether its piece is complete or not. */
  lemma {:induction false} ReadGate(g: Geometry, ps: seq<Piece>, p: Piece)
    requires Exact(g) && (forall q :: q in ps ==> InPiece(g, q)) && InPiece(g, p) && p.length > 0
    ensures InsertRun(g, Empty(g), ps).Ok?
    ensures var s := InsertRun(g, Empty(g), ps).value;
            |s.bits| == g.npieces && (Readable(s, p) <==> AllWritten(ps, p))
  {
    RunHeld(g, Empty(g), ps, p.index, 0);
    var s := InsertRun(g, Empty(g), ps).value;
    ContainsAll(List(s, p.index), p.begin, p.begin + p.length);
    forall x ensures Held(g, s, p.index, x) <==> Written(ps, p.index, x) {
      RunHeld(g, Empty(g), ps, p.index, x);
    }
    if !s.bits[p.index] {
      assert forall x :: Held(g, s, p.index, x) <==> Covers(List(s, p.index), x);
    } else {
      assert forall x :: p.begin <= x < p.begin + p.length ==> Held(g, s, p.index, x);
    }
  }

  /** Byte x of piece i was part of some block of the run. */
  ghost predicate Written(ps: seq<Piece>, i: u32, x: int) {
    exists q :: q in ps && InBlock(q, i, x)
  }

  ghost predicate AllWritten(ps: seq<Piece>, p: Piece) {
    forall x :: p.begin <= x < p.begin + p.length ==> Written(ps, p.index, x)
  }

  function Empty(g: Geometry): (s: Store)
    ensures Shaped(g, s) && Inside(g, s)
  {
    Store(seq(g.npieces, i => false), map[])
  }
}
