/** Which piece to request next (src/bittorrent/torrent_runtime.rs, `select_piece` and
    `remove_request`): expired requests first, then the rarest queued piece. */
module Scheduler {
  import opened Outcomes
  import opened Blocks
  import opened PieceQueues

  const READ_TIMEOUT: nat := 5_000_000_000

  datatype Request = Request(piece: Piece, time: nat)

  datatype Sched = Sched(queue: Queue, outstanding: seq<Request>)

  /** `default_piece`: the whole piece `index`. */
  function DefaultPiece(g: Geometry, index: nat): Outcome<Piece> {
    if index >= U32_LIMIT then Panic
    else match MaxLength(g, index)
      case Ok(length) => Ok(Piece(index, 0, length))
      case _ => Panic
  }

  predicate Expired(r: Request, now: nat) {
    now - r.time >= READ_TIMEOUT
  }

  /** Taking a piece from the queue, which becomes the newest outstanding request. */
  ghost predicate TakeQueued(g: Geometry, s: Sched, now: nat, piece: Piece, s': Sched) {
    && piece.index in s.queue.prio
    && PopStep(s.queue, Some((piece.index, s.queue.prio[piece.index])), s'.queue)
    && DefaultPiece(g, piece.index) == Ok(piece)
    && s'.outstanding == s.outstanding + [Request(piece, now)]
  }

  predicate FrontExpired(s: Sched, now: nat) {
    s.outstanding != [] && Expired(s.outstanding[0], now)
  }

  /** `select_piece` at time `now`: give up the front request if it has expired, else take from the queue. */
  ghost predicate Select(g: Geometry, s: Sched, now: nat, r: Option<Piece>, s': Sched) {
    if FrontExpired(s, now) then
      r == Some(s.outstanding[0].piece) && s' == Sched(s.queue, s.outstanding[1..])
    else
      match r
      case Some(piece) => TakeQueued(g, s, now, piece, s')
      case None => PopStep(s.queue, None, s'.queue) && s'.outstanding == s.outstanding
  }

  /** `remove_request`: forget every request for exactly this block. */
  function Without(rs: seq<Request>, piece: Piece): (r: seq<Request>)
    ensures |r| <= |rs|
    ensures forall x :: x in r <==> x in rs && x.piece != piece
  {
    if rs == [] then []
    else
      assert rs == [rs[0]] + rs[1..];
      (if rs[0].piece != piece then [rs[0]] else []) + Without(rs[1..], piece)
  }

  // ----------------------------------------------------------- run invariant

  ghost predicate Ordered(rs: seq<Request>) {
    forall i, j :: 0 <= i < j < |rs| ==> rs[i].time <= rs[j].time
  }

  ghost predicate Distinct(rs: seq<Request>) {
    forall i, j :: 0 <= i < j < |rs| ==> rs[i].piece.index != rs[j].piece.index
  }

  ghost function Outstanding(rs: seq<Request>): set<nat> {
    set r | r in rs :: r.piece.index
  }

  /** Requests are in order of time, for different pieces, none of them still queued; queued, outstanding
      and released pieces make up all the pieces. */
  ghost predicate Consistent(g: Geometry, s: Sched, released: set<nat>, clock: nat) {
    && Ordered(s.outstanding)
    && Distinct(s.outstanding)
    && (forall r :: r in s.outstanding ==> r.time <= clock && DefaultPiece(g, r.piece.index) == Ok(r.piece))
    && s.queue.prio.Keys !! Outstanding(s.outstanding)
    && s.queue.prio.Keys !! released
    && Outstanding(s.outstanding) !! released
    && s.queue.prio.Keys + Outstanding(s.outstanding) + released == Indices(g.npieces)
  }

  lemma {:induction false} StartConsistent(g: Geometry)
    ensures Consistent(g, Sched(NewQueue(g.npieces), []), {}, 0)
  {
    assert NewQueue(g.npieces).prio.Keys == Indices(g.npieces);
  }

  lemma {:induction false} TakeFront(rs: seq<Request>)
    requires rs != [] && Distinct(rs)
    ensures Outstanding(rs) == {rs[0].piece.index} + Outstanding(rs[1..])
    ensures rs[0].piece.index !in Outstanding(rs[1..])
  {
    assert rs == [rs[0]] + rs[1..];
    forall r | r in rs[1..] ensures r.piece.index != rs[0].piece.index {
      var i :| 0 <= i < |rs[1..]| && rs[1..][i] == r;
      assert rs[i + 1] == r;
    }
  }

  /** Selecting a piece keeps the bookkeeping consistent: a piece given up is released, a queued one becomes
      outstanding. */
  lemma {:induction false} SelectConsistent(g: Geometry, s: Sched, released: set<nat>, clock: nat, now: nat,
                                            r: Option<Piece>, s': Sched)
    requires Consistent(g, s, released, clock) && clock <= now && Select(g, s, now, r, s')
    ensures var given := if FrontExpired(s, now) then {s.outstanding[0].piece.index} else {};
            Consistent(g, s', released + given, now)
  {
    if FrontExpired(s, now) {
      TakeFront(s.outstanding);
    } else if r.Some? {
      AddLast(s.outstanding, Request(r.value, now), clock);
    }
  }

  lemma {:induction false} AddLast(rs: seq<Request>, r: Request, clock: nat)
    requires Ordered(rs) && Distinct(rs) && (forall x :: x in rs ==> x.time <= clock) && clock <= r.time
    requires r.piece.index !in Outstanding(rs)
    ensures Ordered(rs + [r]) && Distinct(rs + [r])
    ensures Outstanding(rs + [r]) == Outstanding(rs) + {r.piece.index}
  {
    forall i | 0 <= i < |rs| ensures rs[i].time <= r.time && rs[i].piece.index != r.piece.index {
      assert rs[i] in rs;
    }
  }

  /** What is left after dropping some requests is still in order and distinct. */
  lemma {:induction false} WithoutKeeps(rs: seq<Request>, piece: Piece)
    requires Ordered(rs) && Distinct(rs)
    ensures Ordered(Without(rs, piece)) && Distinct(Without(rs, piece))
    decreases |rs|
  {
    if rs != [] {
      WithoutKeeps(rs[1..], piece);
      var tail := Without(rs[1..], piece);
      forall j | 0 <= j < |tail| ensures rs[0].time <= tail[j].time && rs[0].piece.index != tail[j].piece.index {
        assert tail[j] in tail;
        BehindFront(rs, tail[j]);
      }
    }
  }

  lemma {:induction false} BehindFront(rs: seq<Request>, x: Request)
    requires rs != [] && Ordered(rs) && Distinct(rs) && x in rs[1..]
    ensures rs[0].time <= x.time && rs[0].piece.index != x.piece.index
  {
    var m :| 0 <= m < |rs[1..]| && rs[1..][m] == x;
    assert rs[m + 1] == x;
  }

  /** The pieces released by forgetting the requests for a block: the one requested as exactly this block. */
  ghost function GivenUp(rs: seq<Request>, piece: Piece): set<nat> {
    Outstanding(rs) - Outstanding(Without(rs, piece))
  }

  lemma {:induction false} RemoveConsistent(g: Geometry, s: Sched, released: set<nat>, clock: nat, piece: Piece)
    requires Consistent(g, s, released, clock)
    ensures var s' := Sched(s.queue, Without(s.outstanding, piece));
            Consistent(g, s', released + GivenUp(s.outstanding, piece), clock)
    ensures GivenUp(s.outstanding, piece) == (set r | r in s.outstanding && r.piece == piece :: r.piece.index)
  {
    WithoutKeeps(s.outstanding, piece);
    forall r, x | r in s.outstanding && r.piece == piece && x in Without(s.outstanding, piece)
      ensures x.piece.index != r.piece.index
    {
      DifferentIndex(s.outstanding, x, r);
    }
  }

  lemma {:induction false} DifferentIndex(rs: seq<Request>, x: Request, y: Request)
    requires Distinct(rs) && x in rs && y in rs && x != y
    ensures x.piece.index != y.piece.index
  {
    var i :| 0 <= i < |rs| && rs[i] == x;
    var j :| 0 <= j < |rs| && rs[j] == y;
  }

  /** Testing the front request is enough: if any outstanding request has expired, an expired one is returned. */
  lemma {:induction false} FrontIsEnough(g: Geometry, s: Sched, released: set<nat>, clock: nat, now: nat,
                                         r: Option<Piece>, s': Sched)
    requires Consistent(g, s, released, clock) && Select(g, s, now, r, s')
    requires exists x :: x in s.outstanding && Expired(x, now)
    ensures exists x :: x in s.outstanding && Expired(x, now) && r == Some(x.piece) && x !in s'.outstanding
                        && (forall y :: y in s.outstanding ==> x.time <= y.time)
  {
    var x :| x in s.outstanding && Expired(x, now);
    var i :| 0 <= i < |s.outstanding| && s.outstanding[i] == x;
    var front := s.outstanding[0];
    assert front.time <= x.time && front in s.outstanding;
    TakeFront(s.outstanding);
    forall y | y in s.outstanding ensures front.time <= y.time {
      var j :| 0 <= j < |s.outstanding| && s.outstanding[j] == y;
    }
  }

  // --------------------------------------------------------------- whole runs

  datatype Event =
    | Selected(now: nat, r: Option<Piece>)
    | Removed(piece: Piece)
    | Changed(i: nat, d: int)

  ghost predicate Next(g: Geometry, s: Sched, e: Event, s': Sched) {
    match e
    case Selected(now, r) => Select(g, s, now, r, s')
    case Removed(piece) => s' == Sched(s.queue, Without(s.outstanding, piece))
    case Changed(i, d) => Update(s.queue, i, d) == Ok(s'.queue) && s'.outstanding == s.outstanding
  }

  /** The time reached after some events. */
  function Clock(es: seq<Event>): nat {
    if es == [] then 0
    else match es[|es| - 1] case Selected(now, _) => now case _ => Clock(es[..|es| - 1])
  }

  ghost predicate Run(g: Geometry, states: seq<Sched>, es: seq<Event>) {
    && |states| == |es| + 1
    && states[0] == Sched(NewQueue(g.npieces), [])
    && (forall k {:trigger es[k]} :: 0 <= k < |es| ==> Next(g, states[k], es[k], states[k + 1]))
    && (forall k :: 0 <= k < |es| && es[k].Selected? ==> Clock(es[..k]) <= es[k].now)
  }

  /** The pieces one event releases, and the time after it. */
  ghost function ReleasedBy(s: Sched, e: Event): set<nat> {
    match e
    case Selected(now, _) => if FrontExpired(s, now) then {s.outstanding[0].piece.index} else {}
    case Removed(piece) => GivenUp(s.outstanding, piece)
    case Changed(_, _) => {}
  }

  function TimeAfter(clock: nat, e: Event): nat {
    if e.Selected? then e.now else clock
  }

  lemma {:induction false} NextConsistent(g: Geometry, s: Sched, released: set<nat>, clock: nat, e: Event, s': Sched)
    requires Consistent(g, s, released, clock) && Next(g, s, e, s') && clock <= TimeAfter(clock, e)
    ensures Consistent(g, s', released + ReleasedBy(s, e), TimeAfter(clock, e))
  {
    match e
    case Selected(now, r) => SelectConsistent(g, s, released, clock, now, r, s');
    case Removed(piece) => RemoveConsistent(g, s, released, clock, piece);
    case Changed(i, d) =>
      assert s'.queue.prio.Keys == s.queue.prio.Keys && released + {} == released;
  }

  lemma {:induction false} RunStep(g: Geometry, states: seq<Sched>, es: seq<Event>, k: nat)
    requires Run(g, states, es) && k < |es|
    ensures Next(g, states[k], es[k], states[k + 1])
    ensures Clock(es[..k]) <= Clock(es[..k + 1]) == TimeAfter(Clock(es[..k]), es[k])
  {
    assert es[..k + 1][..k] == es[..k];
  }

  /** The pieces released so far: given up on expiry, or forgotten. */
  ghost function Released(states: seq<Sched>, es: seq<Event>): set<nat>
    requires |states| == |es| + 1
  {
    if es == [] then {}
    else
      Released(states[..|es|], es[..|es| - 1]) + ReleasedBy(states[|es| - 1], es[|es| - 1])
  }

  /** Released by the first k events. */
  ghost function ReleasedAt(states: seq<Sched>, es: seq<Event>, k: nat): set<nat>
    requires |states| == |es| + 1 && k <= |es|
  {
    Released(states[..k + 1], es[..k])
  }

  lemma {:induction false} ReleasedStep(states: seq<Sched>, es: seq<Event>, k: nat)
    requires |states| == |es| + 1 && k < |es|
    ensures ReleasedAt(states, es, k + 1) == ReleasedAt(states, es, k) + ReleasedBy(states[k], es[k])
  {
    assert states[..k + 2][..k + 1] == states[..k + 1] && es[..k + 1][..k] == es[..k];
  }

  /** In every run of selections, removals and count changes on a clock that never goes back, the bookkeeping is
      consistent at every moment: every piece is queued, outstanding or released so far, and only one of them. */
  lemma {:induction false} RunConsistent(g: Geometry, states: seq<Sched>, es: seq<Event>, n: nat)
    requires Run(g, states, es) && n <= |es|
    ensures Consistent(g, states[n], ReleasedAt(states, es, n), Clock(es[..n]))
  {
    StartConsistent(g);
    for k := 0 to n
      invariant Consistent(g, states[k], ReleasedAt(states, es, k), Clock(es[..k]))
    {
      RunStep(g, states, es, k);
      NextConsistent(g, states[k], ReleasedAt(states, es, k), Clock(es[..k]), es[k], states[k + 1]);
      ReleasedStep(states, es, k);
    }
  }

  // -------------------------------------------------- what a release means

  lemma {:induction false} ReleasedGrows(states: seq<Sched>, es: seq<Event>, m: nat, n: nat)
    requires |states| == |es| + 1 && m <= n <= |es|
    ensures ReleasedAt(states, es, m) <= ReleasedAt(states, es, n)
    decreases n - m
  {
    if m < n {
      ReleasedGrows(states, es, m, n - 1);
      ReleasedStep(states, es, n - 1);
    }
  }

  /** The event hands out piece i. */
  ghost predicate Hands(e: Event, i: nat) {
    e.Selected? && e.r.Some? && e.r.value.index == i
  }

  lemma {:induction false} HandedWasThere(g: Geometry, s: Sched, e: Event, s': Sched, i: nat)
    requires Next(g, s, e, s') && Hands(e, i)
    ensures if FrontExpired(s, e.now) then i in Outstanding(s.outstanding) && ReleasedBy(s, e) == {i}
            else i in s.queue.prio
  {
    assert FrontExpired(s, e.now) ==> s.outstanding[0] in s.outstanding;
  }

  /** A released piece is never queued, outstanding or handed out again: after its second request has gone out, a
      piece that nobody delivers is lost. */
  lemma {:induction false} ReleasedForGood(g: Geometry, states: seq<Sched>, es: seq<Event>, i: nat, m: nat, n: nat)
    requires Run(g, states, es) && m <= n <= |es| && i in ReleasedAt(states, es, m)
    ensures i !in states[n].queue.prio && i !in Outstanding(states[n].outstanding)
    ensures n < |es| ==> !Hands(es[n], i)
  {
    RunConsistent(g, states, es, n);
    ReleasedGrows(states, es, m, n);
    if n < |es| && Hands(es[n], i) {
      RunStep(g, states, es, n);
      HandedWasThere(g, states[n], es[n], states[n + 1], i);
    }
  }

  /** How often piece i has been handed out. */
  ghost function TimesHanded(es: seq<Event>, i: nat): nat {
    if es == [] then 0 else TimesHanded(es[..|es| - 1], i) + if Hands(es[|es| - 1], i) then 1 else 0
  }

  /** Never while a piece is queued, once while it is outstanding, and once or twice when it has been released. */
  ghost predicate HandedAsPlaced(g: Geometry, s: Sched, released: set<nat>, i: nat, times: nat) {
    && (i in s.queue.prio ==> times == 0)
    && (i in Outstanding(s.outstanding) ==> times == 1)
    && (i in released ==> 1 <= times <= 2)
    && (i >= g.npieces ==> times == 0)
  }

  lemma {:induction false} PlacedNext(g: Geometry, s: Sched, released: set<nat>, clock: nat, e: Event, s': Sched,
                                      i: nat, times: nat)
    requires Consistent(g, s, released, clock) && Next(g, s, e, s') && clock <= TimeAfter(clock, e)
    requires HandedAsPlaced(g, s, released, i, times)
    ensures HandedAsPlaced(g, s', released + ReleasedBy(s, e), i, times + if Hands(e, i) then 1 else 0)
  {
    NextConsistent(g, s, released, clock, e, s');
    if Hands(e, i) {
      HandedWasThere(g, s, e, s', i);
    }
  }

  /** Over a whole run `select_piece` hands out each piece at most twice: once from the queue, and once more when
      its request expires. */
  lemma {:induction false} AtMostTwice(g: Geometry, states: seq<Sched>, es: seq<Event>, i: nat)
    requires Run(g, states, es)
    ensures HandedAsPlaced(g, states[|es|], ReleasedAt(states, es, |es|), i, TimesHanded(es, i))
    ensures TimesHanded(es, i) <= 2
  {
    for k := 0 to |es|
      invariant HandedAsPlaced(g, states[k], ReleasedAt(states, es, k), i, TimesHanded(es[..k], i))
    {
      RunConsistent(g, states, es, k);
      RunStep(g, states, es, k);
      PlacedNext(g, states[k], ReleasedAt(states, es, k), Clock(es[..k]), es[k], states[k + 1], i,
                 TimesHanded(es[..k], i));
      ReleasedStep(states, es, k);
      assert es[..k + 1][..k] == es[..k];
    }
    RunConsistent(g, states, es, |es|);
    assert es[..|es|] == es;
    if i < g.npieces {
      assert i in Indices(g.npieces);
    }
  }
}
