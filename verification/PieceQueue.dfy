/** The rarest-first piece queue of src/bittorrent/torrent_runtime.rs. */
module PieceQueues {
  import opened Outcomes

  const MAX_PEERS := 30
  const MIN_PRIORITY: int := -MAX_PEERS - 1

  /** Pieces nobody holds, and a priority for every piece still queued. */
  datatype Queue = Queue(zeros: set<nat>, prio: map<nat, int>)

  /** The piece indices 0, ..., n-1. */
  function Indices(n: nat): (r: set<nat>)
    ensures forall i: nat :: i in r <==> i < n
  {
    if n == 0 then {} else Indices(n - 1) + {n - 1}
  }

  function NewQueue(npieces: nat): Queue {
    Queue(Indices(npieces), map i | i in Indices(npieces) :: MIN_PRIORITY)
  }

  /** `change_priority` of the priority queue: no effect on an absent item. */
  function SetPriority(prio: map<nat, int>, i: nat, p: int): map<nat, int> {
    if i in prio then prio[i := p] else prio
  }

  /** `update_priority`: d more peers hold piece i. */
  function Update(q: Queue, i: nat, d: int): Outcome<Queue> {
    if i in q.zeros then
      var p := 0 - d;
      if p > 0 then Panic
      else if p < 0 then Ok(Queue(q.zeros - {i}, SetPriority(q.prio, i, p)))
      else Ok(q)
    else if i in q.prio then
      var p := q.prio[i] - d;
      if p == 0 then Ok(Queue(q.zeros + {i}, SetPriority(q.prio, i, MIN_PRIORITY)))
      else Ok(Queue(q.zeros, SetPriority(q.prio, i, p)))
    else Ok(q)
  }

  /** i is an item of highest priority. */
  ghost predicate Top(prio: map<nat, int>, i: nat) {
    i in prio && forall j :: j in prio ==> prio[j] <= prio[i]
  }

  lemma {:induction false} TopExists(prio: map<nat, int>)
    requires prio != map[]
    ensures exists i :: Top(prio, i)
    decreases |prio|
  {
    var k :| k in prio;
    var rest := prio - {k};
    if rest == map[] {
      forall j | j in prio ensures prio[j] <= prio[k] {
        assert j != k ==> j in rest;
      }
      assert Top(prio, k);
    } else {
      TopExists(rest);
      var i :| Top(rest, i);
      var best := if prio[k] <= prio[i] then i else k;
      forall j | j in prio ensures prio[j] <= prio[best] {
        assert j != k ==> j in rest;
      }
      assert Top(prio, best);
    }
  }

  /** What `pop` may do: nothing when the best priority is the minimum (or the queue is empty),
      otherwise take one of the items of highest priority. */
  ghost predicate PopStep(q: Queue, r: Option<(nat, int)>, q': Queue) {
    match r
    case None => q' == q && forall i :: Top(q.prio, i) ==> q.prio[i] == MIN_PRIORITY
    case Some((i, p)) =>
      Top(q.prio, i) && p == q.prio[i] != MIN_PRIORITY && q' == Queue(q.zeros, q.prio - {i})
  }

  class PieceQueue {
    var zeros: set<nat>
    var queue: map<nat, int>

    function State(): Queue
      reads this
    {
      Queue(zeros, queue)
    }

    constructor (npieces: nat)
      ensures State() == NewQueue(npieces)
    {
      zeros := Indices(npieces);
      queue := map i | i in Indices(npieces) :: MIN_PRIORITY;
    }

    method Pop() returns (r: Option<(nat, int)>)
      modifies this
      ensures PopStep(old(State()), r, State())
    {
      if queue == map[] {
        return None;
      }
      TopExists(queue);
      var i :| i in queue && forall j :: j in queue ==> queue[j] <= queue[i];
      if queue[i] == MIN_PRIORITY {
        assert forall k :: Top(queue, k) ==> queue[k] == queue[i];
        return None;
      }
      r := Some((i, queue[i]));
      assert Top(old(State()).prio, i);
      queue := queue - {i};
    }

    method ChangePriority(i: nat, d: int) returns (r: Outcome<()>)
      modifies this
      ensures match Update(old(State()), i, d)
              case Ok(q) => r == Ok(()) && State() == q
              case _ => r == Panic && State() == old(State())
    {
      if i in zeros {
        var p := 0 - d;
        if p > 0 {
          return Panic;
        } else if p < 0 {
          zeros := zeros - {i};
          queue := SetPriority(queue, i, p);
        }
      } else if i in queue {
        var p := queue[i] - d;
        if p == 0 {
          zeros := zeros + {i};
          queue := SetPriority(queue, i, MIN_PRIORITY);
        } else {
          queue := SetPriority(queue, i, p);
        }
      }
      return Ok(());
    }
  }

  // ------------------------------------------------- refinement of holder counts

  /** The queue stands for the holder counts of the pieces still queued. */
  ghost predicate Refines(q: Queue, count: nat -> int) {
    && q.zeros <= q.prio.Keys
    && forall i :: i in q.prio ==>
         && count(i) >= 0
         && (i in q.zeros <==> count(i) == 0)
         && q.prio[i] == if count(i) == 0 then MIN_PRIORITY else -count(i)
  }

  /** One operation on the queue: a change of a count, or a pop. */
  datatype Op = Change(i: nat, d: int) | Popped(r: Option<(nat, int)>)

  ghost predicate Step(q: Queue, op: Op, q': Queue) {
    match op
    case Change(i, d) => Update(q, i, d) == Ok(q')
    case Popped(r) => PopStep(q, r, q')
  }

  /** Number of peers holding piece i after the changes among ops. */
  function Count(ops: seq<Op>, i: nat): int {
    if ops == [] then 0
    else Count(ops[..|ops| - 1], i)
         + (match ops[|ops| - 1] case Change(j, d) => (if i == j then d else 0) case Popped(_) => 0)
  }

  /** States along a run. */
  ghost predicate Run(npieces: nat, states: seq<Queue>, ops: seq<Op>) {
    && |states| == |ops| + 1
    && states[0] == NewQueue(npieces)
    && forall k {:trigger ops[k]} :: 0 <= k < |ops| ==> Step(states[k], ops[k], states[k + 1])
  }

  /** d more peers hold piece i. */
  function Counted(count: nat -> int, i: nat, d: int): (r: nat -> int)
    ensures forall j: nat :: r(j) == if j == i then count(j) + d else count(j)
  {
    (j: nat) => if j == i then count(j) + d else count(j)
  }

  lemma {:induction false} UpdateRefines(q: Queue, count: nat -> int, i: nat, d: int, count': nat -> int)
    requires Refines(q, count)
    requires (forall j :: count'(j) == if j == i then count(j) + d else count(j)) && (i in q.prio ==> count'(i) >= 0)
    ensures Update(q, i, d).Ok? && Refines(Update(q, i, d).value, count')
    ensures Update(q, i, d).value.prio.Keys == q.prio.Keys
  {
  }

  /** `update_priority_all` from piece k on: every piece whose bit is set, by the same amount. */
  function UpdateFrom(q: Queue, bits: seq<bool>, d: int, k: nat): Outcome<Queue>
    requires k <= |bits|
    decreases |bits| - k
  {
    if k == |bits| then Ok(q)
    else if !bits[k] then UpdateFrom(q, bits, d, k + 1)
    else match Update(q, k, d)
      case Ok(q') => UpdateFrom(q', bits, d, k + 1)
      case _ => Panic
  }

  function UpdateAll(q: Queue, bits: seq<bool>, d: int): Outcome<Queue> {
    UpdateFrom(q, bits, d, 0)
  }

  /** The counts after a change by d of every piece from k on whose bit is set. */
  function CountedFrom(count: nat -> int, bits: seq<bool>, d: int, k: nat): (r: nat -> int)
    ensures forall j: nat :: r(j) == if k <= j < |bits| && bits[j] then count(j) + d else count(j)
  {
    (j: nat) => if k <= j < |bits| && bits[j] then count(j) + d else count(j)
  }

  /** Some piece from k on whose bit is set is queued and held by nobody. */
  ghost predicate Unheld(q: Queue, count: nat -> int, bits: seq<bool>, k: nat) {
    exists i :: k <= i < |bits| && bits[i] && i in q.prio && count(i) == 0
  }

  lemma {:induction false} RefinesSame(q: Queue, count: nat -> int, count': nat -> int)
    requires Refines(q, count) && forall j: nat :: count'(j) == count(j)
    ensures Refines(q, count')
  {
  }

  lemma {:induction false} UpdateFromExactly(q: Queue, count: nat -> int, bits: seq<bool>, d: int, k: nat)
    requires Refines(q, count) && (d == 1 || d == -1) && k <= |bits|
    ensures match UpdateFrom(q, bits, d, k)
            case Ok(q') => Refines(q', CountedFrom(count, bits, d, k)) && !(d == -1 && Unheld(q, count, bits, k))
            case Err => false
            case Panic => d == -1 && Unheld(q, count, bits, k)
    decreases |bits| - k
  {
    if k == |bits| {
      RefinesSame(q, count, CountedFrom(count, bits, d, k));
    } else if !bits[k] {
      UpdateFromExactly(q, count, bits, d, k + 1);
      if UpdateFrom(q, bits, d, k).Ok? {
        var q' := UpdateFrom(q, bits, d, k).value;
        RefinesSame(q', CountedFrom(count, bits, d, k + 1), CountedFrom(count, bits, d, k));
      }
    } else {
      PanicExactly(q, count, k, d);
      if Update(q, k, d).Ok? {
        UpdateNext(q, count, bits, d, k);
      }
    }
  }

  lemma {:induction false} UpdateNext(q: Queue, count: nat -> int, bits: seq<bool>, d: int, k: nat)
    requires Refines(q, count) && (d == 1 || d == -1) && k < |bits| && bits[k] && Update(q, k, d).Ok?
    requires !(d == -1 && k in q.prio && count(k) == 0)
    ensures match UpdateFrom(q, bits, d, k)
            case Ok(q') => Refines(q', CountedFrom(count, bits, d, k)) && !(d == -1 && Unheld(q, count, bits, k))
            case Err => false
            case Panic => d == -1 && Unheld(q, count, bits, k)
    decreases |bits| - k, 0
  {
    var q1, count1 := Update(q, k, d).value, Counted(count, k, d);
    UpdateRefines(q, count, k, d, count1);
    UpdateFromExactly(q1, count1, bits, d, k + 1);
    assert d == -1 && Unheld(q, count, bits, k) ==> Unheld(q1, count1, bits, k + 1);
    if UpdateFrom(q, bits, d, k).Ok? {
      var q' := UpdateFrom(q, bits, d, k).value;
      RefinesSame(q', CountedFrom(count1, bits, d, k + 1), CountedFrom(count, bits, d, k));
    }
  }

  /** Changing the priority of every piece a peer has. One holder more never panics; one less panics exactly when some
      piece with its bit set is queued and held by nobody; otherwise the queue stands for the changed counts. */
  lemma {:induction false} UpdateAllExactly(q: Queue, count: nat -> int, bits: seq<bool>, d: int)
    requires Refines(q, count) && (d == 1 || d == -1)
    ensures UpdateAll(q, bits, d).Panic? <==> d == -1 && Unheld(q, count, bits, 0)
    ensures UpdateAll(q, bits, d).Ok? || UpdateAll(q, bits, d).Panic?
    ensures UpdateAll(q, bits, d).Ok? ==> Refines(UpdateAll(q, bits, d).value, CountedFrom(count, bits, d, 0))
  {
    UpdateFromExactly(q, count, bits, d, 0);
  }

  /** On every run of count changes and pops in which no queued count goes below zero, the queue stands for the
      counts: a queued piece is among the zeros exactly when its count is 0, and its priority is minus the count. */
  lemma {:induction false} RunRefines(npieces: nat, states: seq<Queue>, ops: seq<Op>)
    requires Run(npieces, states, ops)
    requires forall k, i :: 0 <= k <= |ops| && 0 <= i < npieces ==> Count(ops[..k], i) >= 0
    ensures Refines(states[|ops|], (i: nat) => Count(ops, i))
    ensures states[|ops|].prio.Keys <= Indices(npieces)
    decreases |ops|
  {
    if ops != [] {
      var n := |ops| - 1;
      var before := ops[..n];
      forall k, i | 0 <= k <= n && 0 <= i < npieces ensures Count(before[..k], i) >= 0 {
        assert before[..k] == ops[..k];
      }
      RunRefines(npieces, states[..|ops|], before);
      assert ops[..|ops|] == ops;
      if ops[n].Change? {
        UpdateRefines(states[n], (i: nat) => Count(before, i), ops[n].i, ops[n].d, (i: nat) => Count(ops, i));
      }
    }
  }

  /** The panic of `change_priority_by` is met exactly when a change takes the count of a queued piece nobody holds
      below 0. */
  lemma {:induction false} PanicExactly(q: Queue, count: nat -> int, i: nat, d: int)
    requires Refines(q, count)
    ensures Update(q, i, d).Panic? <==> i in q.prio && count(i) == 0 && d < 0
  {
  }

  /** What a pop returns, in terms of the counts. Any result is a held piece with the fewest holders; and nothing is
      returned exactly when no queued piece has 1 to MAX_PEERS holders but one has 0 or MAX_PEERS + 1 (or none is
      queued). */
  lemma {:induction false} PopExactly(q: Queue, count: nat -> int, r: Option<(nat, int)>, q': Queue)
    requires Refines(q, count) && PopStep(q, r, q')
    ensures r.Some? ==> var i := r.value.0;
              && i in q.prio && count(i) > 0 && i !in q'.prio
              && forall j :: j in q.prio && count(j) > 0 ==> count(i) <= count(j)
    ensures r.None? <==>
              || q.prio == map[]
              || ((forall i :: i in q.prio ==> !(1 <= count(i) <= MAX_PEERS))
                  && exists i :: i in q.prio && (count(i) == 0 || count(i) == MAX_PEERS + 1))
  {
    if q.prio != map[] {
      TopExists(q.prio);
      var t :| Top(q.prio, t);
      assert r.None? <==> q.prio[t] == MIN_PRIORITY;
      if q.prio[t] == MIN_PRIORITY {
        assert count(t) == 0 || count(t) == MAX_PEERS + 1;
        forall i | i in q.prio ensures !(1 <= count(i) <= MAX_PEERS) {
          assert q.prio[i] <= q.prio[t];
        }
      } else if exists i :: i in q.prio && (count(i) == 0 || count(i) == MAX_PEERS + 1) {
        var i :| i in q.prio && (count(i) == 0 || count(i) == MAX_PEERS + 1);
        assert q.prio[i] <= q.prio[t];
      }
    }
  }

  /** The queue keeps its promise, to return a piece whenever a queued piece is held, for counts up to MAX_PEERS;
      beyond that it keeps it exactly when all queued counts exceed MAX_PEERS + 1 or one is in 1..MAX_PEERS. */
  lemma {:induction false} PopPromise(q: Queue, count: nat -> int, r: Option<(nat, int)>, q': Queue)
    requires Refines(q, count) && PopStep(q, r, q')
    ensures (r.None? <==> forall i :: i in q.prio ==> count(i) == 0)
            <==>
            || (forall i :: i in q.prio ==> count(i) == 0)
            || (exists i :: i in q.prio && 1 <= count(i) <= MAX_PEERS)
            || (forall i :: i in q.prio ==> count(i) > MAX_PEERS + 1)
  {
    PopExactly(q, count, r, q');
    if q.prio != map[] {
      var k :| k in q.prio;
    }
  }

  /** The queue of a torrent of one piece that n peers have. */
  function SinglePiece(n: int): Queue {
    if n == 0 then NewQueue(1) else Queue({}, map[0 := -n])
  }

  /** n peers announce the only piece, one after the other. */
  lemma {:induction false} HeldBy(n: nat) returns (states: seq<Queue>, ops: seq<Op>)
    ensures Run(1, states, ops) && |ops| == n && Count(ops, 0) == n
    ensures states[n] == SinglePiece(n)
  {
    if n == 0 {
      states, ops := [NewQueue(1)], [];
    } else {
      var before, earlier := HeldBy(n - 1);
      states, ops := before + [SinglePiece(n)], earlier + [Change(0, 1)];
      AnnouncedOnce(n);
      assert ops[..|ops| - 1] == earlier;
    }
  }

  lemma {:induction false} AnnouncedOnce(n: int)
    requires n > 0
    ensures Update(SinglePiece(n - 1), 0, 1) == Ok(SinglePiece(n))
  {
    OnePiece();
    if n == 1 {
      assert map[0 := MIN_PRIORITY][0 := -1] == SinglePiece(1).prio;
    } else {
      assert map[0 := 1 - n][0 := -n] == SinglePiece(n).prio;
    }
    assert Update(SinglePiece(n - 1), 0, 1).value == SinglePiece(n);
  }

  lemma {:induction false} OnePiece()
    ensures NewQueue(1) == Queue({0}, map[0 := MIN_PRIORITY])
  {
    assert Indices(0) == {} && Indices(1) == {0};
  }

  /** A run in which one peer more than MAX_PEERS announces the only piece: from then on it is queued and held, and
      never popped. */
  lemma {:induction false} OneTooMany() returns (states: seq<Queue>, ops: seq<Op>)
    ensures Run(1, states, ops) && |ops| == MAX_PEERS + 1
    ensures 0 in states[|ops|].prio && Count(ops, 0) == MAX_PEERS + 1
    ensures forall r, q' :: PopStep(states[|ops|], r, q') ==> r == None && q' == states[|ops|]
  {
    states, ops := HeldBy(MAX_PEERS + 1);
    var q := states[|ops|];
    assert Top(q.prio, 0);
    forall r, q' | PopStep(q, r, q') ensures r == None && q' == q {
      assert q.prio == map[0 := MIN_PRIORITY];
    }
  }
}
