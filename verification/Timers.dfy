/** The timing wheel of src/bittorrent/timers.rs. Durations are nanoseconds. */
module TimingWheel {
  import opened Outcomes

  const SECOND: nat := 1_000_000_000

  datatype Timer = Timer(base: nat, remaining: nat)

  function NewTimer(duration: nat): Timer {
    Timer(duration, duration)
  }

  /** One tick of a timer, and whether it fires. Durations cannot go below zero: subtracting too much panics. */
  function TickTimer(t: Timer, delta: nat): Outcome<(Timer, bool)> {
    if t.remaining < delta then Panic
    else if t.remaining == delta then Ok((Timer(t.base, t.base), true))
    else Ok((Timer(t.base, t.remaining - delta), false))
  }

  /** A tick of the wheel from timer k on: the timers, the numbers of those that fire, and whether a task asked
      to stop. The task of timer k answers `stops[k]`; after a stop the later timers are not ticked. */
  function TickFrom(ts: seq<Timer>, k: nat, delta: nat, stops: seq<bool>): Outcome<(seq<Timer>, seq<nat>, bool)>
    requires k <= |ts| == |stops|
    decreases |ts| - k
  {
    if k == |ts| then Ok((ts, [], false))
    else
      var (t, fires) :- TickTimer(ts[k], delta);
      var ts' := ts[k := t];
      if fires && stops[k] then Ok((ts', [k], true))
      else
        var (end, later, stopped) :- TickFrom(ts', k + 1, delta, stops);
        Ok((end, (if fires then [k] else []) + later, stopped))
  }

  class Timers {
    var timers: seq<Timer>
    const base: nat

    constructor (base: nat)
      ensures timers == [] && this.base == base
    {
      timers := [];
      this.base := base;
    }

    /** Adds a timer whose whole seconds are a multiple of the base's. */
    method Add(duration: nat) returns (r: Outcome<()>)
      modifies this
      ensures r == Accepts(base, duration)
      ensures timers == if r.Ok? then old(timers) + [NewTimer(duration)] else old(timers)
    {
      if base / SECOND == 0 {
        return Panic;
      }
      if (duration / SECOND) % (base / SECOND) != 0 {
        return Err;
      }
      timers := timers + [NewTimer(duration)];
      return Ok(());
    }

    method Tick(stops: seq<bool>) returns (r: Outcome<bool>, fired: seq<nat>)
      requires |stops| == |timers|
      modifies this
      ensures match TickFrom(old(timers), 0, base, stops)
              case Ok((ts, ks, stopped)) => r == Ok(stopped) && timers == ts && fired == ks
              case _ => r == Panic
    {
      fired := [];
      var k := 0;
      ghost var all := TickFrom(timers, 0, base, stops);
      assert all.Ok? ==> [] + all.value.1 == all.value.1;
      while k < |timers|
        invariant 0 <= k <= |timers| == |stops|
        invariant all == Earlier(fired, TickFrom(timers, k, base, stops))
      {
        var t := TickTimer(timers[k], base);
        if !t.Ok? {
          return Panic, fired;
        }
        EarlierTwice(fired, if t.value.1 then [k] else [], TickFrom(timers[k := t.value.0], k + 1, base, stops));
        timers := timers[k := t.value.0];
        if t.value.1 {
          fired := fired + [k];
          if stops[k] {
            return Ok(true), fired;
          }
        }
        k := k + 1;
      }
      assert fired + [] == fired;
      return Ok(false), fired;
    }
  }

  /** Timers that fired before, followed by the outcome for the rest. */
  function Earlier(fired: seq<nat>, r: Outcome<(seq<Timer>, seq<nat>, bool)>): Outcome<(seq<Timer>, seq<nat>, bool)> {
    match r
    case Ok((ts, later, stopped)) => Ok((ts, fired + later, stopped))
    case _ => r
  }

  lemma {:induction false} EarlierTwice(a: seq<nat>, b: seq<nat>, r: Outcome<(seq<Timer>, seq<nat>, bool)>)
    ensures Earlier(a, Earlier(b, r)) == Earlier(a + b, r)
    ensures a + [] == a
  {
    if r.Ok? {
      assert a + (b + r.value.1) == a + b + r.value.1;
    }
  }

  /** `add`: what happens with a duration. */
  function Accepts(base: nat, duration: nat): Outcome<()> {
    if base / SECOND == 0 then Panic
    else if (duration / SECOND) % (base / SECOND) != 0 then Err
    else Ok(())
  }

  // ------------------------------------------------------------ firing over time

  /** A timer after n ticks, with the number of times it has fired. */
  function TickTimes(t: Timer, delta: nat, n: nat): Outcome<(Timer, nat)> {
    if n == 0 then Ok((t, 0))
    else
      var (t', count) :- TickTimes(t, delta, n - 1);
      var (t'', fires) :- TickTimer(t', delta);
      Ok((t'', if fires then count + 1 else count))
  }

  lemma {:induction false} DivStep(n: nat, m: nat)
    requires m > 0
    ensures (n + 1) / m == if n % m == m - 1 then n / m + 1 else n / m
    ensures (n + 1) % m == if n % m == m - 1 then 0 else n % m + 1
  {
    var q, r := n / m, n % m;
    assert n == q * m + r;
    if r == m - 1 {
      assert n + 1 == (q + 1) * m;
      DivUnique(n + 1, m, q + 1, 0);
    } else {
      DivUnique(n + 1, m, q, r + 1);
    }
  }

  lemma {:induction false} DivUnique(n: nat, m: nat, q: nat, r: nat)
    requires m > 0 && n == q * m + r && r < m
    ensures n / m == q && n % m == r
  {
    assert n == (n / m) * m + n % m;
    assert (n / m - q) * m == r - n % m;
    Multiples(n / m - q, m);
  }

  lemma {:induction false} Multiples(d: int, m: int)
    requires m > 0
    ensures d == 0 || d * m >= m || d * m <= -m
  {
    if d > 0 {
      assert (d - 1) * m >= 0;
    } else {
      assert (-d - 1) * m >= 0 || d == 0;
    }
  }

  lemma {:induction false} Times(a: int, b: int, c: int)
    ensures (a + b) * c == a * c + b * c
  {
  }

  lemma {:induction false} AtLeastOne(a: nat, b: nat)
    requires a > 0
    ensures a * b >= b
  {
  }

  /** One tick of a timer with `left` base steps to go. */
  lemma {:induction false} StepTimer(m: nat, b: nat, left: nat)
    requires b > 0 && left > 0
    ensures TickTimer(Timer(m * b, left * b), b)
            == Ok(if left == 1 then (Timer(m * b, m * b), true) else (Timer(m * b, (left - 1) * b), false))
  {
    Times(left - 1, 1, b);
    if left > 1 {
      AtLeastOne(left - 1, b);
    }
  }

  /** A timer of m base steps has fired n / m times after n ticks. */
  lemma {:induction false} FiresEvery(m: nat, b: nat, n: nat)
    requires m > 0 && b > 0
    ensures TickTimes(NewTimer(m * b), b, n) == Ok((Timer(m * b, (m - n % m) * b), n / m))
    decreases n
  {
    if n == 0 {
      DivUnique(0, m, 0, 0);
    } else {
      FiresEvery(m, b, n - 1);
      DivStep(n - 1, m);
      StepTimer(m, b, m - (n - 1) % m);
    }
  }

  lemma {:induction false} Product3(q: int, m: int, r: int, b: int)
    ensures (q * m + r) * b == q * (m * b) + r * b
  {
  }

  lemma {:induction false} Cancel(n: nat, m: nat, b: nat)
    requires m > 0 && b > 0
    ensures m * b > 0 && (n * b) / (m * b) == n / m
  {
    var q, r := n / m, n % m;
    assert n == q * m + r;
    Product3(q, m, r, b);
    AtLeastOne(m, b);
    Times(m - r, r, b);
    AtLeastOne(m - r, b);
    DivUnique(n * b, m * b, q, r * b);
  }

  /** After n ticks of base b, a timer whose duration d is a positive multiple of b has fired n*b/d times, rounded
      down. */
  lemma {:induction false} FiredExactly(d: nat, b: nat, n: nat)
    requires b > 0 && d > 0 && d % b == 0
    ensures TickTimes(NewTimer(d), b, n).Ok? && TickTimes(NewTimer(d), b, n).value.1 == (n * b) / d
  {
    var m := d / b;
    assert d == m * b;
    assert m == 0 ==> m * b == 0;
    FiresEvery(m, b, n);
    Cancel(n, m, b);
  }

  lemma {:induction false} CountsDown(d: nat, b: nat, n: nat)
    requires b > 0 && n * b < d
    ensures TickTimes(NewTimer(d), b, n) == Ok((Timer(d, d - n * b), 0))
    decreases n
  {
    if n > 0 {
      assert (n - 1) * b == n * b - b;
      CountsDown(d, b, n - 1);
    }
  }

  /** A timer can be ticked for ever exactly when its duration is a positive multiple of the base. */
  lemma {:induction false} TicksForever(d: nat, b: nat)
    requires b > 0
    ensures (forall n: nat :: TickTimes(NewTimer(d), b, n).Ok?) <==> d > 0 && d % b == 0
  {
    if d > 0 && d % b == 0 {
      forall n: nat ensures TickTimes(NewTimer(d), b, n).Ok? {
        FiredExactly(d, b, n);
      }
    } else if d == 0 {
      assert TickTimes(NewTimer(d), b, 0) == Ok((Timer(0, 0), 0));
      assert TickTimes(NewTimer(d), b, 1) == Panic;
    } else {
      var q := d / b;
      assert d == q * b + d % b;
      CountsDown(d, b, q);
      assert TickTimes(NewTimer(d), b, q + 1) == Panic;
    }
  }

  /** For whole seconds, `add` accepts a positive duration exactly when its timer can be ticked for ever. */
  lemma {:induction false} AcceptedIsSafe(seconds: nat, baseSeconds: nat)
    requires seconds > 0 && baseSeconds > 0
    ensures Accepts(baseSeconds * SECOND, seconds * SECOND).Ok?
            <==> forall n: nat :: TickTimes(NewTimer(seconds * SECOND), baseSeconds * SECOND, n).Ok?
  {
    DivUnique(seconds * SECOND, SECOND, seconds, 0);
    DivUnique(baseSeconds * SECOND, SECOND, baseSeconds, 0);
    TicksForever(seconds * SECOND, baseSeconds * SECOND);
    var q, r := seconds / baseSeconds, seconds % baseSeconds;
    assert seconds == q * baseSeconds + r;
    assert seconds * SECOND == q * (baseSeconds * SECOND) + r * SECOND;
    assert r * SECOND < baseSeconds * SECOND;
    DivUnique(seconds * SECOND, baseSeconds * SECOND, q, r * SECOND);
  }

  /** Parts of a second are not looked at: a timer of 1.5 s on a wheel of 1 s is accepted and panics at its second
      tick. */
  lemma {:induction false} HalfSecondsPanic()
    ensures Accepts(SECOND, 1_500_000_000) == Ok(())
    ensures TickTimes(NewTimer(1_500_000_000), SECOND, 2) == Panic
  {
    assert TickTimes(NewTimer(1_500_000_000), SECOND, 0) == Ok((Timer(1_500_000_000, 1_500_000_000), 0));
    assert TickTimes(NewTimer(1_500_000_000), SECOND, 1) == Ok((Timer(1_500_000_000, 500_000_000), 0));
  }

  // ------------------------------------------------------------- the whole wheel

  /** Timers i, i+1, ... each after one tick. */
  ghost predicate AllTicked(ts: seq<Timer>, k: nat, delta: nat, ts': seq<Timer>) {
    && |ts'| == |ts|
    && (forall i :: 0 <= i < k && i < |ts| ==> ts'[i] == ts[i])
    && (forall i :: k <= i < |ts| ==> TickTimer(ts[i], delta).Ok? && ts'[i] == TickTimer(ts[i], delta).value.0)
  }

  /** When no task asks to stop, one tick of the wheel ticks every timer once and reports exactly those that fire. */
  lemma {:induction false} QuietTick(ts: seq<Timer>, k: nat, delta: nat, stops: seq<bool>)
    requires k <= |ts| == |stops| && forall i :: 0 <= i < |stops| ==> !stops[i]
    requires forall i :: k <= i < |ts| ==> TickTimer(ts[i], delta).Ok?
    ensures TickFrom(ts, k, delta, stops).Ok?
    ensures var (ts', fired, stopped) := TickFrom(ts, k, delta, stops).value;
            && !stopped && AllTicked(ts, k, delta, ts')
            && (forall i :: i in fired <==> k <= i < |ts| && TickTimer(ts[i], delta).value.1)
    decreases |ts| - k
  {
    if k < |ts| {
      QuietTick(ts[k := TickTimer(ts[k], delta).value.0], k + 1, delta, stops);
    }
  }

  function NoStops(n: nat): (r: seq<bool>)
    ensures |r| == n && forall i :: 0 <= i < n ==> !r[i]
  {
    seq(n, i => false)
  }

  /** In how many ticks timer k fired. */
  function FiredCount(fired: seq<seq<nat>>, k: nat): nat {
    if fired == [] then 0 else FiredCount(fired[..|fired| - 1], k) + (if k in fired[|fired| - 1] then 1 else 0)
  }

  /** The wheel through a number of ticks in which no task asks to stop, and the timers that fired in each. */
  ghost predicate QuietRun(wheel: seq<seq<Timer>>, fired: seq<seq<nat>>, b: nat) {
    && |wheel| == |fired| + 1
    && forall j {:trigger fired[j]} :: 0 <= j < |fired| ==>
         TickFrom(wheel[j], 0, b, NoStops(|wheel[j]|)) == Ok((wheel[j + 1], fired[j], false))
  }

  lemma {:induction false} TickedAlone(ts: seq<Timer>, b: nat, k: nat)
    requires k < |ts| && (forall i :: 0 <= i < |ts| ==> TickTimer(ts[i], b).Ok?)
    ensures TickFrom(ts, 0, b, NoStops(|ts|)).Ok?
    ensures var r := TickFrom(ts, 0, b, NoStops(|ts|)).value;
            |r.0| == |ts| && TickTimer(ts[k], b) == Ok((r.0[k], k in r.1))
  {
    QuietTick(ts, 0, b, NoStops(|ts|));
  }

  /** A wheel of fresh timers whose durations are positive multiples of the base. */
  ghost predicate Fresh(ts: seq<Timer>, b: nat) {
    b > 0 && forall i :: 0 <= i < |ts| ==> ts[i].base > 0 && ts[i].base % b == 0 && ts[i] == NewTimer(ts[i].base)
  }

  lemma {:induction false} TicksOn(t: Timer, b: nat, n: nat)
    requires b > 0 && t.base > 0 && t.base % b == 0 && t == NewTimer(t.base)
    ensures TickTimes(t, b, n).Ok? && TickTimer(TickTimes(t, b, n).value.0, b).Ok?
  {
    FiredExactly(t.base, b, n);
    FiredExactly(t.base, b, n + 1);
  }

  /** In a run of the wheel each timer behaves as if it were alone. */
  lemma {:induction false} WheelAlone(wheel: seq<seq<Timer>>, fired: seq<seq<nat>>, b: nat, k: nat)
    requires QuietRun(wheel, fired, b) && k < |wheel[0]| && Fresh(wheel[0], b)
    ensures |wheel[|fired|]| == |wheel[0]|
    ensures TickTimes(wheel[0][k], b, |fired|) == Ok((wheel[|fired|][k], FiredCount(fired, k)))
    decreases |fired|
  {
    var n := |fired| - 1;
    if fired != [] {
      var last := wheel[n];
      assert wheel[..|fired|][n] == last && wheel[..|fired|][0] == wheel[0];
      WheelAlone(wheel[..|fired|], fired[..n], b, k);
      forall i | 0 <= i < |last| ensures TickTimer(last[i], b).Ok? {
        WheelAlone(wheel[..|fired|], fired[..n], b, i);
        TicksOn(wheel[0][i], b, n);
      }
      TickedAlone(last, b, k);
      assert TickFrom(last, 0, b, NoStops(|last|)) == Ok((wheel[n + 1], fired[n], false));
    }
  }

  /** After n ticks of a wheel of base b in which no task stops it, every timer whose duration d is a positive
      multiple of b has fired n*b/d times, rounded down. */
  lemma {:induction false} WheelFires(wheel: seq<seq<Timer>>, fired: seq<seq<nat>>, b: nat, k: nat)
    requires QuietRun(wheel, fired, b) && k < |wheel[0]| && Fresh(wheel[0], b)
    ensures FiredCount(fired, k) == (|fired| * b) / wheel[0][k].base
  {
    WheelAlone(wheel, fired, b, k);
    FiredExactly(wheel[0][k].base, b, |fired|);
  }
}
