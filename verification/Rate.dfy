/** The sliding-window byte counter of src/bittorrent/torrent_runtime.rs. Times are nanoseconds. */
module Rates {

  const WINDOW: nat := 5_000_000_000

  /** Bytes counted at an instant. */
  type Sample = (nat, nat)

  function Sum(samples: seq<Sample>): nat {
    if samples == [] then 0 else samples[0].1 + Sum(samples[1..])
  }

  /** Total of the samples at most WINDOW old. */
  function Recent(samples: seq<Sample>, now: int): nat {
    if samples == [] then 0
    else (if now - samples[0].0 <= WINDOW then samples[0].1 else 0) + Recent(samples[1..], now)
  }

  ghost predicate Ordered(samples: seq<Sample>) {
    forall i, j :: 0 <= i < j < |samples| ==> samples[i].0 <= samples[j].0
  }

  lemma {:induction false} SumAppend(a: seq<Sample>, b: seq<Sample>)
    ensures Sum(a + b) == Sum(a) + Sum(b)
    decreases |a|
  {
    if a == [] {
      assert a + b == b;
    } else {
      assert (a + b)[1..] == a[1..] + b;
      SumAppend(a[1..], b);
    }
  }

  lemma {:induction false} RecentAppend(a: seq<Sample>, b: seq<Sample>, now: int)
    ensures Recent(a + b, now) == Recent(a, now) + Recent(b, now)
    decreases |a|
  {
    if a == [] {
      assert a + b == b;
    } else {
      assert (a + b)[1..] == a[1..] + b;
      RecentAppend(a[1..], b, now);
    }
  }

  lemma {:induction false} AllOld(a: seq<Sample>, now: int)
    requires forall i :: 0 <= i < |a| ==> now - a[i].0 > WINDOW
    ensures Recent(a, now) == 0
    decreases |a|
  {
    if a != [] {
      AllOld(a[1..], now);
    }
  }

  lemma {:induction false} AllRecent(a: seq<Sample>, now: int)
    requires forall i :: 0 <= i < |a| ==> now - a[i].0 <= WINDOW
    ensures Recent(a, now) == Sum(a)
    decreases |a|
  {
    if a != [] {
      AllRecent(a[1..], now);
    }
  }

  /** Dropping the leading old samples of an ordered history keeps exactly the recent total. */
  lemma {:induction false} WindowSum(dropped: seq<Sample>, buffer: seq<Sample>, now: int)
    requires Ordered(buffer) && (forall i :: 0 <= i < |dropped| ==> now - dropped[i].0 > WINDOW)
    requires buffer != [] ==> now - buffer[0].0 <= WINDOW
    ensures Recent(dropped + buffer, now) == Sum(buffer)
  {
    RecentAppend(dropped, buffer, now);
    AllOld(dropped, now);
    AllRecent(buffer, now);
  }

  lemma {:induction false} MoveHead(a: seq<Sample>, b: seq<Sample>)
    requires b != []
    ensures (a + [b[0]]) + b[1..] == a + b
  {
  }

  class Rate {
    var total: nat
    var buffer: seq<Sample>
    ghost var dropped: seq<Sample>
    ghost var clock: nat

    /** Every update ever made, oldest first. */
    ghost function History(): seq<Sample>
      reads this
    {
      dropped + buffer
    }

    ghost predicate Valid()
      reads this
    {
      && total == Sum(buffer)
      && Ordered(buffer)
      && (forall i :: 0 <= i < |buffer| ==> buffer[i].0 <= clock)
      && (forall i :: 0 <= i < |dropped| ==> clock - dropped[i].0 > WINDOW)
    }

    constructor ()
      ensures Valid() && buffer == [] && dropped == [] && clock == 0
    {
      total := 0;
      buffer := [];
      dropped := [];
      clock := 0;
    }

    method Prune(now: nat)
      requires Valid() && clock <= now
      modifies this
      ensures Valid() && clock == now && History() == old(History())
      ensures buffer != [] ==> now - buffer[0].0 <= WINDOW
    {
      clock := now;
      while buffer != [] && now - buffer[0].0 > WINDOW
        invariant Valid() && clock == now && History() == old(History())
        decreases |buffer|
      {
        var (_, n) := buffer[0];
        MoveHead(dropped, buffer);
        total := total - n;
        dropped := dropped + [buffer[0]];
        buffer := buffer[1..];
      }
    }

    /** The rate is the total of all updates ever made that are at most five seconds old. */
    method GetRate(now: nat) returns (r: nat)
      requires Valid() && clock <= now
      modifies this
      ensures Valid() && clock == now && History() == old(History())
      ensures r == Recent(History(), now)
    {
      Prune(now);
      WindowSum(dropped, buffer, now);
      r := total;
    }

    method Update(now: nat, n: nat)
      requires Valid() && clock <= now
      modifies this
      ensures Valid() && clock == now && History() == old(History()) + [(now, n)]
    {
      Prune(now);
      SumAppend(buffer, [(now, n)]);
      assert dropped + (buffer + [(now, n)]) == dropped + buffer + [(now, n)];
      buffer := buffer + [(now, n)];
      total := total + n;
    }
  }
}
