/** Marker lists of a piece (src/bittorrent/torrent.rs): a sorted list of Begin/End
    marks that stands for the set of bytes of the piece already downloaded. */
module Markers {
  datatype Marker = Begin(val: nat) | End(val: nat)

  /** Neighbouring marks are of different kinds. */
  ghost predicate Alternating(ms: seq<Marker>) {
    forall i, j :: 0 <= i < |ms| && 0 <= j < |ms| && j == i + 1 ==> (ms[i].Begin? <==> ms[j].End?)
  }

  ghost predicate Increasing(ms: seq<Marker>) {
    forall i, j :: 0 <= i < j < |ms| ==> ms[i].val < ms[j].val
  }

  /** Begin and End alternate, starting with Begin and ending with End, at strictly growing offsets. */
  ghost predicate Normal(ms: seq<Marker>) {
    && (ms != [] ==> ms[0].Begin? && ms[|ms| - 1].End?)
    && Alternating(ms)
    && Increasing(ms)
  }

  /** Byte x lies in one of the half-open intervals of the list. */
  ghost predicate Covers(ms: seq<Marker>, x: int) {
    exists k, m :: 0 <= k < |ms| && 0 <= m < |ms| && m == k + 1
                   && ms[k].Begin? && ms[k].val <= x < ms[m].val
  }

  /** The number of leading markers below x; on a sorted list, of all markers below x. */
  function Below(ms: seq<Marker>, x: int): (p: nat)
    ensures p <= |ms|
    ensures forall i :: 0 <= i < p ==> ms[i].val < x
    ensures p < |ms| ==> x <= ms[p].val
  {
    if ms == [] || x <= ms[0].val then 0 else 1 + Below(ms[1..], x)
  }

  /** Place p separates the marks below x from the others. */
  ghost predicate Splits(ms: seq<Marker>, x: int, p: nat) {
    && p <= |ms|
    && (p > 0 ==> ms[p - 1].val < x)
    && (p < |ms| ==> x <= ms[p].val)
  }

  lemma {:induction false} BelowUnique(ms: seq<Marker>, x: int, p: nat)
    requires Increasing(ms) && Splits(ms, x, p)
    ensures Below(ms, x) == p
  {
  }

  lemma {:induction false} BelowMonotone(ms: seq<Marker>, x: int, y: int)
    requires Increasing(ms) && x <= y
    ensures Below(ms, x) <= Below(ms, y)
  {
  }

  /** An interval is open after the first p marks. */
  predicate Open(ms: seq<Marker>, p: nat)
    requires p <= |ms|
  {
    p > 0 && ms[p - 1].Begin?
  }

  /** A byte is held exactly when the last mark at or before it is a Begin. */
  lemma {:induction false} CoversOpen(ms: seq<Marker>, x: int, p: nat)
    requires Normal(ms) && Splits(ms, x + 1, p)
    ensures Covers(ms, x) <==> Open(ms, p)
  {
    if Open(ms, p) {
      assert ms[p - 1].val <= x < ms[p].val;
    }
    if Covers(ms, x) {
      var k, m :| 0 <= k < |ms| && 0 <= m < |ms| && m == k + 1 && ms[k].Begin? && ms[k].val <= x < ms[m].val;
      BelowUnique(ms, x + 1, m);
      BelowUnique(ms, x + 1, p);
    }
  }

  // ---------------------------------------------------------------- insertion

  /** The list after byte range [begin, end) has been received: the marks before it, the marks
      after it, and between them its own ends unless they fall inside (or touch) a held range. */
  function Inserted(ms: seq<Marker>, begin: nat, end: nat): seq<Marker> {
    var p, q := Below(ms, begin), Below(ms, end + 1);
    Left(ms, p, begin) + Right(ms, q, end)
  }

  function Left(ms: seq<Marker>, p: nat, begin: nat): seq<Marker>
    requires p <= |ms|
  {
    if Open(ms, p) then ms[..p] else ms[..p] + [Begin(begin)]
  }

  function Right(ms: seq<Marker>, q: nat, end: nat): seq<Marker>
    requires q <= |ms|
  {
    if Open(ms, q) then ms[q..] else [End(end)] + ms[q..]
  }

  lemma {:induction false} Join(a: seq<Marker>, b: seq<Marker>)
    requires a != [] && a[0].Begin? && a[|a| - 1].Begin? && Alternating(a) && Increasing(a)
    requires b != [] && b[0].End? && b[|b| - 1].End? && Alternating(b) && Increasing(b)
    requires a[|a| - 1].val < b[0].val
    ensures Normal(a + b)
  {
    forall i, j | 0 <= i < |a| && 0 <= j < |b| ensures a[i].val < b[j].val {
      assert a[i].val <= a[|a| - 1].val && b[0].val <= b[j].val;
    }
  }

  lemma {:induction false} LeftShape(ms: seq<Marker>, begin: nat)
    requires Normal(ms)
    ensures var a := Left(ms, Below(ms, begin), begin);
            a != [] && a[0].Begin? && a[|a| - 1].Begin? && Alternating(a) && Increasing(a) && a[|a| - 1].val <= begin
  {
    var p := Below(ms, begin);
    if p > 0 {
      assert ms[p - 1].val < begin;
    }
  }

  lemma {:induction false} RightShape(ms: seq<Marker>, end: nat)
    requires Normal(ms)
    ensures var b := Right(ms, Below(ms, end + 1), end);
            b != [] && b[0].End? && b[|b| - 1].End? && Alternating(b) && Increasing(b) && end <= b[0].val
  {
    var q := Below(ms, end + 1);
    var t := ms[q..];
    assert t != [] ==> t[0] == ms[q] && t[|t| - 1] == ms[|ms| - 1];
    if 0 < q < |ms| {
      assert ms[q - 1].Begin? <==> ms[q].End?;
    }
    assert Alternating(t) && Increasing(t);
    assert Open(ms, q) ==> t != [];
  }

  /** Inserting a block keeps the list well formed. */
  lemma {:induction false} InsertedNormal(ms: seq<Marker>, begin: nat, end: nat)
    requires Normal(ms) && begin < end
    ensures Normal(Inserted(ms, begin, end))
  {
    LeftShape(ms, begin);
    RightShape(ms, end);
    Join(Left(ms, Below(ms, begin), begin), Right(ms, Below(ms, end + 1), end));
  }

  /** In a joined list, offsets before the second part are judged by the first part alone. */
  lemma {:induction false} JoinLeft(a: seq<Marker>, b: seq<Marker>, x: int, r: nat)
    requires a != [] && (b != [] ==> x < b[0].val) && Splits(a, x + 1, r)
    ensures Splits(a + b, x + 1, r) && Open(a + b, r) == Open(a, r)
  {
  }

  lemma {:induction false} JoinRight(a: seq<Marker>, b: seq<Marker>, x: int, s: nat)
    requires a != [] && b != [] && s > 0 && Splits(b, x + 1, s)
    ensures Splits(a + b, x + 1, |a| + s) && Open(a + b, |a| + s) == Open(b, s)
  {
  }

  lemma {:induction false} LeftSplits(ms: seq<Marker>, begin: nat, p: nat, x: int, r: nat)
    requires Increasing(ms) && Splits(ms, begin, p) && Splits(ms, x + 1, r)
    ensures var a := Left(ms, p, begin);
            if x < begin then r <= p && Splits(a, x + 1, r) && Open(a, r) == Open(ms, r)
            else Splits(a, x + 1, |a|) && Open(a, |a|)
  {
  }

  lemma {:induction false} RightSplits(ms: seq<Marker>, end: nat, q: nat, x: int, r: nat)
    requires Normal(ms) && end <= x && Splits(ms, end + 1, q) && Splits(ms, x + 1, r)
    ensures q <= r && Splits(Right(ms, q, end), x + 1, RightPlace(ms, q, r))
  {
    BelowMonotone(ms, end + 1, x + 1);
    BelowUnique(ms, end + 1, q);
    BelowUnique(ms, x + 1, r);
  }

  lemma {:induction false} RightOpen(ms: seq<Marker>, end: nat, q: nat, x: int, r: nat)
    requires Normal(ms) && q <= r && Splits(ms, end + 1, q) && Splits(ms, x + 1, r)
    ensures 0 <= RightPlace(ms, q, r) <= |Right(ms, q, end)|
    ensures RightPlace(ms, q, r) == 0 ==> Open(ms, r)
    ensures RightPlace(ms, q, r) > 0 ==> Open(Right(ms, q, end), RightPlace(ms, q, r)) == Open(ms, r)
  {
    var b, s := Right(ms, q, end), RightPlace(ms, q, r);
    if r > q {
      assert b[s - 1] == ms[r - 1];
    }
  }

  /** The place in `Right` that corresponds to place r of the old list. */
  function RightPlace(ms: seq<Marker>, q: nat, r: nat): int
    requires q <= |ms|
  {
    if Open(ms, q) then r - q else r - q + 1
  }

  lemma {:induction false} InsertedCoversBefore(ms: seq<Marker>, begin: nat, end: nat, x: int)
    requires Normal(ms) && begin < end && x < end
    ensures Covers(Inserted(ms, begin, end), x) <==> Covers(ms, x) || begin <= x
  {
    var p, r := Below(ms, begin), Below(ms, x + 1);
    var a, b := Left(ms, p, begin), Right(ms, Below(ms, end + 1), end);
    LeftShape(ms, begin);
    RightShape(ms, end);
    InsertedNormal(ms, begin, end);
    CoversOpen(ms, x, r);
    LeftSplits(ms, begin, p, x, r);
    JoinLeft(a, b, x, if x < begin then r else |a|);
    CoversOpen(a + b, x, if x < begin then r else |a|);
  }

  /** Joining a left part that ends open: x is judged by the right part, or held when nothing of it comes before x. */
  lemma {:induction false} JoinCovers(a: seq<Marker>, b: seq<Marker>, x: int, s: nat)
    requires Normal(a + b) && a != [] && b != [] && Splits(b, x + 1, s) && Splits(a, x + 1, |a|) && Open(a, |a|)
    ensures Covers(a + b, x) <==> s == 0 || Open(b, s)
  {
    if s == 0 {
      JoinLeft(a, b, x, |a|);
      CoversOpen(a + b, x, |a|);
    } else {
      JoinRight(a, b, x, s);
      CoversOpen(a + b, x, |a| + s);
    }
  }

  lemma {:induction false} InsertedCoversAfter(ms: seq<Marker>, begin: nat, end: nat, x: int)
    requires Normal(ms) && begin < end && end <= x
    ensures Covers(Inserted(ms, begin, end), x) <==> Covers(ms, x)
  {
    var p, q, r := Below(ms, begin), Below(ms, end + 1), Below(ms, x + 1);
    var a, b := Left(ms, p, begin), Right(ms, q, end);
    LeftShape(ms, begin);
    RightShape(ms, end);
    InsertedNormal(ms, begin, end);
    CoversOpen(ms, x, r);
    LeftSplits(ms, begin, p, x, r);
    RightSplits(ms, end, q, x, r);
    RightOpen(ms, end, q, x, r);
    JoinCovers(a, b, x, RightPlace(ms, q, r));
  }

  /** Inserting [begin, end) adds exactly the bytes begin..end-1 to the held set. */
  lemma {:induction false} InsertedCovers(ms: seq<Marker>, begin: nat, end: nat, x: int)
    requires Normal(ms) && begin < end
    ensures Covers(Inserted(ms, begin, end), x) <==> Covers(ms, x) || begin <= x < end
  {
    if x < end {
      InsertedCoversBefore(ms, begin, end, x);
    } else {
      InsertedCoversAfter(ms, begin, end, x);
    }
  }

  // ---------------------------------------------------------- canonical form

  /** A mark sits exactly where the held set changes. */
  lemma {:induction false} MarkAtChange(ms: seq<Marker>, v: nat)
    requires Normal(ms)
    ensures (exists i :: 0 <= i < |ms| && ms[i].val == v) <==> (Covers(ms, v) != Covers(ms, v - 1))
  {
    var p, q := Below(ms, v), Below(ms, v + 1);
    CoversOpen(ms, v - 1, p);
    CoversOpen(ms, v, q);
    BelowMonotone(ms, v, v + 1);
    if exists i :: 0 <= i < |ms| && ms[i].val == v {
      var i :| 0 <= i < |ms| && ms[i].val == v;
      BelowUnique(ms, v, i);
      BelowUnique(ms, v + 1, i + 1);
    }
  }

  lemma {:induction false} SameMarks(ms: seq<Marker>, ns: seq<Marker>, i: nat)
    requires Normal(ms) && Normal(ns) && i <= |ms| && i <= |ns|
    requires forall x :: Covers(ms, x) <==> Covers(ns, x)
    requires ms[..i] == ns[..i]
    ensures ms == ns
    decreases |ms| - i
  {
    if i < |ms| {
      MarkIn(ms, ns, i);
      if i < |ns| {
        MarkIn(ns, ms, i);
      }
      SameKind(ms, ns, i);
      SameMarks(ms, ns, i + 1);
    } else if i < |ns| {
      MarkIn(ns, ms, i);
    }
  }

  /** When the first i marks agree, the i-th mark of ms also stands in ns, at place i or later. */
  lemma {:induction false} MarkIn(ms: seq<Marker>, ns: seq<Marker>, i: nat)
    requires Normal(ms) && Normal(ns) && i < |ms| && i <= |ns|
    requires forall x :: Covers(ms, x) <==> Covers(ns, x)
    requires ms[..i] == ns[..i]
    ensures i < |ns| && ns[i].val <= ms[i].val
  {
    MarkAtChange(ms, ms[i].val);
    MarkAtChange(ns, ms[i].val);
    var j :| 0 <= j < |ns| && ns[j].val == ms[i].val;
    forall k | 0 <= k < i ensures ns[k] == ms[k] {
      assert ms[..i][k] == ns[..i][k];
    }
  }

  lemma {:induction false} SameKind(ms: seq<Marker>, ns: seq<Marker>, i: nat)
    requires Normal(ms) && Normal(ns) && i < |ms| && i < |ns|
    requires ms[..i] == ns[..i] && ms[i].val == ns[i].val
    ensures ms[..i + 1] == ns[..i + 1]
  {
    if i > 0 {
      assert ms[..i][i - 1] == ns[..i][i - 1];
      assert ms[i - 1].Begin? <==> ms[i].End?;
      assert ns[i - 1].Begin? <==> ns[i].End?;
    }
    assert ms[..i + 1] == ms[..i] + [ms[i]];
    assert ns[..i + 1] == ns[..i] + [ns[i]];
  }

  /** Two well-formed lists for the same bytes are the same list. */
  lemma {:induction false} Canonical(ms: seq<Marker>, ns: seq<Marker>)
    requires Normal(ms) && Normal(ns)
    requires forall x :: Covers(ms, x) <==> Covers(ns, x)
    ensures ms == ns
  {
    SameMarks(ms, ns, 0);
  }
}
