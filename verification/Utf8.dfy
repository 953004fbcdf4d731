/** Byte strings as Rust sees them: `String` holds valid UTF-8 (section 4 of RFC 3629), and strings
    are ordered byte by byte. */
module Utf8 {
  import opened Outcomes

  predicate Tail(b: byte) {
    0x80 <= b <= 0xBF
  }

  /** Length of the UTF-8 character s starts with; 0 when it starts with none. */
  function CharLength(s: seq<byte>): (n: nat)
    ensures n <= |s|
  {
    if s == [] then 0
    else if s[0] <= 0x7F then 1
    else if |s| < 2 then 0
    else if 0xC2 <= s[0] <= 0xDF && Tail(s[1]) then 2
    else if |s| < 3 then 0
    else if Lead3(s[0], s[1]) && Tail(s[2]) then 3
    else if |s| < 4 then 0
    else if Lead4(s[0], s[1]) && Tail(s[2]) && Tail(s[3]) then 4
    else 0
  }

  predicate Lead3(a: byte, b: byte) {
    || (a == 0xE0 && 0xA0 <= b <= 0xBF)
    || (0xE1 <= a <= 0xEC && Tail(b))
    || (a == 0xED && 0x80 <= b <= 0x9F)
    || (0xEE <= a <= 0xEF && Tail(b))
  }

  predicate Lead4(a: byte, b: byte) {
    || (a == 0xF0 && 0x90 <= b <= 0xBF)
    || (0xF1 <= a <= 0xF3 && Tail(b))
    || (a == 0xF4 && 0x80 <= b <= 0x8F)
  }

  /** s is n characters, one after the other. */
  predicate Characters(s: seq<byte>, n: nat) {
    if n == 0 then s == [] else CharLength(s) > 0 && Characters(s[CharLength(s)..], n - 1)
  }

  predicate ValidUtf8(s: seq<byte>) {
    exists n: nat :: n <= |s| && Characters(s, n)
  }

  /** A Rust `String`. */
  type Text = s: seq<byte> | ValidUtf8(s) witness (assert Characters([], 0); [])

  lemma {:induction false} AsciiValid(s: seq<byte>)
    requires forall i :: 0 <= i < |s| ==> s[i] < 0x80
    ensures Characters(s, |s|) && ValidUtf8(s)
    decreases |s|
  {
    if s != [] {
      AsciiValid(s[1..]);
    }
    assert Characters(s, |s|);
  }

  /** The bytes of a string of ASCII characters. */
  function Ascii(s: string): (r: Text)
    requires forall i :: 0 <= i < |s| ==> s[i] as int < 0x80
    ensures |r| == |s| && forall i :: 0 <= i < |s| ==> r[i] == s[i] as int
  {
    var r: seq<byte> := seq(|s|, i requires 0 <= i < |s| => s[i] as int);
    AsciiValid(r);
    r
  }

  // ------------------------------------------------------------- byte order

  /** a comes before b in the order of byte strings. */
  predicate Less(a: seq<byte>, b: seq<byte>) {
    if b == [] then false
    else if a == [] then true
    else if a[0] != b[0] then a[0] < b[0]
    else Less(a[1..], b[1..])
  }

  lemma {:induction false} LessIrreflexive(a: seq<byte>)
    ensures !Less(a, a)
  {
    if a != [] {
      LessIrreflexive(a[1..]);
    }
  }

  lemma {:induction false} LessTransitive(a: seq<byte>, b: seq<byte>, c: seq<byte>)
    requires Less(a, b) && Less(b, c)
    ensures Less(a, c)
  {
    if a != [] && a[0] == b[0] == c[0] {
      LessTransitive(a[1..], b[1..], c[1..]);
    }
  }

  lemma {:induction false} LessTotal(a: seq<byte>, b: seq<byte>)
    ensures Less(a, b) || a == b || Less(b, a)
  {
    if a != [] && b != [] && a[0] == b[0] {
      LessTotal(a[1..], b[1..]);
      assert a == [a[0]] + a[1..] && b == [b[0]] + b[1..];
    }
  }

  /** Strictly ascending in byte order. */
  ghost predicate Ascending(ks: seq<Text>) {
    forall i, j :: 0 <= i < j < |ks| ==> Less(ks[i], ks[j])
  }

  /** There is one way to put a set of keys in ascending order. */
  lemma {:induction false} AscendingUnique(a: seq<Text>, b: seq<Text>)
    requires Ascending(a) && Ascending(b)
    requires forall k :: k in a <==> k in b
    ensures a == b
    decreases |a|
  {
    assert (a != [] ==> a[0] in a) && (b != [] ==> b[0] in b);
    if a != [] && b != [] {
      FirstIsLeast(a, b);
      FirstIsLeast(b, a);
      LessTotal(a[0], b[0]);
      assert a[0] == b[0];
      forall k ensures k in a[1..] <==> k in b[1..] {
        NotInTail(a);
        NotInTail(b);
        HeadOrTail(a, k);
        HeadOrTail(b, k);
      }
      AscendingUnique(a[1..], b[1..]);
    }
  }

  lemma {:induction false} FirstIsLeast(a: seq<Text>, b: seq<Text>)
    requires Ascending(a) && a != [] && b != [] && b[0] in a
    ensures !Less(b[0], a[0])
  {
    if Less(b[0], a[0]) {
      var j :| 0 <= j < |a| && a[j] == b[0];
      if j > 0 {
        LessTransitive(a[0], a[j], a[0]);
      }
      LessIrreflexive(a[0]);
    }
  }

  lemma {:induction false} HeadOrTail(a: seq<Text>, k: seq<byte>)
    requires a != []
    ensures k in a <==> k == a[0] || k in a[1..]
  {
    assert a == [a[0]] + a[1..];
  }

  lemma {:induction false} NotInTail(a: seq<Text>)
    requires Ascending(a) && a != []
    ensures a[0] !in a[1..]
  {
    if a[0] in a[1..] {
      var j :| 0 <= j < |a[1..]| && a[1..][j] == a[0];
      assert Less(a[0], a[j + 1]);
      LessIrreflexive(a[0]);
    }
  }

  /** Adding a key to an ascending list, before the first larger key (a `BTreeMap` insertion). */
  function AddKey(ks: seq<Text>, k: Text): seq<Text> {
    if ks == [] || Less(k, ks[0]) then [k] + ks else [ks[0]] + AddKey(ks[1..], k)
  }

  lemma {:induction false} AddKeyElements(ks: seq<Text>, k: Text)
    ensures forall x :: x in AddKey(ks, k) <==> x == k || x in ks
    decreases |ks|
  {
    if ks != [] && !Less(k, ks[0]) {
      AddKeyElements(ks[1..], k);
      assert ks == [ks[0]] + ks[1..];
    }
  }

  lemma {:induction false} AddKeyAscending(ks: seq<Text>, k: Text)
    requires Ascending(ks) && k !in ks
    ensures Ascending(AddKey(ks, k))
    decreases |ks|
  {
    if ks == [] {
    } else if Less(k, ks[0]) {
      forall j | 0 <= j < |ks| ensures Less(k, ks[j]) {
        if j > 0 {
          LessTransitive(k, ks[0], ks[j]);
        }
      }
    } else {
      LessTotal(k, ks[0]);
      var tail := AddKey(ks[1..], k);
      AddKeyAscending(ks[1..], k);
      AddKeyElements(ks[1..], k);
      forall j | 0 <= j < |tail| ensures Less(ks[0], tail[j]) {
        assert tail[j] in tail;
        if tail[j] != k {
          var m :| 0 <= m < |ks[1..]| && ks[1..][m] == tail[j];
          assert ks[m + 1] == tail[j];
        }
      }
    }
  }

  /** The keys of a set in ascending byte order. */
  ghost function SortedKeys(s: set<Text>): (ks: seq<Text>)
    ensures Ascending(ks) && forall k :: k in ks <==> k in s
    decreases s
  {
    if s == {} then []
    else
      var k :| k in s;
      var rest := SortedKeys(s - {k});
      AddKeyAscending(rest, k);
      AddKeyElements(rest, k);
      AddKey(rest, k)
  }
}
