/** Decimal numerals: Rust's `to_string`, and the `parse_i64` of src/bittorrent/utils.rs. */
module Decimal {
  import opened Outcomes

  const I64_MAX := 9223372036854775807
  const I64_MIN := -9223372036854775808

  /** The text "9223372036854775807". */
  const MAX_TEXT: seq<byte> := [57, 50, 50, 51, 51, 55, 50, 48, 51, 54, 56, 53, 52, 55, 55, 53, 56, 48, 55]

  predicate IsDigit(b: byte) {
    48 <= b <= 57
  }

  predicate AllDigits(s: seq<byte>) {
    forall i :: 0 <= i < |s| ==> IsDigit(s[i])
  }

  function Pow10(k: nat): (p: nat)
    ensures p > 0
  {
    if k == 0 then 1 else 10 * Pow10(k - 1)
  }

  /** The number a string of digits denotes; the empty string denotes 0. */
  function Value(s: seq<byte>): nat
    requires AllDigits(s)
  {
    if s == [] then 0 else 10 * Value(s[..|s| - 1]) + (s[|s| - 1] - 48)
  }

  /** `to_string` of a number that is not negative. */
  function Digits(n: nat): (s: seq<byte>)
    ensures s != [] && AllDigits(s) && Value(s) == n
  {
    if n < 10 then [48 + n]
    else
      var head, last := Digits(n / 10), 48 + n % 10;
      assert (head + [last])[..|head|] == head;
      head + [last]
  }

  /** `to_string` of an integer. */
  function ToString(n: int): seq<byte> {
    if n < 0 then [45] + Digits(-n) else Digits(n)
  }

  lemma {:induction false} ValueBound(s: seq<byte>)
    requires AllDigits(s)
    ensures Value(s) < Pow10(|s|)
    decreases |s|
  {
    if s != [] {
      ValueBound(s[..|s| - 1]);
    }
  }

  lemma {:induction false} DigitsLength(n: nat, k: nat)
    requires k > 0
    ensures |Digits(n)| <= k <==> n < Pow10(k)
    decreases k
  {
    if k > 1 && n >= 10 {
      DigitsLength(n / 10, k - 1);
      assert n < 10 * Pow10(k - 1) <==> n / 10 < Pow10(k - 1);
    } else if k > 1 {
      assert Pow10(k) == 10 * Pow10(k - 1);
    } else {
      assert Pow10(1) == 10 * Pow10(0);
    }
  }

  /** With the first digit split off. */
  lemma {:induction false} ValueHead(s: seq<byte>)
    requires AllDigits(s) && s != []
    ensures Value(s) == (s[0] - 48) * Pow10(|s| - 1) + Value(s[1..])
    decreases |s|
  {
    if |s| == 1 {
      assert s[1..] == [] && s[..0] == [];
    } else {
      var t := s[..|s| - 1];
      ValueHead(t);
      assert s[1..][..|s| - 2] == t[1..];
      ShiftDigit(s[0] - 48, Pow10(|s| - 2), Value(t[1..]));
    }
  }

  lemma {:induction false} ShiftDigit(d: int, p: int, v: int)
    ensures 10 * (d * p + v) == d * (10 * p) + 10 * v
  {
  }

  // -------------------------------------------------------------- parse_i64

  /** The comparison loop with the digits of 2^63-1: it rejects a numeral whose first different digit is smaller. */
  function Rejects(limit: seq<byte>, s: seq<byte>): bool {
    if limit == [] || s == [] then false
    else if limit[0] > s[0] then true
    else if limit[0] < s[0] then false
    else Rejects(limit[1..], s[1..])
  }

  /** Between numerals of equal length the loop rejects exactly the smaller numbers. */
  lemma {:induction false} RejectsSmaller(limit: seq<byte>, s: seq<byte>)
    requires AllDigits(limit) && AllDigits(s) && |limit| == |s|
    ensures Rejects(limit, s) <==> Value(s) < Value(limit)
    decreases |s|
  {
    if s != [] {
      ValueHead(limit);
      ValueHead(s);
      ValueBound(limit[1..]);
      ValueBound(s[1..]);
      RejectsSmaller(limit[1..], s[1..]);
      DigitGap(limit[0] - 48, s[0] - 48, Pow10(|s| - 1));
    }
  }

  lemma {:induction false} DigitGap(a: int, b: int, p: int)
    requires p > 0 && -10 < a - b < 10
    ensures a > b ==> a * p >= b * p + p
    ensures a < b ==> b * p >= a * p + p
    decreases if a > b then a - b else b - a
  {
    if a > b {
      DigitGap(a - 1, b, p);
      assert a * p == (a - 1) * p + p;
    } else if a < b {
      DigitGap(a, b - 1, p);
      assert b * p == (b - 1) * p + p;
    }
  }

  /** `parse_i64` after the sign: the length test, the comparison, the sum of the digits. */
  function ParseDigits(t: seq<byte>): Outcome<int> {
    if |t| > 19 then Err
    else if |t| == 19 && Rejects(MAX_TEXT, t) then Err
    else if !AllDigits(t) then Panic
    else if Value(t) > I64_MAX then Panic
    else Ok(Value(t))
  }

  function Negate(r: Outcome<int>): Outcome<int> {
    match r
    case Ok(n) => Ok(-n)
    case _ => r
  }

  /** `parse_i64` on ASCII text. Overflow and a character that is no digit panic. */
  function ParseI64(s: seq<byte>): Outcome<int> {
    if s == [] then Panic
    else if s[0] == 45 then Negate(ParseDigits(s[1..]))
    else ParseDigits(s)
  }

  lemma {:induction false} MaxText()
    ensures AllDigits(MAX_TEXT) && Value(MAX_TEXT) == I64_MAX && Pow10(18) == 1000000000000000000
  {
    assert Pow10(6) == 1000000;
    assert Pow10(12) == 1000000000000;
    MaxPrefix(19);
    assert MAX_TEXT[..19] == MAX_TEXT;
  }

  /** The value of each prefix of the text. */
  lemma {:induction false} MaxPrefix(k: nat)
    requires k <= 19
    ensures AllDigits(MAX_TEXT[..k])
    ensures Value(MAX_TEXT[..k]) == MAX_PREFIX[k]
  {
    if k >= 1 {
      MaxPrefix(k - 1);
      PrefixStep(k);
      Append(MAX_TEXT[..k - 1], MAX_TEXT[k - 1]);
      assert MAX_TEXT[..k] == MAX_TEXT[..k - 1] + [MAX_TEXT[k - 1]];
    }
  }

  lemma {:induction false} Append(s: seq<byte>, d: byte)
    requires AllDigits(s) && IsDigit(d)
    ensures AllDigits(s + [d]) && Value(s + [d]) == 10 * Value(s) + (d - 48)
  {
    assert (s + [d])[..|s|] == s;
  }

  lemma {:induction false} PrefixStep(k: nat)
    requires 1 <= k <= 19
    ensures IsDigit(MAX_TEXT[k - 1]) && MAX_PREFIX[k] == 10 * MAX_PREFIX[k - 1] + (MAX_TEXT[k - 1] - 48)
  {
  }

  const MAX_PREFIX: seq<int> := [
    0, 9, 92, 922, 9223,
    92233, 922337, 9223372, 92233720, 922337203,
    9223372036, 92233720368, 922337203685, 9223372036854, 92233720368547,
    922337203685477, 9223372036854775, 92233720368547758, 922337203685477580, 9223372036854775807]

  /** What the digits parse to: exact up to 18 digits and at 2^63-1 itself; every other numeral
      of 19 digits fails, the smaller ones as errors and the larger ones by overflow. */
  lemma {:induction false} ParseDigitsExact(s: seq<byte>)
    requires AllDigits(s)
    ensures ParseDigits(s) ==
            if |s| < 19 || (|s| == 19 && Value(s) == I64_MAX) then Ok(Value(s))
            else if |s| == 19 && Value(s) > I64_MAX then Panic
            else Err
  {
    NumeralSize(s);
  }

  lemma {:induction false} NumeralSize(s: seq<byte>)
    requires AllDigits(s)
    ensures |s| < 19 ==> Value(s) < 1000000000000000000
    ensures |s| == 19 ==> (Rejects(MAX_TEXT, s) <==> Value(s) < I64_MAX)
  {
    MaxText();
    ValueBound(s);
    if |s| == 19 {
      RejectsSmaller(MAX_TEXT, s);
    } else if |s| < 19 {
      PowMonotone(|s|, 18);
    }
  }

  lemma {:induction false} PowMonotone(a: nat, b: nat)
    requires a <= b
    ensures Pow10(a) <= Pow10(b)
    decreases b - a
  {
    if a < b {
      PowMonotone(a + 1, b);
    }
  }

  /** The integers that survive printing and `parse_i64`. */
  predicate CanonicalInt(n: int) {
    -1000000000000000000 < n < 1000000000000000000 || n == I64_MAX || n == -I64_MAX
  }

  lemma {:induction false} DigitsCanonical(m: nat)
    requires m <= -I64_MIN
    ensures ParseDigits(Digits(m)).Ok? <==> m < 1000000000000000000 || m == I64_MAX
    ensures ParseDigits(Digits(m)).Ok? ==> ParseDigits(Digits(m)) == Ok(m)
  {
    MaxText();
    DigitsLength(m, 18);
    DigitsLength(m, 19);
    assert Pow10(19) == 10 * Pow10(18);
    ParseDigitsExact(Digits(m));
  }

  /** Among all 64-bit integers, exactly the canonical ones are parsed back from their own text. */
  lemma {:induction false} IntRoundTrip(n: int)
    requires I64_MIN <= n <= I64_MAX
    ensures CanonicalInt(n) ==> ParseI64(ToString(n)) == Ok(n)
    ensures !CanonicalInt(n) ==> !ParseI64(ToString(n)).Ok?
  {
    var m := if n < 0 then -n else n;
    DigitsCanonical(m);
    assert ([45] + Digits(m))[1..] == Digits(m);
    assert Digits(m)[0] != 45;
  }

  /** Whatever the numeral, a parsed integer is canonical: the decoder never yields another one. */
  lemma {:induction false} ParsedIsCanonical(s: seq<byte>)
    ensures ParseI64(s).Ok? ==> CanonicalInt(ParseI64(s).value)
  {
    if s != [] {
      var t := if s[0] == 45 then s[1..] else s;
      if AllDigits(t) {
        NumeralSize(t);
      }
    }
  }
}
