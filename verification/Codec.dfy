/** The loops of src/bittorrent/bencoder.rs, bedecoder.rs and utils.rs, each proved to compute the
    function of Bencode or Decimal that specifies it. */
module Codec {
  import opened Outcomes
  import opened Utf8
  import opened Decimal
  import opened Bencode

  // ----------------------------------------------------------------- encoder

  method EncodeValue(b: BencodeT) returns (r: seq<byte>)
    ensures r == Encode(b)
    decreases b, 1
  {
    match b
    case Str(s) => r := EncodeBString(s);
    case Integer(n) => r := EncodeInt(n);
    case Dictionary(m) => r := EncodeDic(m);
    case List(items) => r := EncodeList(items);
    case ByteString(s) => r := EncodeBString(s);
  }

  method EncodeBString(s: seq<byte>) returns (vec: seq<byte>)
    ensures vec == EncodeBytes(s)
  {
    vec := Digits(|s|);
    vec := vec + [COLON];
    vec := vec + s;
  }

  /** Collects the keys of the hash map, met in any order, into ascending order. */
  method CollectOrdered(hm: map<Text, BencodeT>) returns (ordered: seq<Text>)
    ensures ordered == SortedKeys(hm.Keys)
  {
    ordered := [];
    var todo := hm.Keys;
    while todo != {}
      invariant todo <= hm.Keys && Ascending(ordered)
      invariant forall k :: k in ordered <==> k in hm.Keys - todo
      decreases todo
    {
      var k :| k in todo;
      AddKeyAscending(ordered, k);
      AddKeyElements(ordered, k);
      ordered := AddKey(ordered, k);
      todo := todo - {k};
    }
    AscendingUnique(ordered, SortedKeys(hm.Keys));
  }

  /** The output does not depend on the order in which the hash map is walked. */
  method EncodeDic(hm: map<Text, BencodeT>) returns (vec: seq<byte>)
    ensures vec == Encode(Dictionary(hm))
    decreases Dictionary(hm), 0
  {
    ghost var d := Dictionary(hm);
    vec := [DICT_MARK];
    var ordered := CollectOrdered(hm);
    var i := 0;
    assert ordered[0..] == ordered;
    while i < |ordered|
      invariant 0 <= i <= |ordered|
      invariant forall k :: k in ordered ==> k in hm
      invariant vec + EncodeEntries(d, ordered[i..]) == [DICT_MARK] + EncodeEntries(d, ordered)
    {
      var key := ordered[i];
      assert key in ordered;
      var k := EncodeBString(key);
      var v := EncodeValue(hm[key]);
      assert ordered[i..][1..] == ordered[i + 1..];
      Shift3(vec, k, v, EncodeEntries(d, ordered[i + 1..]));
      vec := vec + k;
      vec := vec + v;
      i := i + 1;
    }
    assert vec + [] == vec;
    vec := vec + [END_MARK];
  }

  lemma {:induction false} Shift3(vec: seq<byte>, a: seq<byte>, b: seq<byte>, rest: seq<byte>)
    ensures vec + (a + b + rest) == vec + a + b + rest
  {
  }

  method EncodeList(list: seq<BencodeT>) returns (vec: seq<byte>)
    ensures vec == Encode(List(list))
    decreases List(list), 0
  {
    vec := [LIST_MARK];
    var i := 0;
    assert list[0..] == list;
    while i < |list|
      invariant 0 <= i <= |list|
      invariant vec + EncodeItems(list[i..]) == [LIST_MARK] + EncodeItems(list)
    {
      var e := EncodeValue(list[i]);
      assert list[i..][1..] == list[i + 1..];
      Shift3(vec, e, [], EncodeItems(list[i + 1..]));
      assert e + [] == e;
      vec := vec + e;
      i := i + 1;
    }
    assert vec + [] == vec;
    vec := vec + [END_MARK];
  }

  // --------------------------------------------------------------- parse_i64

  /** The digit loop, right to left; the running total panics when it leaves 64 bits. */
  method SumDigits(t: seq<byte>) returns (r: Outcome<int>)
    requires |t| <= 19
    ensures r == if !AllDigits(t) || Value(t) > I64_MAX then Panic else Ok(Value(t))
  {
    var total: int := 0;
    var power := 1;
    var i := 0;
    assert t[|t|..] == [];
    while i < |t|
      invariant 0 <= i <= |t| && AllDigits(t[|t| - i..])
      invariant total == Value(t[|t| - i..]) <= I64_MAX && power == Pow10(i)
    {
      var item := t[|t| - 1 - i];
      if !IsDigit(item) {
        return Panic;
      }
      ghost var suffix := t[|t| - 1 - i..];
      assert suffix[1..] == t[|t| - i..];
      ValueHead(suffix);
      total := (item - 48) * power + total;
      if total > I64_MAX {
        LargeSuffix(t, |t| - 1 - i);
        return Panic;
      }
      power := 10 * power;
      i := i + 1;
    }
    assert t[0..] == t;
    return Ok(total);
  }

  lemma {:induction false} NotNegative(a: nat, b: nat)
    ensures a * b >= 0
  {
  }

  lemma {:induction false} LargeSuffix(t: seq<byte>, k: nat)
    requires k <= |t| && AllDigits(t[k..]) && Value(t[k..]) > I64_MAX
    ensures AllDigits(t) ==> Value(t) > I64_MAX
    decreases k
  {
    if AllDigits(t) && k > 0 {
      ValueHead(t);
      assert t[1..][k - 1..] == t[k..];
      LargeSuffix(t[1..], k - 1);
      NotNegative(t[0] - 48, Pow10(|t| - 1));
    } else if k == 0 {
      assert t[0..] == t;
    }
  }

  method ParseInteger(instring: seq<byte>) returns (r: Outcome<int>)
    ensures r == ParseI64(instring)
  {
    if instring == [] {
      return Panic;
    }
    var text := instring;
    var negative := false;
    if text[0] == MINUS {
      text := text[1..];
      negative := true;
    }
    if |text| > 19 {
      return Err;
    } else if |text| == 19 {
      var i := 0;
      assert MAX_TEXT[0..] == MAX_TEXT && text[0..] == text;
      while i < 19
        invariant 0 <= i <= 19
        invariant Rejects(MAX_TEXT, text) == Rejects(MAX_TEXT[i..], text[i..])
      {
        if MAX_TEXT[i] > text[i] {
          return Err;
        }
        if MAX_TEXT[i] < text[i] {
          break;
        }
        assert MAX_TEXT[i..][1..] == MAX_TEXT[i + 1..] && text[i..][1..] == text[i + 1..];
        i := i + 1;
      }
    }
    r := SumDigits(text);
    if negative {
      r := Negate(r);
    }
  }

  // ----------------------------------------------------------------- decoder

  /** A value and the cursor after it: the same outcome as the specification's value and rest. */
  ghost predicate Agrees<T>(s: seq<byte>, i: nat, r: Outcome<(T, nat)>, d: Outcome<(T, seq<byte>)>) {
    match r
    case Ok((v, j)) => d.Ok? && i < j <= |s| && d.value.0 == v && d.value.1 == s[j..]
    case Err => d == Err
    case Panic => d == Panic
  }

  /** `_parse`: the value at cursor i. */
  method ParseAt(inbytes: seq<byte>, i: nat) returns (r: Outcome<(BencodeT, nat)>)
    requires i <= |inbytes|
    ensures Agrees(inbytes, i, r, Decode(inbytes[i..]))
    decreases |inbytes| - i, 1
  {
    if i == |inbytes| {
      return Panic;
    }
    var c := inbytes[i];
    assert inbytes[i..][1..] == inbytes[i + 1..];
    if c == INT_MARK {
      r := ParseInt(inbytes, i + 1);
    } else if c == LIST_MARK {
      r := ParseList(inbytes, i + 1);
    } else if c == DICT_MARK {
      r := ParseDic(inbytes, i + 1);
    } else if IsDigit(c) {
      r := ParseStr(inbytes, i);
    } else {
      return Err;
    }
  }

  method ParseInt(inbytes: seq<byte>, i: nat) returns (r: Outcome<(BencodeT, nat)>)
    requires i <= |inbytes|
    ensures Agrees(inbytes, i, r, DecodeInt(inbytes[i..]))
    decreases |inbytes| - i, 0
  {
    var j := i;
    while true
      invariant i <= j <= |inbytes|
      invariant IntEnd(inbytes[i..], 0) == IntEnd(inbytes[i..], j - i)
      decreases |inbytes| - j
    {
      if j >= |inbytes| {
        return Err;
      }
      if inbytes[j] == END_MARK {
        if j == i {
          return Err;
        }
        break;
      }
      var allowed := (inbytes[j] == MINUS && j == i) || IsDigit(inbytes[j]);
      if !allowed {
        return Err;
      }
      j := j + 1;
    }
    assert inbytes[i..][..j - i] == inbytes[i..j];
    var parsed := ParseInteger(inbytes[i..j]);
    match parsed
    case Ok(n) => return Ok((Integer(n), j + 1));
    case _ => return Panic;
  }

  /** Items already parsed, followed by the outcome for the rest of the list. */
  ghost function WithItems(vec: seq<BencodeT>, d: Outcome<(seq<BencodeT>, seq<byte>)>)
    : Outcome<(seq<BencodeT>, seq<byte>)>
  {
    match d
    case Ok((items, rest)) => Ok((vec + items, rest))
    case _ => d
  }

  /** An item in front of the outcome for the rest of the list. */
  ghost function ConsItem(b: BencodeT, d: Outcome<(seq<BencodeT>, seq<byte>)>): Outcome<(seq<BencodeT>, seq<byte>)> {
    match d
    case Ok((items, rest)) => Ok(([b] + items, rest))
    case _ => d
  }

  lemma {:induction false} ConsWithItems(vec: seq<BencodeT>, b: BencodeT, d: Outcome<(seq<BencodeT>, seq<byte>)>)
    ensures WithItems(vec, ConsItem(b, d)) == WithItems(vec + [b], d)
  {
    if d.Ok? {
      assert vec + ([b] + d.value.0) == vec + [b] + d.value.0;
    }
  }

  lemma {:induction false} DecodeItemsStep(s: seq<byte>)
    requires s != [] && s[0] != END_MARK
    ensures DecodeItems(s) ==
            match Decode(s)
            case Ok((b, s1)) => ConsItem(b, DecodeItems(s1))
            case Err => Err
            case Panic => Panic
  {
  }

  lemma {:induction false} ItemStep(s: seq<byte>, vec: seq<BencodeT>)
    requires s != [] && s[0] != END_MARK
    ensures WithItems(vec, DecodeItems(s)) ==
            match Decode(s)
            case Ok((b, s1)) => WithItems(vec + [b], DecodeItems(s1))
            case Err => Err
            case Panic => Panic
  {
    DecodeItemsStep(s);
    match Decode(s)
    case Ok((b, s1)) => ConsWithItems(vec, b, DecodeItems(s1));
    case _ =>
  }

  method ParseList(inbytes: seq<byte>, i: nat) returns (r: Outcome<(BencodeT, nat)>)
    requires i <= |inbytes|
    ensures match DecodeItems(inbytes[i..])
            case Ok((items, rest)) => Agrees(inbytes, i, r, Ok((List(items), rest)))
            case Err => r == Err
            case Panic => r == Panic
    decreases |inbytes| - i, 2
  {
    var j := i;
    var vec: seq<BencodeT> := [];
    ghost var all := DecodeItems(inbytes[i..]);
    assert all.Ok? ==> [] + all.value.0 == all.value.0;
    while true
      invariant i <= j <= |inbytes|
      invariant all == WithItems(vec, DecodeItems(inbytes[j..]))
      decreases |inbytes| - j
    {
      if j >= |inbytes| {
        return Err;
      }
      if inbytes[j] == END_MARK {
        break;
      }
      ItemStep(inbytes[j..], vec);
      var p := ParseAt(inbytes, j);
      match p {
        case Ok((bt, newj)) =>
          j := newj;
          vec := vec + [bt];
        case Err => return Err;
        case Panic => return Panic;
      }
    }
    assert inbytes[j..][1..] == inbytes[j + 1..] && vec + [] == vec;
    return Ok((List(vec), j + 1));
  }

  /** Entries already parsed, overridden by the entries of the rest of the dictionary. */
  ghost function WithEntries(hm: map<Text, BencodeT>, d: Outcome<(map<Text, BencodeT>, seq<byte>)>)
    : Outcome<(map<Text, BencodeT>, seq<byte>)>
  {
    match d
    case Ok((m, rest)) => Ok((hm + m, rest))
    case _ => d
  }

  lemma {:induction false} OverrideTwice(hm: map<Text, BencodeT>, key: Text, v: BencodeT, m: map<Text, BencodeT>)
    ensures hm + (map[key := v] + m) == hm[key := v] + m
  {
  }

  lemma {:induction false} EntryStep(s: seq<byte>, hm: map<Text, BencodeT>, key: Text, s1: seq<byte>)
    requires s != [] && s[0] != END_MARK && Decode(s) == Ok((Str(key), s1))
    ensures WithEntries(hm, DecodeEntries(s)) ==
            match Decode(s1)
            case Ok((v, s2)) => WithEntries(hm[key := v], DecodeEntries(s2))
            case Err => Err
            case Panic => Panic
  {
    match Decode(s1)
    case Ok((v, s2)) =>
      if DecodeEntries(s2).Ok? {
        OverrideTwice(hm, key, v, DecodeEntries(s2).value.0);
      }
    case _ =>
  }

  method ParseDic(inbytes: seq<byte>, i: nat) returns (r: Outcome<(BencodeT, nat)>)
    requires i <= |inbytes|
    ensures match DecodeEntries(inbytes[i..])
            case Ok((m, rest)) => Agrees(inbytes, i, r, Ok((Dictionary(m), rest)))
            case Err => r == Err
            case Panic => r == Panic
    decreases |inbytes| - i, 2
  {
    var j := i;
    var hm: map<Text, BencodeT> := map[];
    ghost var all := DecodeEntries(inbytes[i..]);
    assert all.Ok? ==> map[] + all.value.0 == all.value.0;
    while true
      invariant i <= j <= |inbytes|
      invariant all == WithEntries(hm, DecodeEntries(inbytes[j..]))
      decreases |inbytes| - j
    {
      if j >= |inbytes| {
        return Err;
      }
      if inbytes[j] == END_MARK {
        break;
      }
      var p := ParseAt(inbytes, j);
      if p.Panic? {
        return Panic;
      }
      if !p.Ok? || !p.value.0.Str? {
        return Err;
      }
      var (b1, j2) := p.value;
      EntryStep(inbytes[j..], hm, b1.text, inbytes[j2..]);
      var q := ParseAt(inbytes, j2);
      match q {
        case Ok((value, j3)) =>
          j := j3;
          hm := hm[b1.text := value];
        case Err => return Err;
        case Panic => return Panic;
      }
    }
    assert inbytes[j..][1..] == inbytes[j + 1..] && hm + map[] == hm;
    return Ok((Dictionary(hm), j + 1));
  }

  method ParseStr(inbytes: seq<byte>, i: nat) returns (r: Outcome<(BencodeT, nat)>)
    requires i < |inbytes|
    ensures Agrees(inbytes, i, r, DecodeStr(inbytes[i..]))
    decreases |inbytes| - i, 0
  {
    var j := i;
    while true
      invariant i <= j <= |inbytes|
      invariant forall k :: i <= k < j ==> IsDigit(inbytes[k])
      decreases |inbytes| - j
    {
      if j == |inbytes| {
        DigitsRunOff(inbytes[i..]);
        return Panic;
      }
      if !IsDigit(inbytes[j]) {
        break;
      }
      j := j + 1;
    }
    ghost var s := inbytes[i..];
    DigitsStop(s, j - i);
    if inbytes[j] != COLON {
      return Err;
    }
    assert s[..j - i] == inbytes[i..j];
    if j == i || Value(inbytes[i..j]) >= USIZE_LIMIT {
      return Panic;
    }
    var l := Value(inbytes[i..j]);
    j := j + 1;
    if |inbytes| < j + l {
      return Panic;
    }
    assert s[j - i..j - i + l] == inbytes[j..j + l] && s[j - i + l..] == inbytes[j + l..];
    return Ok((FromBytes(inbytes[j..j + l]), j + l));
  }

  lemma {:induction false} DigitsRunOff(s: seq<byte>)
    requires AllDigits(s)
    ensures DigitEnd(s) == Panic
    decreases |s|
  {
    if s != [] {
      DigitsRunOff(s[1..]);
    }
  }

  lemma {:induction false} DigitsStop(s: seq<byte>, j: nat)
    requires j < |s| && AllDigits(s[..j]) && !IsDigit(s[j])
    ensures DigitEnd(s) == Ok(j)
    decreases j
  {
    if j > 0 {
      assert s[0] == s[..j][0] && s[1..][..j - 1] == s[..j][1..];
      DigitsStop(s[1..], j - 1);
    }
  }

  /** `parse`: the first value of the buffer. */
  method ParseBuffer(inbytes: seq<byte>) returns (r: Outcome<BencodeT>)
    ensures r == Parse(inbytes)
  {
    assert inbytes[0..] == inbytes;
    var p := ParseAt(inbytes, 0);
    match p
    case Ok((b, _)) => return Ok(b);
    case Err => return Err;
    case Panic => return Panic;
  }
}
