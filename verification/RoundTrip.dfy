/** Printing and parsing bencoded values undo each other, exactly where they do. */
module RoundTrip {
  import opened Outcomes
  import opened Utf8
  import opened Decimal
  import opened Bencode

  /** Integers fit 64 bits, and so do the lengths of strings. */
  ghost predicate Fits(b: BencodeT)
    decreases b
  {
    match b
    case Str(s) => |s| < USIZE_LIMIT
    case ByteString(s) => |s| < USIZE_LIMIT
    case Integer(n) => I64_MIN <= n <= I64_MAX
    case List(items) => forall i :: 0 <= i < |items| ==> Fits(items[i])
    case Dictionary(m) => forall k :: k in m ==> |k| < USIZE_LIMIT && Fits(m[k])
  }

  /** Every integer inside is one `parse_i64` can read. */
  ghost predicate IntsCanonical(b: BencodeT)
    decreases b
  {
    match b
    case Str(_) => true
    case ByteString(_) => true
    case Integer(n) => CanonicalInt(n)
    case List(items) => forall i :: 0 <= i < |items| ==> IntsCanonical(items[i])
    case Dictionary(m) => forall k :: k in m ==> IntsCanonical(m[k])
  }

  /** Raw bytes that happen to be valid UTF-8 turned into text. */
  ghost function Norm(b: BencodeT): BencodeT
    decreases b
  {
    match b
    case Str(_) => b
    case ByteString(s) => FromBytes(s)
    case Integer(_) => b
    case List(items) => List(NormItems(items))
    case Dictionary(m) => Dictionary(map k | k in m :: Norm(m[k]))
  }

  ghost function NormItems(items: seq<BencodeT>): (r: seq<BencodeT>)
    ensures |r| == |items| && forall i :: 0 <= i < |items| ==> r[i] == Norm(items[i])
    decreases items
  {
    if items == [] then [] else [Norm(items[0])] + NormItems(items[1..])
  }

  /** The values the parser can yield: no raw bytes that are valid UTF-8, only readable integers. */
  ghost predicate Canonical(b: BencodeT)
    decreases b
  {
    match b
    case Str(s) => |s| < USIZE_LIMIT
    case ByteString(s) => |s| < USIZE_LIMIT && !ValidUtf8(s)
    case Integer(n) => CanonicalInt(n)
    case List(items) => forall i :: 0 <= i < |items| ==> Canonical(items[i])
    case Dictionary(m) => forall k :: k in m ==> |k| < USIZE_LIMIT && Canonical(m[k])
  }

  // --------------------------------------------------------------- leaf values

  lemma {:induction false} DigitEndAt(ds: seq<byte>, rest: seq<byte>)
    requires AllDigits(ds) && rest != [] && !IsDigit(rest[0])
    ensures DigitEnd(ds + rest) == Ok(|ds|)
    decreases |ds|
  {
    if ds == [] {
      assert ds + rest == rest;
    } else {
      assert (ds + rest)[1..] == ds[1..] + rest;
      DigitEndAt(ds[1..], rest);
    }
  }

  lemma {:induction false} DecodeBytes(s: seq<byte>, rest: seq<byte>)
    requires |s| < USIZE_LIMIT
    ensures EncodeBytes(s) != [] && Decode(EncodeBytes(s) + rest) == Ok((FromBytes(s), rest))
  {
    var ds := Digits(|s|);
    var all := EncodeBytes(s) + rest;
    assert all == ds + ([COLON] + s + rest);
    DigitEndAt(ds, [COLON] + s + rest);
    assert all[..|ds|] == ds;
    assert all[|ds| + 1..|ds| + 1 + |s|] == s;
    assert all[|ds| + 1 + |s|..] == rest;
    assert IsDigit(all[0]);
  }

  lemma {:induction false} IntEndAt(s: seq<byte>, rest: seq<byte>, j: nat)
    requires s != [] && j <= |s|
    requires forall i :: 0 <= i < |s| ==> (i == 0 && s[i] == MINUS) || IsDigit(s[i])
    ensures IntEnd(s + [END_MARK] + rest, j) == Ok(|s|)
    decreases |s| - j
  {
    if j < |s| {
      IntEndAt(s, rest, j + 1);
    }
  }

  lemma {:induction false} DecodeInteger(n: int, rest: seq<byte>)
    requires I64_MIN <= n <= I64_MAX
    ensures Decode(EncodeInt(n) + rest) == if CanonicalInt(n) then Ok((Integer(n), rest)) else Panic
  {
    var text := ToString(n);
    var all := EncodeInt(n) + rest;
    var tail := text + [END_MARK] + rest;
    assert all[1..] == tail;
    IntEndAt(text, rest, 0);
    assert tail[..|text|] == text && tail[|text| + 1..] == rest;
    IntRoundTrip(n);
  }

  // ------------------------------------------------------------- the round trip

  /** Parsing a printed value followed by anything: what is printed is consumed exactly, raw bytes that
      are valid UTF-8 come back as text, and an integer `parse_i64` cannot read stops the thread. */
  lemma {:induction false} DecodeEncode(b: BencodeT, rest: seq<byte>)
    requires Fits(b)
    ensures Decode(Encode(b) + rest) == if IntsCanonical(b) then Ok((Norm(b), rest)) else Panic
    decreases b
  {
    match b
    case Str(s) => DecodeBytes(s, rest);
    case ByteString(s) => DecodeBytes(s, rest);
    case Integer(n) => DecodeInteger(n, rest);
    case List(items) =>
      DecodeEncodeItems(items, rest);
      OpenList(items, rest);
    case Dictionary(m) =>
      DecodeEncodeEntries(b, SortedKeys(m.Keys), rest);
      OpenDictionary(EncodeEntries(b, SortedKeys(m.Keys)), rest);
      NormDictionary(b);
  }

  lemma {:induction false} OpenList(items: seq<BencodeT>, rest: seq<byte>)
    ensures Decode(Encode(List(items)) + rest)
            == match DecodeItems(EncodeItems(items) + [END_MARK] + rest)
               case Ok((vs, r)) => Ok((List(vs), r))
               case Err => Err
               case Panic => Panic
  {
    assert (Encode(List(items)) + rest)[1..] == EncodeItems(items) + [END_MARK] + rest;
  }

  lemma {:induction false} OpenDictionary(body: seq<byte>, rest: seq<byte>)
    ensures Decode([DICT_MARK] + body + [END_MARK] + rest)
            == match DecodeEntries(body + [END_MARK] + rest)
               case Ok((m, r)) => Ok((Dictionary(m), r))
               case Err => Err
               case Panic => Panic
  {
    assert ([DICT_MARK] + body + [END_MARK] + rest)[1..] == body + [END_MARK] + rest;
  }

  lemma {:induction false} NormDictionary(b: BencodeT)
    requires b.Dictionary?
    ensures Dictionary(NormEntries(b, SortedKeys(b.entries.Keys))) == Norm(b)
    ensures EntriesCanonical(b, SortedKeys(b.entries.Keys)) <==> IntsCanonical(b)
  {
    var keys := SortedKeys(b.entries.Keys);
    assert forall k :: k in keys <==> k in b.entries;
    assert NormEntries(b, keys) == Norm(b).entries;
  }

  lemma {:induction false} DecodeEncodeItems(items: seq<BencodeT>, rest: seq<byte>)
    requires forall i :: 0 <= i < |items| ==> Fits(items[i])
    ensures DecodeItems(EncodeItems(items) + [END_MARK] + rest)
            == if forall i :: 0 <= i < |items| ==> IntsCanonical(items[i]) then Ok((NormItems(items), rest)) else Panic
    decreases items
  {
    if items == [] {
      assert EncodeItems(items) + [END_MARK] + rest == [END_MARK] + rest;
    } else {
      var tail := EncodeItems(items[1..]) + [END_MARK] + rest;
      assert EncodeItems(items) + [END_MARK] + rest == Encode(items[0]) + tail;
      DecodeEncode(items[0], tail);
      DecodeEncodeItems(items[1..], rest);
      FirstByte(items[0]);
    }
  }

  /** No printed value starts like the end of a list. */
  lemma {:induction false} FirstByte(b: BencodeT)
    ensures Encode(b)[0] != END_MARK
  {
  }

  /** The normalised entries under some keys. */
  ghost function NormEntries(d: BencodeT, keys: seq<Text>): map<Text, BencodeT>
    requires d.Dictionary? && forall k :: k in keys ==> k in d.entries
  {
    map k | k in keys :: Norm(d.entries[k])
  }

  /** One entry of a dictionary parsed, and what that makes of the whole. */
  lemma {:induction false} EntryStep(s: seq<byte>, k: Text, mid: seq<byte>, v: BencodeT, vOk: bool,
                  tail: seq<byte>, m: map<Text, BencodeT>, mOk: bool, rest: seq<byte>)
    requires s != [] && s[0] != END_MARK && Decode(s) == Ok((Str(k), mid))
    requires Decode(mid) == if vOk then Ok((v, tail)) else Panic
    requires DecodeEntries(tail) == if mOk then Ok((m, rest)) else Panic
    ensures DecodeEntries(s) == if vOk && mOk then Ok((map[k := v] + m, rest)) else Panic
  {
  }

  lemma {:induction false} NormEntriesStep(d: BencodeT, keys: seq<Text>)
    requires d.Dictionary? && (forall k :: k in keys ==> k in d.entries) && keys != []
    ensures map[keys[0] := Norm(d.entries[keys[0]])] + NormEntries(d, keys[1..]) == NormEntries(d, keys)
    ensures EntriesCanonical(d, keys) <==> IntsCanonical(d.entries[keys[0]]) && EntriesCanonical(d, keys[1..])
  {
    assert forall x :: x in keys <==> x == keys[0] || x in keys[1..];
  }

  lemma {:induction false} Regroup(a: seq<byte>, b: seq<byte>, c: seq<byte>, rest: seq<byte>)
    ensures (a + b + c) + [END_MARK] + rest == a + (b + (c + [END_MARK] + rest))
  {
  }

  lemma {:induction false} NotTheEnd(s: seq<byte>, rest: seq<byte>)
    ensures EncodeBytes(s) + rest != [] && (EncodeBytes(s) + rest)[0] != END_MARK
  {
    assert (EncodeBytes(s) + rest)[0] == Digits(|s|)[0];
  }

  lemma {:induction false} EncodedEntry(k: Text, text: seq<byte>, v: BencodeT, vOk: bool,
                     tail: seq<byte>, m: map<Text, BencodeT>, mOk: bool, rest: seq<byte>)
    requires |k| < USIZE_LIMIT
    requires Decode(text + tail) == if vOk then Ok((v, tail)) else Panic
    requires DecodeEntries(tail) == if mOk then Ok((m, rest)) else Panic
    ensures DecodeEntries(EncodeBytes(k) + (text + tail)) == if vOk && mOk then Ok((map[k := v] + m, rest)) else Panic
  {
    DecodeBytes(k, text + tail);
    NotTheEnd(k, text + tail);
    EntryStep(EncodeBytes(k) + (text + tail), k, text + tail, v, vOk, tail, m, mOk, rest);
  }

  lemma {:induction false} DecodeEncodeEntries(d: BencodeT, keys: seq<Text>, rest: seq<byte>)
    requires d.Dictionary? && Fits(d) && (forall k :: k in keys ==> k in d.entries)
    ensures DecodeEntries(EntriesText(d, keys, rest)) == EntriesResult(d, keys, rest)
    decreases d, |keys|
  {
    if keys == [] {
      NoEntries(d, rest);
    } else {
      EntryFits(d, keys);
      DecodeEncode(d.entries[keys[0]], EntriesText(d, keys[1..], rest));
      DecodeEncodeEntries(d, keys[1..], rest);
      FirstEntry(d, keys, rest);
    }
  }

  lemma {:induction false} NoEntries(d: BencodeT, rest: seq<byte>)
    requires d.Dictionary?
    ensures DecodeEntries(EntriesText(d, [], rest)) == EntriesResult(d, [], rest)
  {
    assert EntriesText(d, [], rest) == [END_MARK] + rest;
    assert NormEntries(d, []) == map[];
  }

  lemma {:induction false} EntryFits(d: BencodeT, keys: seq<Text>)
    requires d.Dictionary? && Fits(d) && (forall k :: k in keys ==> k in d.entries) && keys != []
    ensures keys[0] in d.entries && |keys[0]| < USIZE_LIMIT && Fits(d.entries[keys[0]])
  {
    assert keys[0] in keys;
  }

  /** The printed entries, up to and beyond the end of the dictionary. */
  ghost function EntriesText(d: BencodeT, keys: seq<Text>, rest: seq<byte>): seq<byte>
    requires d.Dictionary? && forall k :: k in keys ==> k in d.entries
  {
    EncodeEntries(d, keys) + [END_MARK] + rest
  }

  lemma {:induction false} EntriesTextStep(d: BencodeT, keys: seq<Text>, rest: seq<byte>)
    requires d.Dictionary? && (forall k :: k in keys ==> k in d.entries) && keys != []
    ensures EntriesText(d, keys, rest)
            == EncodeBytes(keys[0]) + (Encode(d.entries[keys[0]]) + EntriesText(d, keys[1..], rest))
  {
    Regroup(EncodeBytes(keys[0]), Encode(d.entries[keys[0]]), EncodeEntries(d, keys[1..]), rest);
  }

  lemma {:induction false} FirstEntry(d: BencodeT, keys: seq<Text>, rest: seq<byte>)
    requires d.Dictionary? && (forall k :: k in keys ==> k in d.entries) && keys != [] && |keys[0]| < USIZE_LIMIT
    requires var v := d.entries[keys[0]]; var tail := EntriesText(d, keys[1..], rest);
             && Decode(Encode(v) + tail) == (if IntsCanonical(v) then Ok((Norm(v), tail)) else Panic)
             && DecodeEntries(tail) == EntriesResult(d, keys[1..], rest)
    ensures DecodeEntries(EntriesText(d, keys, rest)) == EntriesResult(d, keys, rest)
  {
    var k, v := keys[0], d.entries[keys[0]];
    EntriesTextStep(d, keys, rest);
    EncodedEntry(k, Encode(v), Norm(v), IntsCanonical(v), EntriesText(d, keys[1..], rest),
                 NormEntries(d, keys[1..]), EntriesCanonical(d, keys[1..]), rest);
    NormEntriesStep(d, keys);
  }

  ghost predicate EntriesCanonical(d: BencodeT, keys: seq<Text>)
    requires d.Dictionary? && forall k :: k in keys ==> k in d.entries
  {
    forall k :: k in keys ==> IntsCanonical(d.entries[k])
  }

  ghost function EntriesResult(d: BencodeT, keys: seq<Text>, rest: seq<byte>): Outcome<(map<Text, BencodeT>, seq<byte>)>
    requires d.Dictionary? && forall k :: k in keys ==> k in d.entries
  {
    if EntriesCanonical(d, keys) then Ok((NormEntries(d, keys), rest)) else Panic
  }

  // --------------------------------------------------------- canonical values

  /** Canonical values are the ones normalisation leaves alone. */
  lemma {:induction false} CanonicalIsFixed(b: BencodeT)
    requires Fits(b)
    ensures Canonical(b) <==> IntsCanonical(b) && Norm(b) == b
    decreases b
  {
    match b
    case List(items) =>
      forall i | 0 <= i < |items|
        ensures Canonical(items[i]) <==> IntsCanonical(items[i]) && Norm(items[i]) == items[i]
      {
        CanonicalIsFixed(items[i]);
      }
      assert Norm(b) == b <==> NormItems(items) == items;
    case Dictionary(m) =>
      forall k | k in m ensures Canonical(m[k]) <==> IntsCanonical(m[k]) && Norm(m[k]) == m[k] {
        CanonicalIsFixed(m[k]);
      }
      assert Norm(b) == b <==> forall k :: k in m ==> Norm(m[k]) == m[k];
    case _ =>
  }

  lemma {:induction false} CanonicalFits(b: BencodeT)
    requires Canonical(b)
    ensures Fits(b)
    decreases b
  {
    match b
    case List(items) =>
      forall i | 0 <= i < |items| ensures Fits(items[i]) {
        CanonicalFits(items[i]);
      }
    case Dictionary(m) =>
      forall k | k in m ensures Fits(m[k]) {
        CanonicalFits(m[k]);
      }
    case _ =>
  }

  /** A value is read back from its own text, whatever follows the text, exactly when it is canonical. */
  lemma {:induction false} RoundTripExactly(b: BencodeT, rest: seq<byte>)
    requires Fits(b)
    ensures Decode(Encode(b) + rest) == Ok((b, rest)) <==> Canonical(b)
  {
    DecodeEncode(b, rest);
    CanonicalIsFixed(b);
  }

  /** No text of a canonical value is a proper prefix of another one. */
  lemma {:induction false} PrefixFree(a: BencodeT, b: BencodeT, x: seq<byte>, y: seq<byte>)
    requires Canonical(a) && Canonical(b)
    requires Encode(a) + x == Encode(b) + y
    ensures a == b && x == y
  {
    CanonicalFits(a);
    CanonicalFits(b);
    RoundTripExactly(a, x);
    RoundTripExactly(b, y);
  }

  // ------------------------------------------------------ the parser's image

  /** Whatever the input, a value the parser accepts is canonical. */
  lemma {:induction false} DecodedIsCanonical(s: seq<byte>)
    ensures Decode(s).Ok? ==> Canonical(Decode(s).value.0)
    decreases |s|, 2
  {
    if s != [] {
      if s[0] == LIST_MARK {
        ItemsAreCanonical(s[1..]);
      } else if s[0] == DICT_MARK {
        EntriesAreCanonical(s[1..]);
      } else if s[0] == INT_MARK {
        if IntEnd(s[1..], 0).Ok? {
          ParsedIsCanonical(s[1..][..IntEnd(s[1..], 0).value]);
        }
      }
    }
  }

  lemma {:induction false} ItemsAreCanonical(s: seq<byte>)
    ensures DecodeItems(s).Ok? ==>
              forall i :: 0 <= i < |DecodeItems(s).value.0| ==> Canonical(DecodeItems(s).value.0[i])
    decreases |s|, 3
  {
    if DecodeItems(s).Ok? && s[0] != END_MARK {
      DecodedIsCanonical(s);
      ItemsAreCanonical(Decode(s).value.1);
    }
  }

  lemma {:induction false} EntriesAreCanonical(s: seq<byte>)
    ensures DecodeEntries(s).Ok? ==> Canonical(Dictionary(DecodeEntries(s).value.0))
    decreases |s|, 3
  {
    if DecodeEntries(s).Ok? && s[0] != END_MARK {
      DecodedIsCanonical(s);
      var s1 := Decode(s).value.1;
      DecodedIsCanonical(s1);
      EntriesAreCanonical(Decode(s1).value.1);
    }
  }

  /** The values `parse` can yield are exactly the canonical ones. */
  lemma {:induction false} ImageExactly(b: BencodeT)
    ensures Canonical(b) <==> exists s :: Parse(s) == Ok(b)
  {
    if Canonical(b) {
      CanonicalFits(b);
      RoundTripExactly(b, []);
      assert Encode(b) + [] == Encode(b);
      assert Parse(Encode(b)) == Ok(b);
    }
    if exists s :: Parse(s) == Ok(b) {
      var s :| Parse(s) == Ok(b);
      DecodedIsCanonical(s);
    }
  }

  /** Re-encoding any accepted input gives a text that parses to the same value: leading zeros, unsorted
      and repeated keys, and trailing bytes are gone after one step. */
  lemma {:induction false} ReencodingNormalises(s: seq<byte>)
    ensures Parse(s).Ok? ==> Parse(Encode(Parse(s).value)) == Parse(s)
  {
    if Parse(s).Ok? {
      var b := Parse(s).value;
      DecodedIsCanonical(s);
      CanonicalFits(b);
      RoundTripExactly(b, []);
      assert Encode(b) + [] == Encode(b);
    }
  }
}
