/** Bencoded values, their printed form (src/bittorrent/bencoder.rs) and what the parser
    (src/bittorrent/bedecoder.rs) makes of a byte string. */
module Bencode {
  import opened Outcomes
  import opened Utf8
  import opened Decimal

  datatype BencodeT =
    | Str(text: Text)
    | Integer(n: int)
    | Dictionary(entries: map<Text, BencodeT>)
    | List(items: seq<BencodeT>)
    | ByteString(bytes: seq<byte>)

  // ASCII codes of the marks of the format.
  const INT_MARK: byte := 105
  const LIST_MARK: byte := 108
  const DICT_MARK: byte := 100
  const END_MARK: byte := 101
  const MINUS: byte := 45
  const COLON: byte := 58

  // ---------------------------------------------------------------- printing

  function EncodeBytes(s: seq<byte>): seq<byte> {
    Digits(|s|) + [COLON] + s
  }

  function EncodeInt(n: int): seq<byte> {
    [INT_MARK] + ToString(n) + [END_MARK]
  }

  ghost function Encode(b: BencodeT): (r: seq<byte>)
    ensures r != []
    decreases b
  {
    match b
    case Str(s) => EncodeBytes(s)
    case ByteString(s) => EncodeBytes(s)
    case Integer(n) => EncodeInt(n)
    case List(items) => [LIST_MARK] + EncodeItems(items) + [END_MARK]
    case Dictionary(m) => [DICT_MARK] + EncodeEntries(b, SortedKeys(m.Keys)) + [END_MARK]
  }

  ghost function EncodeItems(items: seq<BencodeT>): seq<byte>
    decreases items
  {
    if items == [] then [] else Encode(items[0]) + EncodeItems(items[1..])
  }

  /** The entries of dictionary d under the given keys, in that order. */
  ghost function EncodeEntries(d: BencodeT, keys: seq<Text>): seq<byte>
    requires d.Dictionary? && forall k :: k in keys ==> k in d.entries
    decreases d, |keys|
  {
    if keys == [] then []
    else EncodeBytes(keys[0]) + Encode(d.entries[keys[0]]) + EncodeEntries(d, keys[1..])
  }

  // ----------------------------------------------------------------- parsing

  /** A parsed value and the bytes left after it. */
  type Parsed = Outcome<(BencodeT, seq<byte>)>

  ghost predicate IsSuffix(rest: seq<byte>, s: seq<byte>) {
    |rest| <= |s| && rest == s[|s| - |rest|..]
  }

  lemma {:induction false} SuffixTwice(a: seq<byte>, b: seq<byte>, s: seq<byte>)
    requires IsSuffix(a, b) && IsSuffix(b, s)
    ensures IsSuffix(a, s)
  {
  }

  /** Where the digits of an integer end: at the first 'e'. */
  function IntEnd(s: seq<byte>, j: nat): (r: Outcome<nat>)
    requires j <= |s|
    ensures r.Ok? ==> j <= r.value < |s| && r.value > 0
    ensures r != Panic
    decreases |s| - j
  {
    if j == |s| then Err
    else if s[j] == END_MARK then (if j == 0 then Err else Ok(j))
    else if (s[j] == MINUS && j == 0) || IsDigit(s[j]) then IntEnd(s, j + 1)
    else Err
  }

  /** `parse_int`, after the 'i'. A numeral `parse_i64` refuses panics. */
  function DecodeInt(s: seq<byte>): (r: Parsed)
    ensures r.Ok? ==> IsSuffix(r.value.1, s)
  {
    match IntEnd(s, 0)
    case Ok(j) =>
      (match ParseI64(s[..j])
       case Ok(n) => Ok((Integer(n), s[j + 1..]))
       case _ => Panic)
    case _ => Err
  }

  /** Where a run of digits ends; running off the buffer panics. */
  function DigitEnd(s: seq<byte>): (r: Outcome<nat>)
    ensures r.Ok? ==> r.value < |s| && AllDigits(s[..r.value]) && !IsDigit(s[r.value])
    ensures r != Err
  {
    if s == [] then Panic
    else if !IsDigit(s[0]) then Ok(0)
    else
      match DigitEnd(s[1..])
      case Ok(j) => assert s[..j + 1] == [s[0]] + s[1..][..j]; Ok(j + 1)
      case _ => Panic
  }

  /** `utf8_to_string`: text when it is valid UTF-8, raw bytes otherwise. */
  function FromBytes(s: seq<byte>): BencodeT {
    if ValidUtf8(s) then Str(s) else ByteString(s)
  }

  /** `parse_str`: a length, a colon and that many bytes. A length that is missing, does not fit
      64 bits or reaches past the buffer panics. */
  function DecodeStr(s: seq<byte>): (r: Parsed)
    ensures r.Ok? ==> IsSuffix(r.value.1, s) && |r.value.1| < |s|
  {
    match DigitEnd(s)
    case Ok(j) =>
      if s[j] != COLON then Err
      else if j == 0 || Value(s[..j]) >= USIZE_LIMIT then Panic
      else
        var from := j + 1;
        var to := from + Value(s[..j]);
        if |s| < to then Panic else Ok((FromBytes(s[from..to]), s[to..]))
    case _ => Panic
  }

  /** `_parse`: the first value of s. */
  function Decode(s: seq<byte>): (r: Parsed)
    ensures r.Ok? ==> IsSuffix(r.value.1, s) && |r.value.1| < |s|
    decreases |s|, 2
  {
    if s == [] then Panic
    else if s[0] == INT_MARK then DecodeInt(s[1..])
    else if s[0] == LIST_MARK then
      match DecodeItems(s[1..])
      case Ok((items, rest)) => Ok((List(items), rest))
      case Err => Err
      case Panic => Panic
    else if s[0] == DICT_MARK then
      match DecodeEntries(s[1..])
      case Ok((m, rest)) => Ok((Dictionary(m), rest))
      case Err => Err
      case Panic => Panic
    else if IsDigit(s[0]) then DecodeStr(s)
    else Err
  }

  /** `parse_list`, from some element on. */
  function DecodeItems(s: seq<byte>): (r: Outcome<(seq<BencodeT>, seq<byte>)>)
    ensures r.Ok? ==> IsSuffix(r.value.1, s) && |r.value.1| < |s|
    decreases |s|, 3
  {
    if s == [] then Err
    else if s[0] == END_MARK then Ok(([], s[1..]))
    else
      match Decode(s)
      case Ok((b, s1)) =>
        (match DecodeItems(s1)
         case Ok((items, rest)) =>
           SuffixTwice(rest, s1, s);
           Ok(([b] + items, rest))
         case Err => Err
         case Panic => Panic)
      case Err => Err
      case Panic => Panic
  }

  /** `parse_dic`, from some entry on; a repeated key keeps its last value. */
  function DecodeEntries(s: seq<byte>): (r: Outcome<(map<Text, BencodeT>, seq<byte>)>)
    ensures r.Ok? ==> IsSuffix(r.value.1, s) && |r.value.1| < |s|
    decreases |s|, 3
  {
    if s == [] then Err
    else if s[0] == END_MARK then Ok((map[], s[1..]))
    else
      match Decode(s)
      case Ok((Str(key), s1)) =>
        (match Decode(s1)
         case Ok((value, s2)) =>
           (match DecodeEntries(s2)
            case Ok((m, rest)) =>
              SuffixTwice(s2, s1, s);
              SuffixTwice(rest, s2, s);
              var all := map[key := value] + m;
              Ok((all, rest))
            case Err => Err
            case Panic => Panic)
         case Err => Err
         case Panic => Panic)
      case Ok(_) => Err
      case Err => Err
      case Panic => Panic
  }

  /** `parse`: the first value of the input; whatever follows it is ignored. */
  function Parse(s: seq<byte>): Outcome<BencodeT> {
    match Decode(s)
    case Ok((b, _)) => Ok(b)
    case Err => Err
    case Panic => Panic
  }
}
