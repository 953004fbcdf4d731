/** The typed layer over bencoding (src/bittorrent/metainfo.rs and the conversions of mod.rs):
    the contents of a .torrent file, turned into a bencoded dictionary and back. */
module MetaInfoFile {
  import opened Outcomes
  import opened Utf8
  import opened Decimal
  import opened Bencode
  import opened RoundTrip

  type Hash = h: seq<byte> | |h| == 20 witness seq(20, i => 0)

  datatype MIFile = MIFile(length: int, md5sum: Option<Text>, path: seq<Text>)

  datatype FileInfo =
    | SingleFile(name: Text, length: int, md5sum: Option<Text>)
    | MultiFile(name: Text, files: seq<MIFile>)

  datatype Info = Info(pieceLength: int, pieces: seq<Hash>, isPrivate: Option<bool>, fileInfo: FileInfo)

  datatype MetaInfo = MetaInfo(
    info: Info,
    announce: Option<Text>,
    announceList: Option<seq<Text>>,
    creationDate: Option<int>,
    comment: Option<Text>,
    createdBy: Option<Text>,
    encoding: Option<Text>)

  type Entries = map<Text, BencodeT>

  // Dictionary keys. Length and one or two bytes tell them apart.
  function KPieceLength(): (k: Text) ensures |k| == 12 { Ascii("piece length") }
  function KPieces(): (k: Text) ensures |k| == 6 && k[0] == 112 { Ascii("pieces") }
  function KPrivate(): (k: Text) ensures |k| == 7 && k[0] == 112 { Ascii("private") }
  function KName(): (k: Text) ensures |k| == 4 && k[0] == 110 { Ascii("name") }
  function KLength(): (k: Text) ensures |k| == 6 && k[0] == 108 { Ascii("length") }
  function KMd5(): (k: Text) ensures |k| == 6 && k[0] == 109 { Ascii("md5sum") }
  function KFiles(): (k: Text) ensures |k| == 5 { Ascii("files") }
  function KPath(): (k: Text) ensures |k| == 4 && k[0] == 112 { Ascii("path") }
  function KInfo(): (k: Text) ensures |k| == 4 && k[0] == 105 { Ascii("info") }
  function KAnnounce(): (k: Text) ensures |k| == 8 && k[0] == 97 { Ascii("announce") }
  function KAnnounceList(): (k: Text) ensures |k| == 13 && k[0] == 97 { Ascii("announce-list") }
  function KCreationDateOut(): (k: Text) ensures |k| == 13 && k[0] == 99 && k[8] == 95 { Ascii("creation_date") }
  function KCreationDateIn(): (k: Text) ensures |k| == 13 && k[0] == 99 && k[8] == 32 { Ascii("creation date") }
  function KComment(): (k: Text) ensures |k| == 7 && k[0] == 99 { Ascii("comment") }
  function KCreatedByOut(): (k: Text) ensures |k| == 10 && k[7] == 95 { Ascii("created_by") }
  function KCreatedByIn(): (k: Text) ensures |k| == 10 && k[7] == 32 { Ascii("created by") }
  function KEncoding(): (k: Text) ensures |k| == 8 && k[0] == 101 { Ascii("encoding") }

  // ---------------------------------------------------------- basic conversions

  function TextFrom(b: BencodeT): Outcome<Text> {
    if b.Str? then Ok(b.text) else Err
  }

  function IntFrom(b: BencodeT): Outcome<int> {
    if b.Integer? then Ok(b.n) else Err
  }

  function BoolFrom(b: BencodeT): Outcome<bool> {
    if b == Integer(0) then Ok(false) else if b == Integer(1) then Ok(true) else Err
  }

  function BytesFrom(b: BencodeT): Outcome<seq<byte>> {
    if b.ByteString? then Ok(b.bytes) else Err
  }

  function ListFrom(b: BencodeT): Outcome<seq<BencodeT>> {
    if b.List? then Ok(b.items) else Err
  }

  /** `hm.get(key).unwrap()`. */
  function Get(hm: Entries, key: Text): Outcome<BencodeT> {
    if key in hm then Ok(hm[key]) else Panic
  }

  function Entry(hm: Entries, key: Text): Option<BencodeT> {
    if key in hm then Some(hm[key]) else None
  }

  /** `elem_from_entry`: an absent entry is None, one of the wrong type panics. */
  function Elem<T>(entry: Option<BencodeT>, from: BencodeT -> Outcome<T>): Outcome<Option<T>> {
    match entry
    case None => Ok(None)
    case Some(b) =>
      var v :- from(b).Unwrap();
      Ok(Some(v))
  }

  /** `checkVec`: convert every element, trying `convert` where `from` fails. */
  function CheckVec<T>(vec: seq<BencodeT>, from: BencodeT -> Outcome<T>, convert: BencodeT -> Outcome<T>)
    : Outcome<seq<T>>
  {
    if vec == [] then Ok([])
    else
      var first :- (match from(vec[0]) case Err => convert(vec[0]) case r => r);
      var rest :- CheckVec(vec[1..], from, convert);
      Ok([first] + rest)
  }

  /** `convert`: the first text of a list of texts. */
  function FirstText(b: BencodeT): Outcome<Text> {
    var items :- ListFrom(b);
    var texts :- CheckVec(items, TextFrom, TextFrom);
    if texts == [] then Panic else Ok(texts[0])
  }

  function Texts(ts: seq<Text>): (r: seq<BencodeT>)
    ensures |r| == |ts| && forall i :: 0 <= i < |ts| ==> r[i] == Str(ts[i])
  {
    seq(|ts|, i requires 0 <= i < |ts| => Str(ts[i]))
  }

  function WrappedTexts(ts: seq<Text>): (r: seq<BencodeT>)
    ensures |r| == |ts| && forall i :: 0 <= i < |ts| ==> r[i] == List([Str(ts[i])])
  {
    seq(|ts|, i requires 0 <= i < |ts| => List([Str(ts[i])]))
  }

  function Put(hm: Entries, key: Text, value: Option<BencodeT>): Entries {
    match value
    case Some(v) => hm[key := v]
    case None => hm
  }

  function OptText(o: Option<Text>): Option<BencodeT> {
    match o case Some(t) => Some(Str(t)) case None => None
  }

  function OptList(o: Option<seq<Text>>): Option<BencodeT> {
    match o case Some(ts) => Some(List(WrappedTexts(ts))) case None => None
  }

  function OptInt(o: Option<int>): Option<BencodeT> {
    match o case Some(n) => Some(Integer(n)) case None => None
  }

  function OptBool(o: Option<bool>): Option<BencodeT> {
    match o case Some(v) => Some(Integer(if v then 1 else 0)) case None => None
  }

  // ------------------------------------------------------------------- hashes

  function JoinHashes(hashes: seq<Hash>): seq<byte> {
    if hashes == [] then [] else hashes[0] + JoinHashes(hashes[1..])
  }

  function SplitHashes(vec: seq<byte>): Outcome<seq<Hash>> {
    if |vec| % 20 != 0 then Err else Ok(Chunks(vec))
  }

  function Chunks(vec: seq<byte>): seq<Hash>
    requires |vec| % 20 == 0
  {
    if vec == [] then [] else [vec[..20]] + Chunks(vec[20..])
  }

  /** Cutting joined hashes gives the hashes back. */
  lemma {:induction false} SplitJoin(hashes: seq<Hash>)
    ensures |JoinHashes(hashes)| == 20 * |hashes| && SplitHashes(JoinHashes(hashes)) == Ok(hashes)
    decreases |hashes|
  {
    if hashes != [] {
      SplitJoin(hashes[1..]);
      assert JoinHashes(hashes)[..20] == hashes[0] && JoinHashes(hashes)[20..] == JoinHashes(hashes[1..]);
      assert [hashes[0]] + hashes[1..] == hashes;
    }
  }

  /** Joining the pieces of a cut string gives the string back. */
  lemma {:induction false} JoinSplit(vec: seq<byte>)
    requires |vec| % 20 == 0
    ensures JoinHashes(Chunks(vec)) == vec
    decreases |vec|
  {
    if vec != [] {
      JoinSplit(vec[20..]);
      assert Chunks(vec)[1..] == Chunks(vec[20..]);
    }
  }

  // ----------------------------------------------------------- to_bencode_t

  function MIFileTo(f: MIFile): BencodeT {
    Dictionary(Put(map[KLength() := Integer(f.length)], KMd5(), OptText(f.md5sum))[KPath() := List(Texts(f.path))])
  }

  function FilesTo(fs: seq<MIFile>): (r: seq<BencodeT>)
    ensures |r| == |fs| && forall i :: 0 <= i < |fs| ==> r[i] == MIFileTo(fs[i])
  {
    seq(|fs|, i requires 0 <= i < |fs| => MIFileTo(fs[i]))
  }

  /** The entries of the file part are added to the dictionary of the info. */
  function FileInfoTo(hm: Entries, f: FileInfo): Entries {
    match f
    case SingleFile(name, length, md5sum) =>
      Put(hm[KName() := Str(name)][KLength() := Integer(length)], KMd5(), OptText(md5sum))
    case MultiFile(name, files) =>
      hm[KName() := Str(name)][KFiles() := List(FilesTo(files))]
  }

  /** The entries of an info dictionary before the file part is added. */
  function InfoPart(i: Info): Entries {
    Put(map[KPieceLength() := Integer(i.pieceLength)][KPieces() := ByteString(JoinHashes(i.pieces))],
        KPrivate(), OptBool(i.isPrivate))
  }

  function InfoTo(i: Info): BencodeT {
    Dictionary(FileInfoTo(InfoPart(i), i.fileInfo))
  }

  /** The two dates and authors go out under keys with an underscore. */
  function MetaTo(m: MetaInfo): BencodeT {
    var hm := map[KInfo() := InfoTo(m.info)];
    var hm := Put(hm, KAnnounceList(), OptList(m.announceList));
    var hm := Put(hm, KAnnounce(), OptText(m.announce));
    var hm := Put(hm, KCreationDateOut(), OptInt(m.creationDate));
    var hm := Put(hm, KComment(), OptText(m.comment));
    var hm := Put(hm, KCreatedByOut(), OptText(m.createdBy));
    Dictionary(Put(hm, KEncoding(), OptText(m.encoding)))
  }

  // --------------------------------------------------------- from_bencode_t

  function MIFileFrom(b: BencodeT): Outcome<MIFile> {
    if !b.Dictionary? then Err
    else
      var hm := b.entries;
      var l :- Get(hm, KLength());
      var length :- IntFrom(l);
      var md5sum :- Elem(Entry(hm, KMd5()), TextFrom);
      var p :- Get(hm, KPath());
      var items :- ListFrom(p);
      var path :- CheckVec(items, TextFrom, TextFrom);
      Ok(MIFile(length, md5sum, path))
  }

  function FileInfoFrom(hm: Entries): Outcome<FileInfo> {
    var n :- Get(hm, KName());
    var name :- TextFrom(n);
    if KLength() in hm then
      var length :- IntFrom(hm[KLength()]);
      var md5sum :- Elem(Entry(hm, KMd5()), TextFrom);
      Ok(SingleFile(name, length, md5sum))
    else
      var fs :- Get(hm, KFiles());
      var items :- ListFrom(fs);
      var files :- CheckVec(items, MIFileFrom, MIFileFrom);
      Ok(MultiFile(name, files))
  }

  function InfoFrom(b: BencodeT): Outcome<Info> {
    if !b.Dictionary? then Err
    else
      var hm := b.entries;
      var l :- Get(hm, KPieceLength());
      var pieceLength :- IntFrom(l);
      var ps :- Get(hm, KPieces());
      var vec :- BytesFrom(ps);
      var pieces :- SplitHashes(vec);
      var isPrivate :- Elem(Entry(hm, KPrivate()), BoolFrom);
      var fileInfo :- FileInfoFrom(hm);
      Ok(Info(pieceLength, pieces, isPrivate, fileInfo))
  }

  /** The two dates and authors are looked up under keys with a space. */
  function MetaFrom(b: BencodeT): Outcome<MetaInfo> {
    if !b.Dictionary? then Err
    else
      var hm := b.entries;
      if KInfo() !in hm then Err
      else
        var info :- InfoFrom(hm[KInfo()]);
        var announce :- Elem(Entry(hm, KAnnounce()), TextFrom);
        var announceList :- AnnounceListFrom(hm);
        var creationDate :- Elem(Entry(hm, KCreationDateIn()), IntFrom);
        var comment :- Elem(Entry(hm, KComment()), TextFrom);
        var createdBy :- Elem(Entry(hm, KCreatedByIn()), TextFrom);
        var encoding :- Elem(Entry(hm, KEncoding()), TextFrom);
        Ok(MetaInfo(info, announce, announceList, creationDate, comment, createdBy, encoding))
  }

  function AnnounceListFrom(hm: Entries): Outcome<Option<seq<Text>>> {
    if KAnnounceList() !in hm then Ok(None)
    else
      var items :- ListFrom(hm[KAnnounceList()]);
      var ts :- CheckVec(items, TextFrom, FirstText);
      Ok(Some(ts))
  }

  /** `MetaInfo::read` on the bytes of the file. */
  function Read(contents: seq<byte>): Outcome<MetaInfo> {
    var b :- Parse(contents);
    MetaFrom(b)
  }

  // ------------------------------------------------------- there and back again

  lemma {:induction false} TextsBack(ts: seq<Text>, convert: BencodeT -> Outcome<Text>)
    ensures CheckVec(Texts(ts), TextFrom, convert) == Ok(ts)
    decreases |ts|
  {
    if ts != [] {
      TextsBack(ts[1..], convert);
      assert Texts(ts)[1..] == Texts(ts[1..]) && [ts[0]] + ts[1..] == ts;
    }
  }

  lemma {:induction false} FirstTextBack(t: Text)
    ensures FirstText(List([Str(t)])) == Ok(t)
  {
    TextsBack([t], TextFrom);
    assert Texts([t]) == [Str(t)];
  }

  /** An announce list, every tracker wrapped in a list of its own, is unwrapped again. */
  lemma {:induction false} WrappedBack(ts: seq<Text>)
    ensures CheckVec(WrappedTexts(ts), TextFrom, FirstText) == Ok(ts)
    decreases |ts|
  {
    if ts != [] {
      FirstTextBack(ts[0]);
      WrappedBack(ts[1..]);
      assert WrappedTexts(ts)[1..] == WrappedTexts(ts[1..]) && [ts[0]] + ts[1..] == ts;
    }
  }

  lemma {:induction false} ElemBack(text: Option<Text>, n: Option<int>, flag: Option<bool>)
    ensures Elem(OptText(text), TextFrom) == Ok(text)
    ensures Elem(OptInt(n), IntFrom) == Ok(n)
    ensures Elem(OptBool(flag), BoolFrom) == Ok(flag)
  {
  }

  lemma {:induction false} PutEntry(hm: Entries, key: Text, value: Option<BencodeT>, other: Text)
    ensures Entry(Put(hm, key, value), other)
            == if other == key && value.Some? then value else Entry(hm, other)
  {
  }

  lemma {:induction false} MIFileEntries(f: MIFile)
    ensures var hm := MIFileTo(f).entries;
            && Entry(hm, KLength()) == Some(Integer(f.length))
            && Entry(hm, KMd5()) == OptText(f.md5sum)
            && Entry(hm, KPath()) == Some(List(Texts(f.path)))
  {
  }

  lemma {:induction false} MIFileBack(f: MIFile)
    ensures MIFileFrom(MIFileTo(f)) == Ok(f)
  {
    MIFileEntries(f);
    ElemBack(f.md5sum, None, None);
    TextsBack(f.path, TextFrom);
  }

  lemma {:induction false} FilesBack(fs: seq<MIFile>)
    ensures CheckVec(FilesTo(fs), MIFileFrom, MIFileFrom) == Ok(fs)
    decreases |fs|
  {
    if fs != [] {
      MIFileBack(fs[0]);
      FilesBack(fs[1..]);
      assert FilesTo(fs)[1..] == FilesTo(fs[1..]) && [fs[0]] + fs[1..] == fs;
    }
  }

  lemma {:induction false} SingleEntries(hm: Entries, f: FileInfo)
    requires f.SingleFile? && KLength() !in hm && KMd5() !in hm
    ensures var out := FileInfoTo(hm, f);
            && Entry(out, KName()) == Some(Str(f.name))
            && Entry(out, KLength()) == Some(Integer(f.length))
            && Entry(out, KMd5()) == OptText(f.md5sum)
  {
  }

  lemma {:induction false} MultiEntries(hm: Entries, f: FileInfo)
    requires f.MultiFile? && KLength() !in hm
    ensures var out := FileInfoTo(hm, f);
            && Entry(out, KName()) == Some(Str(f.name))
            && KLength() !in out
            && Entry(out, KFiles()) == Some(List(FilesTo(f.files)))
  {
  }

  lemma {:induction false} FileInfoBack(hm: Entries, f: FileInfo)
    requires KLength() !in hm && KMd5() !in hm
    ensures FileInfoFrom(FileInfoTo(hm, f)) == Ok(f)
  {
    if f.MultiFile? {
      MultiEntries(hm, f);
      FilesBack(f.files);
    } else {
      SingleEntries(hm, f);
      ElemBack(f.md5sum, None, None);
    }
  }

  /** The file part leaves the entries under other keys alone. */
  lemma {:induction false} OtherEntryKept(hm: Entries, f: FileInfo, key: Text)
    requires key != KName() && key != KLength() && key != KMd5() && key != KFiles()
    ensures Entry(FileInfoTo(hm, f), key) == Entry(hm, key)
  {
    if f.SingleFile? {
      PutEntry(hm[KName() := Str(f.name)][KLength() := Integer(f.length)], KMd5(), OptText(f.md5sum), key);
    }
  }

  lemma {:induction false} InfoEntries(i: Info)
    ensures var hm := InfoPart(i);
            && Entry(hm, KPieceLength()) == Some(Integer(i.pieceLength))
            && Entry(hm, KPieces()) == Some(ByteString(JoinHashes(i.pieces)))
            && Entry(hm, KPrivate()) == OptBool(i.isPrivate)
            && KLength() !in hm && KMd5() !in hm
  {
  }

  lemma {:induction false} InfoBack(i: Info)
    ensures InfoFrom(InfoTo(i)) == Ok(i)
  {
    SplitJoin(i.pieces);
    InfoEntries(i);
    OtherEntryKept(InfoPart(i), i.fileInfo, KPieceLength());
    OtherEntryKept(InfoPart(i), i.fileInfo, KPieces());
    OtherEntryKept(InfoPart(i), i.fileInfo, KPrivate());
    ElemBack(None, None, i.isPrivate);
    FileInfoBack(InfoPart(i), i.fileInfo);
  }

  /** What survives: everything but the creation date and the author. */
  function Strip(m: MetaInfo): MetaInfo {
    m.(creationDate := None, createdBy := None)
  }

  /** An entry after one more optional insertion. */
  function Layer(key: Text, k: Text, v: Option<BencodeT>, below: Option<BencodeT>): Option<BencodeT> {
    if key == k && v.Some? then v else below
  }

  /** The entry `key` of the file's dictionary, insertion by insertion. */
  function MetaLayers(m: MetaInfo, key: Text): Option<BencodeT> {
    Layer(key, KEncoding(), OptText(m.encoding),
      Layer(key, KCreatedByOut(), OptText(m.createdBy),
        Layer(key, KComment(), OptText(m.comment),
          Layer(key, KCreationDateOut(), OptInt(m.creationDate),
            Layer(key, KAnnounce(), OptText(m.announce),
              Layer(key, KAnnounceList(), OptList(m.announceList),
                Layer(key, KInfo(), Some(InfoTo(m.info)), None)))))))
  }

  lemma {:induction false} MetaEntry(m: MetaInfo, key: Text)
    ensures Entry(MetaTo(m).entries, key) == MetaLayers(m, key)
  {
    var h0 := map[KInfo() := InfoTo(m.info)];
    var h1 := Put(h0, KAnnounceList(), OptList(m.announceList));
    var h2 := Put(h1, KAnnounce(), OptText(m.announce));
    var h3 := Put(h2, KCreationDateOut(), OptInt(m.creationDate));
    var h4 := Put(h3, KComment(), OptText(m.comment));
    var h5 := Put(h4, KCreatedByOut(), OptText(m.createdBy));
    PutEntry(h0, KAnnounceList(), OptList(m.announceList), key);
    PutEntry(h1, KAnnounce(), OptText(m.announce), key);
    PutEntry(h2, KCreationDateOut(), OptInt(m.creationDate), key);
    PutEntry(h3, KComment(), OptText(m.comment), key);
    PutEntry(h4, KCreatedByOut(), OptText(m.createdBy), key);
    PutEntry(h5, KEncoding(), OptText(m.encoding), key);
  }

  lemma {:induction false} MetaLookups(m: MetaInfo)
    ensures var hm := MetaTo(m).entries;
            && Entry(hm, KInfo()) == Some(InfoTo(m.info))
            && Entry(hm, KAnnounce()) == OptText(m.announce)
            && Entry(hm, KAnnounceList()) == OptList(m.announceList)
            && Entry(hm, KCreationDateIn()) == None
            && Entry(hm, KComment()) == OptText(m.comment)
            && Entry(hm, KCreatedByIn()) == None
            && Entry(hm, KEncoding()) == OptText(m.encoding)
  {
    MetaEntry(m, KInfo());
    MetaEntry(m, KAnnounce());
    MetaEntry(m, KAnnounceList());
    MetaEntry(m, KCreationDateIn());
    MetaEntry(m, KComment());
    MetaEntry(m, KCreatedByIn());
    MetaEntry(m, KEncoding());
  }

  /** The dictionary of a torrent file converts back to the same contents, less the creation date and
      the author: `created_by` and `creation_date` are written, but "created by" and "creation date" read. */
  lemma {:induction false} MetaBack(m: MetaInfo)
    ensures MetaFrom(MetaTo(m)) == Ok(Strip(m))
  {
    InfoBack(m.info);
    MetaLookups(m);
    ElemBack(m.announce, None, None);
    ElemBack(m.comment, None, None);
    ElemBack(m.encoding, None, None);
    if m.announceList.Some? {
      WrappedBack(m.announceList.value);
    }
  }

  // -------------------------------------------------------- through the bytes

  /** Every integer of the file is one the parser can read. */
  ghost predicate ReadableInts(m: MetaInfo) {
    && CanonicalInt(m.info.pieceLength)
    && FileInts(m.info.fileInfo)
    && (m.creationDate.Some? ==> CanonicalInt(m.creationDate.value))
  }

  ghost predicate AllInts(hm: Entries) {
    forall k :: k in hm ==> IntsCanonical(hm[k])
  }

  ghost predicate AllFixed(hm: Entries) {
    forall k :: k in hm ==> Norm(hm[k]) == hm[k]
  }

  ghost predicate IntsOf(v: Option<BencodeT>) {
    v.Some? ==> IntsCanonical(v.value)
  }

  ghost predicate FixedOf(v: Option<BencodeT>) {
    v.Some? ==> Norm(v.value) == v.value
  }

  /** One more insertion under a new key, seen from the integers and the raw bytes inside. */
  lemma {:induction false} PutParts(hm: Entries, key: Text, v: Option<BencodeT>)
    requires key !in hm
    ensures AllInts(Put(hm, key, v)) <==> AllInts(hm) && IntsOf(v)
    ensures AllFixed(hm) && FixedOf(v) ==> AllFixed(Put(hm, key, v))
  {
    var out := Put(hm, key, v);
    if v.Some? {
      assert out[key] == v.value;
      assert forall k :: k in hm ==> k in out && out[k] == hm[k];
    }
  }

  lemma {:induction false} LeafParts(text: Option<Text>, n: Option<int>, flag: Option<bool>, ts: Option<seq<Text>>)
    ensures IntsOf(OptText(text)) && FixedOf(OptText(text))
    ensures FixedOf(OptInt(n)) && (IntsOf(OptInt(n)) <==> (n.Some? ==> CanonicalInt(n.value)))
    ensures IntsOf(OptBool(flag)) && FixedOf(OptBool(flag))
    ensures IntsOf(OptList(ts)) && FixedOf(OptList(ts))
  {
    if ts.Some? {
      forall i | 0 <= i < |ts.value|
        ensures Norm(WrappedTexts(ts.value)[i]) == WrappedTexts(ts.value)[i]
        ensures IntsCanonical(WrappedTexts(ts.value)[i])
      {
        assert Texts([ts.value[i]]) == [Str(ts.value[i])];
        TextsParts([ts.value[i]]);
      }
      assert NormItems(WrappedTexts(ts.value)) == WrappedTexts(ts.value);
    }
  }

  lemma {:induction false} TextsParts(ts: seq<Text>)
    ensures IntsCanonical(List(Texts(ts))) && Norm(List(Texts(ts))) == List(Texts(ts))
  {
    assert NormItems(Texts(ts)) == Texts(ts);
  }

  lemma {:induction false} MIFileParts(f: MIFile)
    ensures IntsCanonical(MIFileTo(f)) <==> CanonicalInt(f.length)
    ensures Norm(MIFileTo(f)) == MIFileTo(f)
  {
    var h0: Entries := map[];
    var h1 := Put(h0, KLength(), Some(Integer(f.length)));
    var h2 := Put(h1, KMd5(), OptText(f.md5sum));
    PutParts(h0, KLength(), Some(Integer(f.length)));
    PutParts(h1, KMd5(), OptText(f.md5sum));
    PutParts(h2, KPath(), Some(List(Texts(f.path))));
    LeafParts(f.md5sum, None, None, None);
    TextsParts(f.path);
    var hm := Put(h2, KPath(), Some(List(Texts(f.path))));
    assert map[KLength() := Integer(f.length)] == h1;
    assert MIFileTo(f) == Dictionary(hm);
    DictionaryParts(hm);
  }

  lemma {:induction false} FilesParts(fs: seq<MIFile>)
    ensures IntsCanonical(List(FilesTo(fs))) <==> forall i :: 0 <= i < |fs| ==> CanonicalInt(fs[i].length)
    ensures Norm(List(FilesTo(fs))) == List(FilesTo(fs))
  {
    forall i | 0 <= i < |fs|
      ensures IntsCanonical(FilesTo(fs)[i]) <==> CanonicalInt(fs[i].length)
      ensures Norm(FilesTo(fs)[i]) == FilesTo(fs)[i]
    {
      MIFileParts(fs[i]);
    }
    assert NormItems(FilesTo(fs)) == FilesTo(fs);
  }

  ghost predicate FileInts(f: FileInfo) {
    match f
    case SingleFile(_, length, _) => CanonicalInt(length)
    case MultiFile(_, files) => forall i :: 0 <= i < |files| ==> CanonicalInt(files[i].length)
  }

  lemma {:induction false} FileInfoParts(hm: Entries, f: FileInfo)
    requires KName() !in hm && KLength() !in hm && KMd5() !in hm && KFiles() !in hm
    ensures AllInts(FileInfoTo(hm, f)) <==> AllInts(hm) && FileInts(f)
    ensures AllFixed(hm) ==> AllFixed(FileInfoTo(hm, f))
  {
    var h1 := Put(hm, KName(), Some(Str(f.name)));
    PutParts(hm, KName(), Some(Str(f.name)));
    match f
    case SingleFile(_, length, md5sum) =>
      var h2 := Put(h1, KLength(), Some(Integer(length)));
      PutParts(h1, KLength(), Some(Integer(length)));
      PutParts(h2, KMd5(), OptText(md5sum));
      LeafParts(md5sum, None, None, None);
    case MultiFile(_, files) =>
      PutParts(h1, KFiles(), Some(List(FilesTo(files))));
      FilesParts(files);
  }

  lemma {:induction false} InfoPartParts(i: Info)
    ensures var hm := InfoPart(i);
            && KName() !in hm && KLength() !in hm && KMd5() !in hm && KFiles() !in hm
            && (AllInts(hm) <==> CanonicalInt(i.pieceLength))
            && (!ValidUtf8(JoinHashes(i.pieces)) ==> AllFixed(hm))
  {
    var h0: Entries := map[];
    var joined := Some(ByteString(JoinHashes(i.pieces)));
    var h1 := Put(h0, KPieceLength(), Some(Integer(i.pieceLength)));
    var h2 := Put(h1, KPieces(), joined);
    PutParts(h0, KPieceLength(), Some(Integer(i.pieceLength)));
    PutParts(h1, KPieces(), joined);
    PutParts(h2, KPrivate(), OptBool(i.isPrivate));
    LeafParts(None, None, i.isPrivate, None);
    assert map[KPieceLength() := Integer(i.pieceLength)] == h1;
    assert InfoPart(i) == Put(h2, KPrivate(), OptBool(i.isPrivate));
  }

  lemma {:induction false} InfoParts(i: Info)
    ensures IntsCanonical(InfoTo(i)) <==> CanonicalInt(i.pieceLength) && FileInts(i.fileInfo)
    ensures !ValidUtf8(JoinHashes(i.pieces)) ==> Norm(InfoTo(i)) == InfoTo(i)
  {
    InfoPartParts(i);
    FileInfoParts(InfoPart(i), i.fileInfo);
    DictionaryParts(FileInfoTo(InfoPart(i), i.fileInfo));
  }

  lemma {:induction false} DictionaryParts(hm: Entries)
    ensures IntsCanonical(Dictionary(hm)) <==> AllInts(hm)
    ensures AllFixed(hm) ==> Norm(Dictionary(hm)) == Dictionary(hm)
  {
  }

  lemma {:induction false} NormEntry(hm: Entries, key: Text)
    ensures Norm(Dictionary(hm)).Dictionary?
    ensures Entry(Norm(Dictionary(hm)).entries, key)
            == match Entry(hm, key) case Some(v) => Some(Norm(v)) case None => None
  {
  }

  /** Joined hashes that are valid UTF-8 come back as text, and the info is refused. */
  lemma {:induction false} InfoRefused(i: Info)
    requires ValidUtf8(JoinHashes(i.pieces))
    ensures InfoFrom(Norm(InfoTo(i))) == Err
  {
    var hm := FileInfoTo(InfoPart(i), i.fileInfo);
    InfoEntries(i);
    OtherEntryKept(InfoPart(i), i.fileInfo, KPieceLength());
    OtherEntryKept(InfoPart(i), i.fileInfo, KPieces());
    NormEntry(hm, KPieceLength());
    NormEntry(hm, KPieces());
  }

  /** The file's dictionary after its first four insertions. */
  function MetaStart(m: MetaInfo): Entries {
    Put(Put(MetaHead(m), KAnnounce(), OptText(m.announce)), KCreationDateOut(), OptInt(m.creationDate))
  }

  function MetaHead(m: MetaInfo): Entries {
    Put(map[KInfo() := InfoTo(m.info)], KAnnounceList(), OptList(m.announceList))
  }

  lemma {:induction false} MetaHeadParts(m: MetaInfo)
    ensures AllInts(MetaHead(m)) <==> IntsCanonical(InfoTo(m.info))
    ensures Norm(InfoTo(m.info)) == InfoTo(m.info) ==> AllFixed(MetaHead(m))
  {
    var h: Entries := map[];
    var h0 := Put(h, KInfo(), Some(InfoTo(m.info)));
    assert map[KInfo() := InfoTo(m.info)] == h0;
    LeafParts(None, None, None, m.announceList);
    PutParts(h, KInfo(), Some(InfoTo(m.info)));
    PutParts(h0, KAnnounceList(), OptList(m.announceList));
  }

  lemma {:induction false} MetaHeadFresh(m: MetaInfo, key: Text)
    requires key != KInfo() && key != KAnnounceList()
    ensures key !in MetaHead(m)
  {
  }

  lemma {:induction false} MetaStartParts(m: MetaInfo)
    ensures AllInts(MetaStart(m)) <==> ReadableInts(m)
    ensures !ValidUtf8(JoinHashes(m.info.pieces)) ==> AllFixed(MetaStart(m))
  {
    var h1 := MetaHead(m);
    var h2 := Put(h1, KAnnounce(), OptText(m.announce));
    MetaHeadParts(m);
    MetaHeadFresh(m, KAnnounce());
    MetaHeadFresh(m, KCreationDateOut());
    InfoParts(m.info);
    LeafParts(m.announce, m.creationDate, None, None);
    PutParts(h1, KAnnounce(), OptText(m.announce));
    PutParts(h2, KCreationDateOut(), OptInt(m.creationDate));
  }

  lemma {:induction false} MetaStartFresh(m: MetaInfo, key: Text)
    requires key != KInfo() && key != KAnnounceList() && key != KAnnounce() && key != KCreationDateOut()
    ensures key !in MetaStart(m)
  {
  }

  lemma {:induction false} MetaParts(m: MetaInfo)
    ensures IntsCanonical(MetaTo(m)) <==> ReadableInts(m)
    ensures !ValidUtf8(JoinHashes(m.info.pieces)) ==> Norm(MetaTo(m)) == MetaTo(m)
  {
    var h3 := MetaStart(m);
    var h4 := Put(h3, KComment(), OptText(m.comment));
    var h5 := Put(h4, KCreatedByOut(), OptText(m.createdBy));
    MetaStartParts(m);
    MetaStartFresh(m, KComment());
    MetaStartFresh(m, KCreatedByOut());
    MetaStartFresh(m, KEncoding());
    LeafParts(m.comment, None, None, None);
    LeafParts(m.createdBy, None, None, None);
    LeafParts(m.encoding, None, None, None);
    PutParts(h3, KComment(), OptText(m.comment));
    PutParts(h4, KCreatedByOut(), OptText(m.createdBy));
    PutParts(h5, KEncoding(), OptText(m.encoding));
    DictionaryParts(Put(h5, KEncoding(), OptText(m.encoding)));
  }

  lemma {:induction false} BadInfo(hm: Entries)
    requires Entry(hm, KInfo()).Some? && InfoFrom(Entry(hm, KInfo()).value) == Err
    ensures MetaFrom(Dictionary(hm)) == Err
  {
  }

  lemma {:induction false} MetaRefused(m: MetaInfo)
    requires ValidUtf8(JoinHashes(m.info.pieces))
    ensures MetaFrom(Norm(MetaTo(m))) == Err
  {
    MetaLookups(m);
    NormEntry(MetaTo(m).entries, KInfo());
    InfoRefused(m.info);
    BadInfo(Norm(MetaTo(m)).entries);
  }

  /** Writing a torrent file and reading it back, for every contents whose numbers fit 64 bits: an integer the
      parser cannot read stops the thread, hashes that happen to be text are refused, and otherwise
      everything comes back but the creation date and the author. */
  lemma {:induction false} ReadBack(m: MetaInfo)
    ensures Fits(MetaTo(m)) ==>
              Read(Encode(MetaTo(m))) ==
              if !ReadableInts(m) then Panic
              else if ValidUtf8(JoinHashes(m.info.pieces)) then Err
              else Ok(Strip(m))
  {
    if Fits(MetaTo(m)) {
      ReadBackFits(m);
    }
  }

  lemma {:induction false} ParsedBack(m: MetaInfo)
    requires Fits(MetaTo(m))
    ensures Parse(Encode(MetaTo(m))) == if ReadableInts(m) then Ok(Norm(MetaTo(m))) else Panic
  {
    MetaParts(m);
    DecodeEncode(MetaTo(m), []);
    assert Encode(MetaTo(m)) + [] == Encode(MetaTo(m));
  }

  lemma {:induction false} ReadBackFits(m: MetaInfo)
    requires Fits(MetaTo(m))
    ensures Read(Encode(MetaTo(m))) ==
            if !ReadableInts(m) then Panic
            else if ValidUtf8(JoinHashes(m.info.pieces)) then Err
            else Ok(Strip(m))
  {
    ParsedBack(m);
    if ValidUtf8(JoinHashes(m.info.pieces)) {
      MetaRefused(m);
    } else {
      MetaParts(m);
      MetaBack(m);
    }
  }

  /** The contents read back are the contents written exactly under these conditions; and whenever the
      file can be read at all, the bytes hashed into the torrent's identity are preserved. */
  lemma {:induction false} ReadBackExactly(m: MetaInfo)
    ensures Fits(MetaTo(m)) ==>
              (Read(Encode(MetaTo(m))) == Ok(m)
               <==> ReadableInts(m) && !ValidUtf8(JoinHashes(m.info.pieces))
                    && m.creationDate.None? && m.createdBy.None?)
    ensures Fits(MetaTo(m)) && Read(Encode(MetaTo(m))).Ok? ==>
              Encode(InfoTo(Read(Encode(MetaTo(m))).value.info)) == Encode(InfoTo(m.info))
  {
    ReadBack(m);
  }

  // ------------------------------------------------------------------- loops

  /** The loop of `split_hashes`. */
  method SplitHashesLoop(vec: seq<byte>) returns (r: Outcome<seq<Hash>>)
    ensures r == SplitHashes(vec)
  {
    if |vec| % 20 != 0 {
      return Err;
    }
    var out: seq<Hash> := [];
    var i := 0;
    assert vec[0..] == vec;
    while i < |vec| / 20
      invariant 0 <= i <= |vec| / 20
      invariant Chunks(vec) == out + Chunks(vec[20 * i..])
    {
      var a: Hash := vec[i * 20..(i + 1) * 20];
      assert vec[20 * i..][..20] == a && vec[20 * i..][20..] == vec[20 * (i + 1)..];
      assert out + ([a] + Chunks(vec[20 * (i + 1)..])) == out + [a] + Chunks(vec[20 * (i + 1)..]);
      out := out + [a];
      i := i + 1;
    }
    assert vec[20 * i..] == [] && out + [] == out;
    return Ok(out);
  }

  /** The loop of `hashes_to_string`. */
  method HashesToString(hashes: seq<Hash>) returns (r: BencodeT)
    ensures r == ByteString(JoinHashes(hashes))
  {
    var vec: seq<byte> := [];
    var i := 0;
    assert hashes[0..] == hashes;
    while i < |hashes|
      invariant 0 <= i <= |hashes|
      invariant vec + JoinHashes(hashes[i..]) == JoinHashes(hashes)
    {
      assert hashes[i..][1..] == hashes[i + 1..];
      vec := vec + hashes[i];
      i := i + 1;
    }
    assert vec + [] == vec;
    r := ByteString(vec);
  }

  /** The loop of `checkVec`. */
  method CheckVecLoop<T>(vec: seq<BencodeT>, from: BencodeT -> Outcome<T>, convert: BencodeT -> Outcome<T>)
    returns (r: Outcome<seq<T>>)
    ensures r == CheckVec(vec, from, convert)
  {
    var out: seq<T> := [];
    var i := 0;
    ghost var all := CheckVec(vec, from, convert);
    assert vec[0..] == vec && (all.Ok? ==> [] + all.value == all.value);
    while i < |vec|
      invariant 0 <= i <= |vec|
      invariant all == match CheckVec(vec[i..], from, convert)
                       case Ok(rest) => Ok(out + rest)
                       case Err => Err
                       case Panic => Panic
    {
      assert vec[i..][1..] == vec[i + 1..];
      var elem := from(vec[i]);
      if elem.Err? {
        elem := convert(vec[i]);
      }
      match elem {
        case Ok(v) =>
          ghost var tail := CheckVec(vec[i + 1..], from, convert);
          assert tail.Ok? ==> out + ([v] + tail.value) == out + [v] + tail.value;
          out := out + [v];
        case Err => return Err;
        case Panic => return Panic;
      }
      i := i + 1;
    }
    assert out + [] == out;
    return Ok(out);
  }
}
