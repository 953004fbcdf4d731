/** Reading a torrent file, writing what was read and reading that again (src/bittorrent/metainfo.rs). */
module MetaInfoRewrite {
  import opened Outcomes
  import opened Utf8
  import opened Decimal
  import opened Bencode
  import opened RoundTrip
  import opened MetaInfoFile

  ghost predicate AllCanonical(hm: Entries) {
    forall k :: k in hm ==> |k| < USIZE_LIMIT && Canonical(hm[k])
  }

  ghost predicate CanonicalEntry(v: Option<BencodeT>) {
    v.Some? ==> Canonical(v.value)
  }

  ghost predicate Small(ts: seq<Text>) {
    forall i :: 0 <= i < |ts| ==> |ts[i]| < USIZE_LIMIT
  }

  ghost predicate ItemsCanonical(items: seq<BencodeT>) {
    forall i :: 0 <= i < |items| ==> Canonical(items[i])
  }

  lemma {:induction false} PutCanonical(hm: Entries, key: Text, v: Option<BencodeT>)
    requires AllCanonical(hm) && |key| < USIZE_LIMIT && CanonicalEntry(v)
    ensures AllCanonical(Put(hm, key, v))
  {
  }

  lemma {:induction false} EntryCanonical(hm: Entries, key: Text)
    requires AllCanonical(hm)
    ensures CanonicalEntry(Entry(hm, key))
  {
  }

  /** An optional entry that was read is written as it was. */
  lemma {:induction false} OptionalRead(entry: Option<BencodeT>)
    ensures Elem(entry, TextFrom).Ok? ==> OptText(Elem(entry, TextFrom).value) == entry
    ensures Elem(entry, IntFrom).Ok? ==> OptInt(Elem(entry, IntFrom).value) == entry
    ensures Elem(entry, BoolFrom).Ok? ==> OptBool(Elem(entry, BoolFrom).value) == entry
  {
  }

  /** Texts that were read are not too long, whichever conversion yielded them. */
  lemma {:induction false} TextsRead(items: seq<BencodeT>, convert: BencodeT -> Outcome<Text>)
    requires ItemsCanonical(items)
    requires forall i :: 0 <= i < |items| && convert(items[i]).Ok? ==> |convert(items[i]).value| < USIZE_LIMIT
    ensures CheckVec(items, TextFrom, convert).Ok? ==> Small(CheckVec(items, TextFrom, convert).value)
    decreases |items|
  {
    if items != [] {
      TextsRead(items[1..], convert);
    }
  }

  lemma {:induction false} FirstTextRead(b: BencodeT)
    requires Canonical(b)
    ensures FirstText(b).Ok? ==> |FirstText(b).value| < USIZE_LIMIT
  {
    if b.List? {
      TextsRead(b.items, TextFrom);
    }
  }

  lemma {:induction false} PathRead(items: seq<BencodeT>)
    requires ItemsCanonical(items)
    ensures CheckVec(items, TextFrom, TextFrom).Ok? ==>
              Canonical(List(Texts(CheckVec(items, TextFrom, TextFrom).value)))
  {
    TextsRead(items, TextFrom);
  }

  lemma {:induction false} TrackersRead(hm: Entries)
    requires AllCanonical(hm)
    ensures AnnounceListFrom(hm).Ok? ==> CanonicalEntry(OptList(AnnounceListFrom(hm).value))
  {
    if AnnounceListFrom(hm).Ok? && KAnnounceList() in hm {
      var items := hm[KAnnounceList()].items;
      forall i | 0 <= i < |items| ensures FirstText(items[i]).Ok? ==> |FirstText(items[i]).value| < USIZE_LIMIT {
        FirstTextRead(items[i]);
      }
      TextsRead(items, FirstText);
      WrappedCanonical(AnnounceListFrom(hm).value.value);
    }
  }

  lemma {:induction false} WrappedCanonical(ts: seq<Text>)
    requires Small(ts)
    ensures Canonical(List(WrappedTexts(ts)))
  {
    forall i | 0 <= i < |ts| ensures Canonical(WrappedTexts(ts)[i]) {
      assert Canonical(Str(ts[i]));
    }
  }

  lemma {:induction false} FileRead(b: BencodeT)
    requires Canonical(b)
    ensures MIFileFrom(b).Ok? ==> Canonical(MIFileTo(MIFileFrom(b).value))
  {
    if MIFileFrom(b).Ok? {
      var f, hm := MIFileFrom(b).value, b.entries;
      EntryCanonical(hm, KLength());
      EntryCanonical(hm, KMd5());
      EntryCanonical(hm, KPath());
      OptionalRead(Entry(hm, KMd5()));
      PathRead(hm[KPath()].items);
      FileWritten(f);
    }
  }

  lemma {:induction false} FileWritten(f: MIFile)
    requires CanonicalInt(f.length) && CanonicalEntry(OptText(f.md5sum)) && Canonical(List(Texts(f.path)))
    ensures Canonical(MIFileTo(f))
  {
    var h0: Entries := map[];
    var h1 := Put(h0, KLength(), Some(Integer(f.length)));
    var h2 := Put(h1, KMd5(), OptText(f.md5sum));
    PutCanonical(h0, KLength(), Some(Integer(f.length)));
    PutCanonical(h1, KMd5(), OptText(f.md5sum));
    PutCanonical(h2, KPath(), Some(List(Texts(f.path))));
    assert map[KLength() := Integer(f.length)] == h1;
  }

  lemma {:induction false} FilesRead(items: seq<BencodeT>)
    requires ItemsCanonical(items)
    ensures CheckVec(items, MIFileFrom, MIFileFrom).Ok? ==>
              ItemsCanonical(FilesTo(CheckVec(items, MIFileFrom, MIFileFrom).value))
    decreases |items|
  {
    if items != [] {
      FileRead(items[0]);
      FilesRead(items[1..]);
    }
  }

  lemma {:induction false} FileInfoRead(hm: Entries, base: Entries)
    requires AllCanonical(hm) && AllCanonical(base)
    ensures FileInfoFrom(hm).Ok? ==> AllCanonical(FileInfoTo(base, FileInfoFrom(hm).value))
  {
    if FileInfoFrom(hm).Ok? {
      var f := FileInfoFrom(hm).value;
      var named := Put(base, KName(), Some(Str(f.name)));
      EntryCanonical(hm, KName());
      PutCanonical(base, KName(), Some(Str(f.name)));
      if f.SingleFile? {
        EntryCanonical(hm, KLength());
        EntryCanonical(hm, KMd5());
        OptionalRead(Entry(hm, KMd5()));
        PutCanonical(named, KLength(), Some(Integer(f.length)));
        PutCanonical(Put(named, KLength(), Some(Integer(f.length))), KMd5(), OptText(f.md5sum));
      } else {
        EntryCanonical(hm, KFiles());
        FilesRead(hm[KFiles()].items);
        PutCanonical(named, KFiles(), Some(List(FilesTo(f.files))));
      }
    }
  }

  /** The hashes that were read, joined again, are the bytes they were cut from. */
  lemma {:induction false} HashesRead(vec: seq<byte>)
    ensures SplitHashes(vec).Ok? ==> JoinHashes(SplitHashes(vec).value) == vec
  {
    if |vec| % 20 == 0 {
      JoinSplit(vec);
    }
  }

  lemma {:induction false} InfoPartRead(i: Info)
    requires CanonicalInt(i.pieceLength) && Canonical(ByteString(JoinHashes(i.pieces)))
    ensures AllCanonical(InfoPart(i))
  {
    var h0: Entries := map[];
    var joined := Some(ByteString(JoinHashes(i.pieces)));
    var h1 := Put(h0, KPieceLength(), Some(Integer(i.pieceLength)));
    var h2 := Put(h1, KPieces(), joined);
    PutCanonical(h0, KPieceLength(), Some(Integer(i.pieceLength)));
    PutCanonical(h1, KPieces(), joined);
    PutCanonical(h2, KPrivate(), OptBool(i.isPrivate));
    assert map[KPieceLength() := Integer(i.pieceLength)] == h1;
  }

  lemma {:induction false} InfoRead(b: BencodeT)
    requires Canonical(b)
    ensures InfoFrom(b).Ok? ==> Canonical(InfoTo(InfoFrom(b).value))
  {
    if InfoFrom(b).Ok? {
      var i, hm := InfoFrom(b).value, b.entries;
      EntryCanonical(hm, KPieceLength());
      EntryCanonical(hm, KPieces());
      HashesRead(hm[KPieces()].bytes);
      InfoPartRead(i);
      FileInfoRead(hm, InfoPart(i));
    }
  }

  lemma {:induction false} MetaWritten(m: MetaInfo)
    requires Canonical(InfoTo(m.info)) && CanonicalEntry(OptList(m.announceList))
    requires CanonicalEntry(OptText(m.announce)) && CanonicalEntry(OptInt(m.creationDate))
    requires CanonicalEntry(OptText(m.comment)) && CanonicalEntry(OptText(m.createdBy))
    requires CanonicalEntry(OptText(m.encoding))
    ensures Canonical(MetaTo(m))
  {
    var h0: Entries := map[KInfo() := InfoTo(m.info)];
    var h1 := Put(h0, KAnnounceList(), OptList(m.announceList));
    var h2 := Put(h1, KAnnounce(), OptText(m.announce));
    var h3 := Put(h2, KCreationDateOut(), OptInt(m.creationDate));
    var h4 := Put(h3, KComment(), OptText(m.comment));
    var h5 := Put(h4, KCreatedByOut(), OptText(m.createdBy));
    PutCanonical(h0, KAnnounceList(), OptList(m.announceList));
    PutCanonical(h1, KAnnounce(), OptText(m.announce));
    PutCanonical(h2, KCreationDateOut(), OptInt(m.creationDate));
    PutCanonical(h3, KComment(), OptText(m.comment));
    PutCanonical(h4, KCreatedByOut(), OptText(m.createdBy));
    PutCanonical(h5, KEncoding(), OptText(m.encoding));
  }

  lemma {:induction false} MetaRead(b: BencodeT)
    requires Canonical(b)
    ensures MetaFrom(b).Ok? ==> Canonical(MetaTo(MetaFrom(b).value))
  {
    if MetaFrom(b).Ok? {
      var m, hm := MetaFrom(b).value, b.entries;
      EntryCanonical(hm, KInfo());
      InfoRead(hm[KInfo()]);
      TrackersRead(hm);
      OptionalEntryRead(hm, KAnnounce());
      OptionalEntryRead(hm, KCreationDateIn());
      OptionalEntryRead(hm, KComment());
      OptionalEntryRead(hm, KCreatedByIn());
      OptionalEntryRead(hm, KEncoding());
      MetaWritten(m);
    }
  }

  lemma {:induction false} OptionalEntryRead(hm: Entries, key: Text)
    requires AllCanonical(hm)
    ensures Elem(Entry(hm, key), TextFrom).Ok? ==> CanonicalEntry(OptText(Elem(Entry(hm, key), TextFrom).value))
    ensures Elem(Entry(hm, key), IntFrom).Ok? ==> CanonicalEntry(OptInt(Elem(Entry(hm, key), IntFrom).value))
  {
    OptionalRead(Entry(hm, key));
  }

  /** Whatever file was read, writing its contents gives a file that is read again, with the same contents but for the
      creation date and the author. */
  lemma {:induction false} ReadWriteRead(x: seq<byte>)
    ensures Read(x).Ok? ==> Read(Encode(MetaTo(Read(x).value))) == Ok(Strip(Read(x).value))
  {
    if Read(x).Ok? {
      var m := Read(x).value;
      DecodedIsCanonical(x);
      MetaRead(Parse(x).value);
      CanonicalFits(MetaTo(m));
      RoundTripExactly(MetaTo(m), []);
      assert Encode(MetaTo(m)) + [] == Encode(MetaTo(m));
      MetaBack(m);
    }
  }
}
