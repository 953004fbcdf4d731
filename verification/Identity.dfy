/** A torrent's identity is the hash of its encoded info (src/bittorrent/metainfo.rs, `info_hash`): whether encoding the
    info that was read gives the bytes of the dictionary it was read from. */
module InfoIdentity {
  import opened Outcomes
  import opened Utf8
  import opened Bencode
  import opened RoundTrip
  import opened MetaInfoFile
  import opened MetaInfoRewrite

  // Which entries are read. Any other one is dropped.
  function FileKeys(): set<Text> {
    {KLength(), KMd5(), KPath()}
  }

  function SharedKeys(): set<Text> {
    {KPieceLength(), KPieces(), KPrivate(), KName()}
  }

  /** A dictionary with the entries of a file and no others. */
  predicate PlainFile(b: BencodeT) {
    b.Dictionary? && b.entries.Keys <= FileKeys()
  }

  ghost predicate PlainFiles(items: seq<BencodeT>) {
    forall i :: 0 <= i < |items| ==> PlainFile(items[i])
  }

  /** A dictionary with the entries of an info and no others: in particular no files beside a length, and no checksum
      beside the files. */
  ghost predicate PlainInfo(b: BencodeT) {
    && b.Dictionary?
    && if KLength() in b.entries then b.entries.Keys <= SharedKeys() + {KLength(), KMd5()}
       else
         && b.entries.Keys <= SharedKeys() + {KFiles()}
         && (KFiles() in b.entries && b.entries[KFiles()].List? ==> PlainFiles(b.entries[KFiles()].items))
  }

  lemma {:induction false} SameEntries(a: Entries, b: Entries)
    requires forall k: Text :: Entry(a, k) == Entry(b, k)
    ensures a == b
  {
    forall k: Text ensures (k in a <==> k in b) && (k in a ==> a[k] == b[k]) {
      assert Entry(a, k) == Entry(b, k);
    }
  }

  // --------------------------------------------------------------- one file

  /** The entry `key` of a file's dictionary, insertion by insertion. */
  lemma {:induction false} FileEntry(f: MIFile, key: Text)
    ensures Entry(MIFileTo(f).entries, key)
            == Layer(key, KPath(), Some(List(Texts(f.path))),
                 Layer(key, KMd5(), OptText(f.md5sum), Layer(key, KLength(), Some(Integer(f.length)), None)))
  {
    var h1 := map[KLength() := Integer(f.length)];
    PutEntry(h1, KMd5(), OptText(f.md5sum), key);
    PutEntry(Put(h1, KMd5(), OptText(f.md5sum)), KPath(), Some(List(Texts(f.path))), key);
  }

  /** Texts that were read are written as they were. */
  lemma {:induction false} TextsKept(items: seq<BencodeT>)
    ensures CheckVec(items, TextFrom, TextFrom).Ok? ==> Texts(CheckVec(items, TextFrom, TextFrom).value) == items
    decreases |items|
  {
    if items != [] && CheckVec(items, TextFrom, TextFrom).Ok? {
      TextsKept(items[1..]);
      var ts := CheckVec(items, TextFrom, TextFrom).value;
      assert ts[1..] == CheckVec(items[1..], TextFrom, TextFrom).value;
      assert Texts(ts) == [Str(ts[0])] + Texts(ts[1..]);
      assert items == [items[0]] + items[1..];
    }
  }

  /** The entries of a file that are read, as they stand in its dictionary. */
  lemma {:induction false} FileEntriesRead(b: BencodeT)
    requires MIFileFrom(b).Ok?
    ensures var f := MIFileFrom(b).value;
            && b.Dictionary? && Entry(b.entries, KLength()) == Some(Integer(f.length))
            && Entry(b.entries, KMd5()) == OptText(f.md5sum) && Entry(b.entries, KPath()) == Some(List(Texts(f.path)))
  {
    OptionalRead(Entry(b.entries, KMd5()));
    TextsKept(b.entries[KPath()].items);
  }

  lemma {:induction false} FileKeptExactly(b: BencodeT)
    requires MIFileFrom(b).Ok?
    ensures MIFileTo(MIFileFrom(b).value) == b <==> PlainFile(b)
  {
    var f := MIFileFrom(b).value;
    var out := MIFileTo(f).entries;
    FileEntriesRead(b);
    forall k: Text ensures Entry(out, k) == if k in FileKeys() then Entry(b.entries, k) else None {
      FileEntry(f, k);
    }
    if PlainFile(b) {
      forall k: Text ensures Entry(out, k) == Entry(b.entries, k) {
      }
      SameEntries(out, b.entries);
    } else {
      var k :| k in b.entries && k !in FileKeys();
      assert Entry(out, k) != Entry(b.entries, k);
    }
  }

  lemma {:induction false} FilesKeptExactly(items: seq<BencodeT>)
    requires CheckVec(items, MIFileFrom, MIFileFrom).Ok?
    ensures FilesTo(CheckVec(items, MIFileFrom, MIFileFrom).value) == items <==> PlainFiles(items)
    decreases |items|
  {
    if items != [] {
      var fs := CheckVec(items, MIFileFrom, MIFileFrom).value;
      FileKeptExactly(items[0]);
      FilesKeptExactly(items[1..]);
      assert fs[1..] == CheckVec(items[1..], MIFileFrom, MIFileFrom).value;
      FirstAndRest(fs, items);
    }
  }

  lemma {:induction false} FirstAndRest(fs: seq<MIFile>, items: seq<BencodeT>)
    requires fs != [] && items != []
    ensures FilesTo(fs) == items <==> MIFileTo(fs[0]) == items[0] && FilesTo(fs[1..]) == items[1..]
    ensures PlainFiles(items) <==> PlainFile(items[0]) && PlainFiles(items[1..])
  {
    assert FilesTo(fs) == [MIFileTo(fs[0])] + FilesTo(fs[1..]);
    assert items == [items[0]] + items[1..];
  }

  // --------------------------------------------------------------- the info

  /** The entry `key` of the part of an info that does not depend on the files. */
  function SharedEntry(i: Info, key: Text): Option<BencodeT> {
    Layer(key, KName(), Some(Str(i.fileInfo.name)),
      Layer(key, KPrivate(), OptBool(i.isPrivate),
        Layer(key, KPieces(), Some(ByteString(JoinHashes(i.pieces))),
          Layer(key, KPieceLength(), Some(Integer(i.pieceLength)), None))))
  }

  lemma {:induction false} SharedPart(i: Info, key: Text)
    ensures Entry(Put(InfoPart(i), KName(), Some(Str(i.fileInfo.name))), key) == SharedEntry(i, key)
  {
    var h0: Entries := map[];
    var h1 := Put(h0, KPieceLength(), Some(Integer(i.pieceLength)));
    var h2 := Put(h1, KPieces(), Some(ByteString(JoinHashes(i.pieces))));
    assert map[KPieceLength() := Integer(i.pieceLength)] == h1;
    PutEntry(h0, KPieceLength(), Some(Integer(i.pieceLength)), key);
    PutEntry(h1, KPieces(), Some(ByteString(JoinHashes(i.pieces))), key);
    PutEntry(h2, KPrivate(), OptBool(i.isPrivate), key);
    PutEntry(InfoPart(i), KName(), Some(Str(i.fileInfo.name)), key);
  }

  lemma {:induction false} InfoEntry(i: Info, key: Text)
    ensures Entry(InfoTo(i).entries, key) ==
            match i.fileInfo
            case SingleFile(_, length, md5sum) =>
              Layer(key, KMd5(), OptText(md5sum), Layer(key, KLength(), Some(Integer(length)), SharedEntry(i, key)))
            case MultiFile(_, files) => Layer(key, KFiles(), Some(List(FilesTo(files))), SharedEntry(i, key))
  {
    var h := Put(InfoPart(i), KName(), Some(Str(i.fileInfo.name)));
    SharedPart(i, key);
    match i.fileInfo
    case SingleFile(_, length, md5sum) =>
      PutEntry(h, KLength(), Some(Integer(length)), key);
      PutEntry(Put(h, KLength(), Some(Integer(length))), KMd5(), OptText(md5sum), key);
    case MultiFile(_, files) => PutEntry(h, KFiles(), Some(List(FilesTo(files))), key);
  }

  /** The shared entries that are read, as they stand in the dictionary. */
  lemma {:induction false} SharedRead(b: BencodeT, key: Text)
    requires InfoFrom(b).Ok?
    ensures b.Dictionary?
    ensures SharedEntry(InfoFrom(b).value, key) == if key in SharedKeys() then Entry(b.entries, key) else None
  {
    var i, hm := InfoFrom(b).value, b.entries;
    HashesRead(hm[KPieces()].bytes);
    OptionalRead(Entry(hm, KPrivate()));
    assert Entry(hm, KPieceLength()) == Some(Integer(i.pieceLength));
    assert Entry(hm, KPieces()) == Some(ByteString(JoinHashes(i.pieces)));
    assert Entry(hm, KPrivate()) == OptBool(i.isPrivate);
    assert Entry(hm, KName()) == Some(Str(i.fileInfo.name));
  }

  /** One file: everything is written as it stood, entries under other keys apart. */
  lemma {:induction false} SingleEntry(b: BencodeT, key: Text)
    requires InfoFrom(b).Ok? && b.Dictionary? && KLength() in b.entries
    ensures Entry(InfoTo(InfoFrom(b).value).entries, key)
            == if key in SharedKeys() + {KLength(), KMd5()} then Entry(b.entries, key) else None
  {
    var i, hm := InfoFrom(b).value, b.entries;
    InfoEntry(i, key);
    SharedRead(b, key);
    OptionalRead(Entry(hm, KMd5()));
    assert Entry(hm, KLength()) == Some(Integer(i.fileInfo.length));
  }

  /** Several files: so is everything but the files, which are written as they are read. */
  lemma {:induction false} MultiEntry(b: BencodeT, key: Text)
    requires InfoFrom(b).Ok? && b.Dictionary? && KLength() !in b.entries
    ensures InfoFrom(b).value.fileInfo.MultiFile?
    ensures Entry(InfoTo(InfoFrom(b).value).entries, key)
            == if key == KFiles() then Some(List(FilesTo(InfoFrom(b).value.fileInfo.files)))
               else if key in SharedKeys() then Entry(b.entries, key)
               else None
  {
    InfoEntry(InfoFrom(b).value, key);
    SharedRead(b, key);
  }

  lemma {:induction false} SingleKept(b: BencodeT)
    requires InfoFrom(b).Ok? && b.Dictionary? && KLength() in b.entries
    ensures InfoTo(InfoFrom(b).value) == b <==> PlainInfo(b)
  {
    var out, keys := InfoTo(InfoFrom(b).value).entries, SharedKeys() + {KLength(), KMd5()};
    forall k: Text ensures Entry(out, k) == if k in keys then Entry(b.entries, k) else None {
      SingleEntry(b, k);
    }
    if b.entries.Keys <= keys {
      forall k: Text ensures Entry(out, k) == Entry(b.entries, k) {
      }
      SameEntries(out, b.entries);
    } else {
      var k :| k in b.entries && k !in keys;
      assert Entry(out, k) != Entry(b.entries, k);
    }
  }

  lemma {:induction false} MultiKept(b: BencodeT)
    requires InfoFrom(b).Ok? && b.Dictionary? && KLength() !in b.entries
    ensures InfoTo(InfoFrom(b).value) == b <==> PlainInfo(b)
  {
    var i, hm, keys := InfoFrom(b).value, b.entries, SharedKeys() + {KFiles()};
    var out := InfoTo(i).entries;
    FilesKeptExactly(hm[KFiles()].items);
    forall k: Text
      ensures Entry(out, k) == if k == KFiles() then Some(List(FilesTo(i.fileInfo.files)))
                               else if k in SharedKeys() then Entry(hm, k) else None
    {
      MultiEntry(b, k);
    }
    assert Entry(hm, KFiles()) == Some(List(hm[KFiles()].items));
    if !PlainFiles(hm[KFiles()].items) {
      assert Entry(out, KFiles()) != Entry(hm, KFiles());
    } else if hm.Keys <= keys {
      forall k: Text ensures Entry(out, k) == Entry(hm, k) {
      }
      SameEntries(out, hm);
    } else {
      var k :| k in hm && k !in keys;
      assert Entry(out, k) != Entry(hm, k);
    }
  }

  /** The info that was read is written as it stood exactly when neither it nor a file in it has entries under other
      keys. */
  lemma {:induction false} InfoKeptExactly(b: BencodeT)
    requires InfoFrom(b).Ok?
    ensures InfoTo(InfoFrom(b).value) == b <==> PlainInfo(b)
  {
    if KLength() in b.entries {
      SingleKept(b);
    } else {
      MultiKept(b);
    }
  }

  /** So is what is hashed into the torrent's identity: the bytes of the dictionary that was read exactly when it has no
      such entries. Otherwise the identity is that of another torrent. */
  lemma {:induction false} IdentityExactly(b: BencodeT)
    requires Canonical(b) && InfoFrom(b).Ok?
    ensures Encode(InfoTo(InfoFrom(b).value)) == Encode(b) <==> PlainInfo(b)
  {
    var out := InfoTo(InfoFrom(b).value);
    InfoKeptExactly(b);
    InfoRead(b);
    if Encode(out) == Encode(b) {
      PrefixFree(out, b, [], []);
    }
  }
}
