# Verified model of a BitTorrent client

This project models the state-and-arithmetic core of a BitTorrent client written in Rust and proves what that core
promises. A panic of the Rust program (an index out of range, `unwrap` on nothing, an arithmetic overflow in a debug
build) is a third outcome beside success and error: `Outcome` is `Ok`, `Err` or `Panic`. Objects whose methods change
their fields are classes; each of their methods is proved against a function on values, and the properties are
proved about those functions. No proof rests on automatic induction: every lemma turns it off.

| files | what they cover |
|---|---|
| `Markers`, `Blocks`, `Torrent` | the Begin/End marker lists that record which bytes of a piece have arrived, and the object that edits them |
| `FileMap`, `FileEnds`, `Neighbours`, `Storage` | a piece range split over the files laid end to end, the block reader and writer, what they do past the ends of files and to other blocks, and what a run of writes leaves on disk |
| `Utf8`, `Decimal`, `Bencode`, `RoundTrip`, `Codec` | the bencode printer and parser of BEP 3, as functions with their theorems and as the loops that implement them |
| `MetaInfo`, `Rewrite`, `Identity` | the typed contents of a .torrent file over bencoding, written and read, and read, written and read again; when a torrent's identity survives |
| `PieceQueue`, `Rate`, `Scheduler`, `Runtime`, `Peers`, `Requests` | the rarest-first queue, the sliding-window counter, outstanding requests, the status machine, the ranking of peers, choking and the request loop |
| `Wire`, `PeerObject` | the peer wire messages of BEP 3, built and parsed |
| `Protocol`, `ConnectionObject`, `Serving`, `Controller`, `ControllerObject`, `System`, `Runs`, `Batch`, `Asking` | workers and controller as a step system with one queue of reports per peer, which messages stop a worker, runs that happen, and what the request loop finds in every reachable state |
| `Timers`, `StateFold` | the timing wheel and the web server's view of the torrents |

The hardest results, and where they are:

* Byte sets and marker lists: a write adds exactly its bytes to what is held, the list is a canonical form, so
  the order and repetition of partial blocks does not matter (`Blocks.OrderDoesNotMatter`), and the early-exit scan lets
  a block through exactly when all of its bytes were written (`Blocks.ReadGate`).
* The parser's image is exactly the set of canonical values, and the printer is prefix-free on it
  (`RoundTrip.ImageExactly`, `RoundTrip.PrefixFree`); which contents of a .torrent file come back, for all of them
  (`MetaInfoFile.ReadBackExactly`).
* For every run of workers and controller, each peer's undelivered reports lead from the controller's record to the
  worker's own, and the three collections of peers never disagree (`PeerSystem.RunInv`).
* `PieceQueues.RunRefines`, `Scheduler.RunConsistent` and `Requests.MakeRequests`: the queue stands for holder counts; every
  piece is queued, outstanding or released by what happened so far, and handed out at most twice; the request loop
  terminates, continues any run of the scheduler and sends each selected piece to one holder.
* What `read_block` hands out after a run of writes: a block comes back exactly when all its bytes were written, each the
  one written last (`Storage.ReadAfterRun`); and, whatever the blocks, every byte of every file after any run
  (`Storage.RunFiles`).
* Writing one block leaves the others alone, whatever the bytes, exactly under a condition on where it lies
  (`Neighbours.OthersReadExactly`), and a torrent's identity is that of the dictionary read exactly when nothing
  was dropped from it (`InfoIdentity.IdentityExactly`).

Where the code does less than it is meant to, the model keeps the code and a theorem says exactly when it works:

* `write_block_raw` writes the whole buffer to every segment (src/bittorrent/torrent.rs:205). Reading back returns the
  block for every buffer, and the block's range is all that changes of the declared bytes, if and only if at most one
  segment is non-empty (`FileMap.CodedReadBack`, `Neighbours.CodedWriteExactly`; a block that is lost:
  `FileEnds.SpanningBlockLost`). Bytes of other blocks, held already, are overwritten too: they are left alone for every buffer
  if and only if at most one segment is non-empty or the block ends where a file does (`Neighbours.NeighboursKeptExactly`,
  `Neighbours.NeighbourOverwritten`). An empty segment is written as well: a block that starts where a file ends is looked up
  in the earlier file (390), which grows past its declared length. Files keep their lengths if and only if there is one
  segment (`FileEnds.LengthsKeptExactly`, `FileEnds.BoundaryBlockGrows`, over runs `Storage.RunLengths`). The writer that
  cuts the buffer at the segment ends (`SlicedChunks`) is not in the source; it is proved correct for comparison only.
* A piece whose request has expired is handed out once more and then forgotten (src/bittorrent/torrent_runtime.rs:276-282).
  A block that arrives has its request forgotten before it is checked (260-261), so an invalid one loses its piece too.
  Either way, undelivered, the piece is never requested again (`Scheduler.ReleasedForGood`, `Scheduler.AtMostTwice`).
* A request past the end of a complete piece, and a valid block whose `begin` is bogus (`valid_piece` does not look at it),
  panic in the worker (src/bittorrent/torrent.rs:412-414); which messages do is said exactly by `Serving.RequestStops`
  and `Serving.BlockStops`. A bogus `begin` that stays within the files is accepted and leaves marks outside the piece
  (`Serving.MarksPastPiece`).
* The pieces of a peer that chokes us are not counted when it sends its bitfield (src/bittorrent/manager.rs:787) but
  uncounted when it closes (710-712), which panics when one of them is queued with no holder counted. The ordinary first
  visit, bitfield and close, does it (`PeerRuns.AbandonedRun`); which messages do is said exactly by `Serving.QueueStops`.
* A worker that stops without being able to report leaves its peer registered until the torrent is removed
  (`PeerSystem.FarewellWaiting`, `PeerSystem.LeftForGood`).
* Entries of an info dictionary under keys the client does not know are dropped, and `info_hash` hashes what is left
  (src/bittorrent/metainfo.rs:338-341): the identity changes (`InfoIdentity.IdentityExactly`).
* The overflow test of `parse_i64` compares the wrong way round (src/bittorrent/utils.rs:19-24): a numeral of 19 digits
  is an error when it is smaller than 2^63-1, right at 2^63-1, and a panic above (`Decimal.ParseDigitsExact`).
* `creation_date` and `created_by` are written with an underscore (src/bittorrent/metainfo.rs:446-454) and read with a
  space (421-423), so they are lost (`MetaInfoFile.MetaBack`).
* Admission compares with `>` (src/bittorrent/manager.rs:964), which lets MAX_PEERS + 1 peers in, one more than
  `MIN_PRIORITY` leaves room for (`PeerRuns.FullHouse`, `PieceQueues.OneTooMany`, `PieceQueues.PopPromise`).
* Peer messages too short for their kind read their fields from the bytes that follow
  (`Wire.TrailingBytes`).
* The timing wheel looks at whole seconds only when it accepts a timer (`TimingWheel.HalfSecondsPanic`,
  `TimingWheel.TicksForever`).

## Model

| member | source | states |
|---|---|---|
| Markers.CoversOpen | src/bittorrent/torrent.rs:293-325 | whether a byte is held can be read off the one place where the scan stops: the mark before it is a Begin |
| Markers.InsertedNormal | src/bittorrent/torrent.rs:328-377 | joining a range to a sorted alternating list gives one again: strictly increasing, Begin and End in turn, starting with Begin and ending with End |
| Markers.InsertedCovers | src/bittorrent/torrent.rs:328-377 | the bytes held afterwards are the old ones and those of [begin, end), no others, however the ranges touch, nest or swallow each other |
| Markers.MarkAtChange | src/bittorrent/torrent.rs:293-325 | a mark sits at a position exactly when the bytes on its two sides differ in being held |
| Markers.Canonical | src/bittorrent/torrent.rs:328-377 | two well-formed lists that stand for the same bytes are the same list |
| Blocks.SizeIsMax | src/bittorrent/torrent.rs:161-168 | for exact geometries the length computed for a piece is its size, shorter for the last piece, and fits 32 bits |
| Blocks.InsertShaped | src/bittorrent/torrent.rs:328-377 | any write that does not panic, inside the piece or not, keeps all lists well formed and one bit a piece |
| Blocks.InsertBits | src/bittorrent/torrent.rs:328-339 | no write clears a bit |
| Blocks.InsertInside | src/bittorrent/torrent.rs:328-377 | a block inside its piece never panics and leaves every list inside its piece |
| Blocks.InsertHeld | src/bittorrent/torrent.rs:328-377 | with a set bit counted as the whole piece, a write adds exactly the block's bytes to what is held, and nothing to other pieces |
| Blocks.RunHeld | src/bittorrent/torrent.rs:328-377 | after any run of writes what is held is what was held before and the union of the blocks |
| Blocks.PartialRun | src/bittorrent/torrent.rs:328-377 | partial blocks never set a bit, and exactly the pieces they touch have lists |
| Blocks.PartialRunCovers | src/bittorrent/torrent.rs:328-377 | a run of partial blocks adds to each list exactly the bytes of the blocks of that piece |
| Blocks.SameList | src/bittorrent/torrent.rs:328-377 | runs of the same partial blocks leave the same list for every piece |
| Blocks.OrderDoesNotMatter | src/bittorrent/torrent.rs:328-377 | any permutation or repetition of the same partial blocks ends in the identical bitfield and lists |
| Blocks.ContainsAll | src/bittorrent/torrent.rs:255-288 | for a non-empty block, lying within a single interval is the same as having every one of its bytes |
| Blocks.ReadGate | src/bittorrent/torrent.rs:214-231 | after any run from empty, a non-empty block, of a complete piece or not, is let through if and only if each of its bytes was written |
| TorrentObject.Torrent.constructor | src/bittorrent/torrent.rs:70-77 | a torrent starts with one bit a piece, all set or all clear, and no marker lists |
| TorrentObject.Torrent.Create | src/bittorrent/torrent.rs:63-94 | a torrent is created, complete or empty, unless it is said to be downloaded and its files do not verify |
| TorrentObject.Torrent.VerifyFiles | src/bittorrent/torrent.rs:96-114 | the loop reads every piece whole and compares its hash; the first that cannot be read or differs ends it, as an error or a panic |
| TorrentObject.RetainedEnds | src/bittorrent/torrent.rs:360 | on a sorted list `retain` keeps exactly the marks before the range and those after it |
| TorrentObject.Torrent.InShaded | src/bittorrent/torrent.rs:290-325 | the scan tells whether the byte just before a begin mark, or just at an end mark, is held |
| TorrentObject.Torrent.InsertPiece | src/bittorrent/torrent.rs:328-377 | the new state is that of the block function, a panic leaves it alone, and lists stay well formed |
| TorrentObject.Torrent.InsertRange | src/bittorrent/torrent.rs:347-376 | scans, `retain` and the two insertions amount to joining the range to the piece's list and touch nothing else |
| TorrentObject.Torrent.EditMarks | src/bittorrent/torrent.rs:357-375 | dropping the inner marks and putting in the two new ones where they are not shaded yields the joined list |
| TorrentObject.Torrent.PlaceOf | src/bittorrent/torrent.rs:362-369 | the place found splits the marks at most `begin` from the first one above it |
| TorrentObject.Torrent.HaveBlock | src/bittorrent/torrent.rs:255-288 | the one-pass scan with early exits answers whether a single interval contains the block; it panics exactly when the end of the block overflows 32 bits and the piece has a list |
| TorrentObject.Torrent.MapFiles | src/bittorrent/torrent.rs:380-418 | the two loops yield the segments of the block's range, or panic when the files end first |
| TorrentObject.Torrent.Apportion | src/bittorrent/torrent.rs:397-416 | the second loop hands each file its share from the current file and offset on |
| TorrentObject.Torrent.WriteBlockRaw | src/bittorrent/torrent.rs:192-211 | the disk after the writes as coded, the state after recording the block, and in which cases it panics |
| TorrentObject.Torrent.WriteSegments | src/bittorrent/torrent.rs:193-206 | the disk after the whole buffer is written at the start of every segment |
| TorrentObject.Torrent.ReadBlockRaw | src/bittorrent/torrent.rs:233-248 | the bytes of all segments in order; a missing or short file is an error |
| TorrentObject.Torrent.ReadBlock | src/bittorrent/torrent.rs:214-231 | the contents when the bit is set or one interval contains the block, an error otherwise, and the one case of overflow |
| FileMap.ApportionStep | src/bittorrent/torrent.rs:397-416 | one round takes the file's share and leaves the rest to the later files; the list running out is a panic |
| FileMap.LocateOffset | src/bittorrent/torrent.rs:385-395 | the file and offset found lie at the flat offset asked for |
| FileMap.SegmentsPartition | src/bittorrent/torrent.rs:397-416 | segments lie in consecutive files, sum to the length, and join up from the starting offset, empty files included |
| FileMap.MapFilesPartition | src/bittorrent/torrent.rs:380-418 | mapping panics exactly when the range does not fit the files, and otherwise is an exact partition of the range |
| FileMap.ReadIsSlice | src/bittorrent/torrent.rs:233-248 | reading through segments is slicing the files laid end to end |
| FileMap.ReadBlockIsSlice | src/bittorrent/torrent.rs:233-248 | a block read returns exactly the block's range of the files laid end to end |
| FileMap.ReadBackHeads | src/bittorrent/torrent.rs:192-248 | after writing one chunk a segment, over distinct paths, each segment reads back the head of its own chunk |
| FileMap.CodedReadBack | src/bittorrent/torrent.rs:192-248 | reading back returns the buffer, whatever the buffer, if and only if at most one segment is non-empty |
| FileMap.SlicedReadBack | src/bittorrent/torrent.rs:192-248 | a writer that cuts the buffer at the segment ends would read back every block |
| FileMap.BlockWrite | src/bittorrent/torrent.rs:192-211 | chunks that fit their segments replace exactly the block's range of the files laid end to end |
| FileMap.SlicedWrite | src/bittorrent/torrent.rs:192-211 | the cutting writer replaces exactly the range of every block |
| FileEnds.LengthsKeptExactly | src/bittorrent/torrent.rs:192-211 | files at their declared lengths keep them if and only if the block falls on a single segment, an empty one counted; then nothing but the block's range of one file changes on the whole disk |
| FileEnds.BoundaryBlockGrows | src/bittorrent/torrent.rs:385-416 | a one-byte block at a file boundary: two segments, the first one empty, and the earlier file grows by the byte |
| FileEnds.SpanningBlockLost | src/bittorrent/torrent.rs:192-248 | a two-byte block over two one-byte files: 7 8 is written and 7 7 is read back |
| Neighbours.FileAfterWrite | src/bittorrent/torrent.rs:192-211 | the whole contents of every file after a block has been written: the buffer from the beginning of its segment on where it has one, unchanged where it has none |
| Neighbours.CodedWriteExactly | src/bittorrent/torrent.rs:192-211 | the block's range is all that changes of the declared bytes, and holds the buffer, for every buffer if and only if the block falls on one non-empty stretch of file |
| Neighbours.NeighboursKeptExactly | src/bittorrent/torrent.rs:192-211 | every declared byte outside the block is left alone, for every buffer, if and only if the block falls on one non-empty stretch of file or ends where a file does |
| Neighbours.OthersReadExactly | src/bittorrent/torrent.rs:192-248 | every block apart from the one written reads as before, for every buffer, if and only if the same condition holds |
| Neighbours.SlicedOthersRead | src/bittorrent/torrent.rs:192-248 | after the cutting writer every block apart from the one written reads as before, without a condition |
| Neighbours.NeighbourOverwritten | src/bittorrent/torrent.rs:192-211 | 7 8 written over the end of a one-byte file and the start of a three-byte one: the byte behind them is overwritten too |
| Storage.RunFiles | src/bittorrent/torrent.rs:192-211 | after any run of block writes, whatever the blocks, every file whole: a byte is there if it was or a block reached it, and is the one that reached it last, past declared lengths too |
| Storage.RunLengths | src/bittorrent/torrent.rs:192-211 | a run of block writes leaves files at their declared lengths if and only if every block that has bytes went to a single segment |
| Storage.LastWriteIsRead | src/bittorrent/torrent.rs:192-248 | reading a block after such a run returns at every place the byte written there last, or the original one |
| Storage.ReadAfterRun | src/bittorrent/torrent.rs:192-248 | after such a run `read_block` yields a block if and only if all its bytes were written, each then the one written last whatever was on disk before, and is an error otherwise, never a panic |
| Storage.ReadAfterAnyRun | src/bittorrent/torrent.rs:192-248 | after a run of any blocks inside their pieces `read_block` yields a block if and only if all its bytes were written, each then the byte that reached its place last, be it of another block |
| Storage.VerifiedExactly | src/bittorrent/torrent.rs:96-114 | files taken over as downloaded are accepted if and only if every piece of the files laid end to end has its hash, and refused without a panic otherwise |
| Utf8.AscendingUnique | src/bittorrent/bencoder.rs:30 | there is one way to order a set of keys by their bytes |
| Utf8.AddKeyAscending | src/bittorrent/bencoder.rs:30 | inserting a new key into an ascending list keeps it ascending |
| Utf8.SortedKeys | src/bittorrent/bencoder.rs:30 | the ordered keys are exactly the keys of the map, strictly ascending in byte order |
| Decimal.RejectsSmaller | src/bittorrent/utils.rs:13-26 | between numerals of equal length the comparison loop rejects exactly the smaller numbers |
| Decimal.ParseDigitsExact | src/bittorrent/utils.rs:11-39 | exact for 1 to 18 digits and for 2^63-1; any other 19-digit numeral is an error if smaller and a panic if larger; longer ones are errors |
| Decimal.IntRoundTrip | src/bittorrent/utils.rs:4-39 | of the 64-bit integers exactly those below 10^18 in size and plus or minus 2^63-1 are read back from their own text |
| Decimal.ParsedIsCanonical | src/bittorrent/utils.rs:4-39 | whatever the numeral, an integer that is read is one of these |
| RoundTrip.DecodeInteger | src/bittorrent/bedecoder.rs:29-61 | a printed integer followed by anything is read back with the rest untouched, or panics when not readable |
| RoundTrip.DecodeBytes | src/bittorrent/bedecoder.rs:132-157 | a printed byte string followed by anything is read back, as text exactly when it is valid UTF-8 |
| RoundTrip.DecodeEncode | src/bittorrent/bedecoder.rs:16-157 | parsing any printed value followed by any bytes consumes exactly its text and yields it, or panics when some integer is unreadable |
| RoundTrip.RoundTripExactly | src/bittorrent/bencoder.rs:5-54 | a value comes back from its own text, whatever follows, if and only if it is canonical |
| RoundTrip.PrefixFree | src/bittorrent/bencoder.rs:5-54 | texts of canonical values with anything appended agree only if the values and the appended bytes agree |
| RoundTrip.DecodedIsCanonical | src/bittorrent/bedecoder.rs:16-157 | whatever the input, a value the parser accepts is canonical |
| RoundTrip.ImageExactly | src/bittorrent/bedecoder.rs:9-12 | the values `parse` can yield are exactly the canonical ones |
| RoundTrip.ReencodingNormalises | src/bittorrent/bedecoder.rs:9-12 | printing what was accepted and parsing again gives the same value, for every accepted input |
| Codec.EncodeValue | src/bittorrent/bencoder.rs:5-13 | the bytes pushed are those of the encoding function |
| Codec.CollectOrdered | src/bittorrent/bencoder.rs:30 | walking the hash map in any order yields the one ascending list of its keys |
| Codec.EncodeDic | src/bittorrent/bencoder.rs:27-37 | the output is the same whatever the map's iteration order, keys in raw byte order |
| Codec.EncodeList | src/bittorrent/bencoder.rs:39-47 | the list's text is that of its items in order |
| Codec.SumDigits | src/bittorrent/utils.rs:27-33 | the right-to-left sum is the numeral's value, and panics exactly on a character that is no digit or a value above 2^63-1 |
| Codec.ParseInteger | src/bittorrent/utils.rs:4-39 | the loops of `parse_i64` agree with its specification in all three outcomes |
| Codec.ParseAt | src/bittorrent/bedecoder.rs:16-24 | the cursor parser agrees with the recursive one, and a success moves the cursor forward inside the buffer |
| Codec.ParseInt | src/bittorrent/bedecoder.rs:29-61 | the scan for the end of an integer agrees with its specification, errors and panics included |
| Codec.ParseList | src/bittorrent/bedecoder.rs:63-80 | the loop pushes exactly the items of the list, and fails as its first failing item does |
| Codec.ParseDic | src/bittorrent/bedecoder.rs:82-109 | the loop builds the dictionary in which the last of repeated keys counts, and refuses keys that are not text |
| Codec.ParseStr | src/bittorrent/bedecoder.rs:140-157 | the length prefix and the bytes are read as specified; running off the buffer is a panic |
| Codec.ParseBuffer | src/bittorrent/bedecoder.rs:9-12 | the whole parser yields the first value of the buffer and ignores the bytes behind it |
| MetaInfoFile.SplitJoin | src/bittorrent/metainfo.rs:479-503 | cutting the joined hashes gives the list of hashes back |
| MetaInfoFile.JoinSplit | src/bittorrent/metainfo.rs:479-503 | joining the 20-byte pieces of a string gives the string back |
| MetaInfoFile.WrappedBack | src/bittorrent/metainfo.rs:128-152 | an announce list in which every tracker is wrapped in its own list is unwrapped to the same trackers |
| MetaInfoFile.MIFileBack | src/bittorrent/metainfo.rs:307-335 | a file of a multi-file torrent converts to a dictionary and back unchanged |
| MetaInfoFile.FileInfoBack | src/bittorrent/metainfo.rs:213-258 | single- and multi-file parts convert back unchanged from a dictionary shared with other entries |
| MetaInfoFile.InfoBack | src/bittorrent/metainfo.rs:462-525 | the info dictionary converts back unchanged |
| MetaInfoFile.MetaBack | src/bittorrent/metainfo.rs:412-458 | the contents convert back unchanged but for the creation date and the author, which are always lost |
| MetaInfoFile.MetaParts | src/bittorrent/metainfo.rs:432-458 | which integers end up in the dictionary, and that nothing in it changes on parsing unless the joined hashes are valid UTF-8 |
| MetaInfoFile.ReadBack | src/bittorrent/metainfo.rs:393-458 | the outcome of writing a file and reading it back, for all contents: panic on an unreadable integer, error when the hashes are text, everything but date and author otherwise |
| MetaInfoFile.ReadBackExactly | src/bittorrent/metainfo.rs:338-458 | the contents come back unchanged if and only if four conditions hold; whenever the file can be read, the bytes hashed into `info_hash` are preserved |
| MetaInfoRewrite.ReadWriteRead | src/bittorrent/metainfo.rs:393-458 | for every file that can be read, writing its contents gives a file that is read again with the same contents, the creation date and the author apart |
| MetaInfoRewrite.MetaRead | src/bittorrent/metainfo.rs:412-458 | contents read from a canonical dictionary make a canonical dictionary again: readable integers, hashes that are not text |
| InfoIdentity.InfoKeptExactly | src/bittorrent/metainfo.rs:462-525 | the info that was read is written as it stood if and only if neither it nor a file in it has entries under other keys |
| InfoIdentity.IdentityExactly | src/bittorrent/metainfo.rs:337-341 | the bytes hashed into `info_hash` are those of the dictionary that was read if and only if it has no such entries |
| MetaInfoFile.SplitHashesLoop | src/bittorrent/metainfo.rs:479-495 | the loop cuts the string into its 20-byte pieces, or refuses a length that is no multiple of 20 |
| MetaInfoFile.HashesToString | src/bittorrent/metainfo.rs:497-503 | the loop joins the hashes in order |
| MetaInfoFile.CheckVecLoop | src/bittorrent/metainfo.rs:135-152 | the loop converts every element, trying the second conversion where the first is an error, and stops at the first failure |
| PieceQueues.PieceQueue.Pop | src/bittorrent/torrent_runtime.rs:56-68 | takes an item of highest priority out, or returns nothing and changes nothing when that priority is the minimum |
| PieceQueues.PieceQueue.ChangePriority | src/bittorrent/torrent_runtime.rs:78-107 | the two tiers after a change, and the one case that panics |
| PieceQueues.UpdateRefines | src/bittorrent/torrent_runtime.rs:78-107 | a change that keeps the count at least 0 does not panic, and queue and counts still correspond |
| PieceQueues.RunRefines | src/bittorrent/torrent_runtime.rs:34-107 | over every run of changes and pops, a queued piece is in `zeros` exactly when its count is 0, and its priority is minus the count or the minimum |
| PieceQueues.PanicExactly | src/bittorrent/torrent_runtime.rs:84-92 | the panic happens exactly for a queued piece with no holder that is to lose one |
| PieceQueues.UpdateAllExactly | src/bittorrent/manager.rs:924-930 | over all pieces of a peer: one holder more never panics, one less panics if and only if a piece with its bit set is queued and held by nobody, and otherwise the queue stands for the changed counts |
| PieceQueues.PopExactly | src/bittorrent/torrent_runtime.rs:56-68 | a popped piece has the fewest holders of all held ones; exactly when nothing is popped, in terms of the counts |
| PieceQueues.PopPromise | src/bittorrent/torrent_runtime.rs:39-68 | "nothing is popped exactly when no queued piece is held" is true if and only if the counts meet a stated condition, in particular always up to MAX_PEERS |
| PieceQueues.OneTooMany | src/bittorrent/torrent_runtime.rs:39-107 | a run of MAX_PEERS + 1 announcements of the only piece, after which it is queued and held and no pop ever returns it |
| Rates.WindowSum | src/bittorrent/torrent_runtime.rs:130-140 | after pruning, the sum of the buffer is the sum of all recent samples of the full history |
| Rates.Rate.GetRate | src/bittorrent/torrent_runtime.rs:137-140 | the rate is the sum of all updates ever made that are at most five seconds old |
| Rates.Rate.Update | src/bittorrent/torrent_runtime.rs:142-146 | adds one sample to the full history and keeps the total equal to the sum of the buffer |
| Rates.Rate.Prune | src/bittorrent/torrent_runtime.rs:130-135 | drops only samples older than the window, without underflow of the total |
| Scheduler.SelectConsistent | src/bittorrent/torrent_runtime.rs:273-302 | selecting keeps requests ordered and distinct and moves one piece from queued to outstanding, or from outstanding to released |
| Scheduler.RemoveConsistent | src/bittorrent/torrent_runtime.rs:254-257 | forgetting a block releases exactly the pieces requested as exactly this block |
| Scheduler.FrontIsEnough | src/bittorrent/torrent_runtime.rs:273-287 | if any outstanding request has expired, the oldest one is returned and given up |
| Scheduler.RunConsistent | src/bittorrent/torrent_runtime.rs:254-302 | at every moment of every run on a nondecreasing clock the pieces queued, outstanding and released by the events so far partition all pieces, requests in order of time |
| Scheduler.ReleasedForGood | src/bittorrent/torrent_runtime.rs:254-302 | a piece once released is never again queued, outstanding or handed out, however the run goes on |
| Scheduler.AtMostTwice | src/bittorrent/torrent_runtime.rs:273-302 | over a run a piece is handed out never while queued, once while outstanding, once or twice when released, and so at most twice |
| Runtime.RemainingExactly | src/bittorrent/torrent.rs:138-150 | `remaining` never underflows, is the bytes of the missing pieces, and is 0 exactly when every bit is set |
| Runtime.TorrentRuntime.constructor | src/bittorrent/torrent_runtime.rs:165-177 | around a torrent just created: every piece queued, nothing outstanding, complete exactly when it was added as downloaded |
| Runtime.TorrentRuntime.Create | src/bittorrent/torrent_runtime.rs:159-178 | a torrent said to be downloaded is taken over, as complete, only when its files verify |
| Runtime.TorrentRuntime.Pause | src/bittorrent/torrent_runtime.rs:313-334 | the status after pause and resume, whether it changed, and that Complete still implies every bit set |
| Runtime.TorrentRuntime.SetComplete | src/bittorrent/torrent_runtime.rs:336-350 | marks complete exactly a running torrent with every bit set, and is an error otherwise |
| Runtime.TorrentRuntime.WriteBlock | src/bittorrent/torrent_runtime.rs:259-264 | the request is forgotten first; an invalid block changes nothing else; a valid one is on disk, recorded and counted; no bit is cleared |
| Runtime.TorrentRuntime.ReadBlock | src/bittorrent/torrent_runtime.rs:266-270 | the block, the refusal or the overflow, and that exactly the successful reads are counted |
| Runtime.TorrentRuntime.UpdatePriority | src/bittorrent/torrent_runtime.rs:306-309 | whatever holder counts the queue stands for, it stands for the changed ones afterwards, without a panic, as long as no queued count goes below zero |
| Runtime.TorrentRuntime.SelectPiece | src/bittorrent/torrent_runtime.rs:273-302 | the front request if it has expired, else the best queued piece, which becomes outstanding |
| Peers.TotalPreorder | src/bittorrent/manager.rs:346-358 | the order of peers is reflexive, total and transitive |
| Peers.RemoveExactly | src/bittorrent/manager.rs:377-380 | raising to the maximum and popping is sure to remove exactly the named peer if and only if it is queued and no other peer is at the maximum (or nothing is queued) |
| Peers.Choke | src/bittorrent/manager.rs:1163-1178 | at most five peers are unchoked, everybody else choked only beyond five, each peer told once, and each unchoked peer ranks at least as high as every choked one |
| Requests.RoutedSound | src/bittorrent/manager.rs:1194-1217 | position by position, each selected piece that some eligible peer has is sent exactly once, to a peer that has it, and each other one to nobody |
| Requests.SelectProgress | src/bittorrent/torrent_runtime.rs:273-302 | a selection shrinks the queue, or leaves it and shrinks the outstanding requests |
| Requests.MakeRequests | src/bittorrent/manager.rs:1180-1225 | the loop terminates, full or with nothing left to select; its selections, each made below the limit, lead from the old books to the new; every request goes to an unchoking peer of the torrent, one per selected piece |
| Requests.RequestPieces | src/bittorrent/manager.rs:1194-1223 | the selections made and the requests sent by the loop, and when it stops |
| Requests.SelectingRuns | src/bittorrent/manager.rs:1194-1223 | the selections of a call continue any run of the scheduler, with the same released pieces and clock, and stay guarded by the limit |
| Requests.WithinLimit | src/bittorrent/manager.rs:1194 | over every run whose selections are guarded so, no more than REQUESTS_LIMIT requests are ever outstanding |
| Requests.SendToFirst | src/bittorrent/manager.rs:1197-1216 | asks the first eligible peer that has the piece, and nobody else |
| Wire.ReadWritten | src/bittorrent/peer.rs:62-72 | four big-endian bytes are read back as the number written |
| Wire.BitfieldBytes | src/bittorrent/peer.rs:210-220 | unpacking a packed bitfield of any length drops exactly the padding |
| Wire.ChokeParsed | src/bittorrent/peer.rs:299-315 | choke and interest messages have their effect at the other end, whatever follows them |
| Wire.HaveParsed | src/bittorrent/peer.rs:183-197 | a `have` message sets exactly the announced bit and is reported when it was clear |
| Wire.BitfieldParsed | src/bittorrent/peer.rs:222-239 | a `bitfield` message of any length leaves the union of the old bits and the bits sent |
| Wire.RequestParsed | src/bittorrent/peer.rs:241-265 | a `request` message is handed over with the fields asked for |
| Wire.PieceParsed | src/bittorrent/peer.rs:267-284 | a `piece` message delivers its data, with the data's length as the length of the block |
| Wire.TrailingBytes | src/bittorrent/peer.rs:110-150 | bytes after a frame never change the outcome if and only if the frame has room for the fields of its kind |
| Wire.RemoveFirstExactly | src/bittorrent/peer.rs:286-292 | the first equal request goes, the others keep their order; without an equal one nothing changes |
| PeerObject.Peer.ParseMessage | src/bittorrent/peer.rs:110-150 | the record after a message and the action reported, for every byte string; the action tells exactly how choking, interest and bits have changed |
| PeerObject.Peer.UnpackBitfield | src/bittorrent/peer.rs:210-220 | pushing the bits of the last byte one by one drops exactly the spare ones |
| PeerObject.Peer.ParseBitfield | src/bittorrent/peer.rs:222-239 | the union of old and new bits, none cleared, or an error when the lengths differ |
| PeerObject.Peer.ParseRequest | src/bittorrent/peer.rs:253-265 | queues the request and hands over the queue when it is full |
| PeerObject.Peer.ParseCancel | src/bittorrent/peer.rs:286-292 | it succeeds exactly when an equal request is queued, and then the queue loses the first such one and keeps its order; else it is unchanged |
| PeerObject.Peer.Choke | src/bittorrent/peer.rs:299-306 | whoever parses the message returned, whatever follows it, takes this side to be choking exactly when it now is |
| PeerObject.Peer.Interested | src/bittorrent/peer.rs:308-315 | whoever parses the message returned, whatever follows it, takes this side to be interested exactly when it now is |
| Protocol.ReplayAppend | src/bittorrent/manager.rs:1293-1349 | replaying one list of reports after another is replaying both |
| Protocol.ParsedChange | src/bittorrent/peer.rs:110-239 | the action reported for a message tells exactly how choking, interest and bits have changed |
| Protocol.ReadingReported | src/bittorrent/manager.rs:695-805 | the reports sent for a message, replayed on the state before it, give the state after it, unless the worker stops without its torrent or by a panic of the piece queue; bits are never cleared |
| Protocol.FarewellExactly | src/bittorrent/manager.rs:703-715 | a disconnection is reported exactly on the empty message, if the peer does not choke us or its torrent is present and its pieces can be uncounted; it is the only report, and the worker stops |
| ConnectionObject.Connection.HandleMessage | src/bittorrent/manager.rs:695-805 | for every message, piece queue and outcome of the blocks read and written: the peer, the reports appended, the queue, whether the worker goes on; and the reports replayed on the old view give the new one unless it stops unreported |
| ConnectionObject.Connection.Serve | src/bittorrent/manager.rs:721-736 | the loop over the requests panics exactly when reading one of the blocks does |
| ConnectionObject.Connection.UpdatePriorityAll | src/bittorrent/manager.rs:924-930 | the loop over the peer's pieces yields the queue with all of them changed, or panics where one change does |
| Serving.RequestStops | src/bittorrent/manager.rs:717-738 | for every torrent accepted blocks can lead to, a `request` message stops the worker if and only if a block asked for runs past the files while its piece is complete, or past 32 bits while its piece is partly there; nothing is reported either way |
| Serving.BlockStops | src/bittorrent/manager.rs:739-755 | a `piece` message stops the worker if and only if the byte counter overflows or the block is valid and runs past the files or, not being a whole piece, past 32 bits |
| Serving.WriteKeepsSound | src/bittorrent/torrent.rs:181-211 | a block written with success, its `begin` bogus or not, leaves marks within the torrent |
| Serving.NewSound | src/bittorrent/torrent.rs:70-77 | a torrent just created, complete or empty, is one the two theorems speak of |
| Serving.OfferedSound | src/bittorrent/torrent.rs:181-211 | whatever blocks are then offered, valid or not, it stays one |
| Serving.MarksPastPiece | src/bittorrent/metainfo.rs:374-386 | two bytes at offset 1 of a piece of two bytes are accepted and leave a mark outside the piece |
| Serving.QueueStops | src/bittorrent/manager.rs:703-793 | the piece queue takes the change a message asks for unless the peer closes or chokes us while a piece it has is queued with no holder counted |
| Serving.CloseStops | src/bittorrent/manager.rs:703-715 | the empty message of a peer that chokes us stops the worker unreported if and only if that is so; otherwise it is reported |
| Serving.LongRequestStops | src/bittorrent/torrent.rs:412-414 | two bytes asked of a complete torrent of one byte stop the worker |
| Serving.LateBlockStops | src/bittorrent/metainfo.rs:374-386 | a valid one-byte block that claims to begin after the end stops the worker |
| ControllerState.GoneExactly | src/bittorrent/manager.rs:1008-1021 | a disconnection takes exactly its peer out of all three collections |
| ControllerState.AllGoneExactly | src/bittorrent/manager.rs:1131-1141 | the removal loop takes exactly the listed peers out of all three collections |
| ControllerState.ProcessedApplies | src/bittorrent/manager.rs:1293-1349 | a report changes the record of its own peer as replaying it does, no other, and panics exactly when that does |
| ControllerObject.Controller.RemoveFromQueue | src/bittorrent/manager.rs:377-380 | raises the peer and pops one of highest rank |
| ControllerObject.Controller.RemovePeer | src/bittorrent/manager.rs:1008-1021 | the three collections and the peer count after a removal |
| ControllerObject.Controller.Process | src/bittorrent/manager.rs:1293-1349 | the records after one report, the panics, the peer count, and the torrent a download completes and announces |
| ControllerObject.Controller.TryRecvNewPeer | src/bittorrent/manager.rs:1238-1262 | all pending peers are entered in all three collections, in order; a peer whose torrent is gone is a panic |
| ControllerObject.Controller.RemoveTorrent | src/bittorrent/manager.rs:1131-1146 | exactly the peers of the torrent are disconnected, each once, and counted; it cannot panic while the collections agree |
| ControllerObject.Controller.FilterPriority | src/bittorrent/manager.rs:1087-1096 | exactly the peers of the torrent, each once |
| ControllerObject.Controller.Drain | src/bittorrent/manager.rs:1273-1287 | every undelivered report is collected, each peer's in order, and the queues are empty |
| ControllerObject.Controller.ProcessMessages | src/bittorrent/manager.rs:1289-1291 | the reports are processed one after the other, the count falls by the disconnections, exactly the announced torrents have become complete, each running with nothing missing, and a panic ends it |
| ControllerObject.Controller.CheckMessages | src/bittorrent/manager.rs:1269-1292 | a round collects all reports before it processes any, and the records after it |
| PeerSystem.ConnectKeeps | src/bittorrent/manager.rs:932-1004 | admission and registration of a connection keep the invariant |
| PeerSystem.RegisterKeeps | src/bittorrent/manager.rs:1238-1262 | taking a pending peer over keeps the invariant |
| PeerSystem.ReadKeeps | src/bittorrent/manager.rs:695-805 | a message read by a worker keeps the invariant, wherever the peer is at the time |
| PeerSystem.DeliverReport | src/bittorrent/manager.rs:1293-1344 | delivering a report keeps the invariant |
| PeerSystem.DeliverDisconnect | src/bittorrent/manager.rs:1345-1347 | delivering a disconnection keeps the invariant and the peer count |
| PeerSystem.RemoveKeeps | src/bittorrent/manager.rs:1131-1146 | removing a torrent keeps the invariant |
| PeerSystem.NextKeeps | src/bittorrent/manager.rs:695-1349 | every step of workers and controller keeps the invariant |
| PeerSystem.RunInv | src/bittorrent/manager.rs:695-1349 | in every reachable state the three collections name the same peers, every peer's torrent exists, the count is registered plus pending, both bitfields have one bit a piece, and undelivered reports lead from record to worker |
| PeerSystem.DrainedAgree | src/bittorrent/manager.rs:1269-1349 | once a peer's reports are delivered, the record kept of it is the worker's own, unless the worker was cut off by a removal or a panic of the piece queue |
| PeerSystem.NoPanic | src/bittorrent/manager.rs:1293-1349 | in every reachable state delivering any peer's next report does not panic: the index and length checks never fail |
| Asking.RequestsCovered | src/bittorrent/manager.rs:1180-1217 | in every reachable state each peer queued has a channel and one bit for each piece of its torrent, so that the lookups of the request loop succeed |
| Asking.ChokingCovered | src/bittorrent/manager.rs:1163-1178 | in every reachable state exactly the connected peers are ranked, so that the choking round finds every channel |
| PeerSystem.RecordedBitsGrow | src/bittorrent/manager.rs:1310-1344 | no step clears a bit recorded by the controller |
| PeerSystem.WorkerBitsGrow | src/bittorrent/peer.rs:183-239 | no step clears a bit recorded by a worker |
| PeerSystem.NeverCut | src/bittorrent/manager.rs:695-805 | without torrent removals and panics of the piece queue no worker is ever cut off and every worker's torrent is present |
| PeerSystem.FarewellWaiting | src/bittorrent/manager.rs:703-715 | in every reachable state a disconnection is the last report waiting of a registered peer if and only if its worker stopped at an empty message it could report, that is with a torrent and a piece queue that let it |
| PeerSystem.LeftForGood | src/bittorrent/manager.rs:1131-1146 | a registered peer whose worker stopped in another way stays registered, however the run goes on, until its torrent is removed |
| PeerRuns.UnchokedRun | src/bittorrent/manager.rs:695-1349 | runs happen: one in which a peer connects, is taken over, unchokes us and is recorded as unchoking |
| PeerRuns.AbandonedRun | src/bittorrent/manager.rs:703-793 | a run in which a peer names its pieces and closes while the queue is fresh: its worker stops by a panic and it stays registered |
| PeerRuns.FullHouse | src/bittorrent/manager.rs:964 | a run in which admission lets MAX_PEERS + 1 peers in, and from which no step lets in another one |
| Batch.SameStep | src/bittorrent/manager.rs:1269-1292 | processing a drained report comes to the same as delivering it from its queue |
| Batch.NoPanicInBatch | src/bittorrent/manager.rs:1269-1292 | no report of a drained batch panics |
| Batch.RoundOfDeliveries | src/bittorrent/manager.rs:1269-1292 | a whole round never panics, keeps the invariant and the peer count, and ends with all queues empty and every record as the worker has told it |
| Batch.RegistrationPanics | src/bittorrent/manager.rs:1238-1262 | a round of registrations panics if and only if some pending peer's torrent is gone |
| Batch.RoundOfRegistrations | src/bittorrent/manager.rs:1238-1262 | any other round takes over every pending peer and keeps the invariant |
| TimingWheel.Timers.Add | src/bittorrent/timers.rs:22-33 | which durations are accepted, refused or panic, and that only an accepted one adds a timer |
| TimingWheel.Timers.Tick | src/bittorrent/timers.rs:44-51 | all timers after one tick, which fired, and the early stop |
| TimingWheel.FiredExactly | src/bittorrent/timers.rs:71-81 | after n ticks of base b a timer of duration d, a positive multiple of b, has fired n*b/d times, rounded down |
| TimingWheel.TicksForever | src/bittorrent/timers.rs:71-81 | a timer never panics if and only if its duration is a positive multiple of the base |
| TimingWheel.AcceptedIsSafe | src/bittorrent/timers.rs:22-33 | for whole seconds `add` accepts a positive duration if and only if its timer never panics |
| TimingWheel.HalfSecondsPanic | src/bittorrent/timers.rs:22-33 | an accepted timer of 1.5 s on a wheel of 1 s panics at its second tick |
| TimingWheel.QuietTick | src/bittorrent/timers.rs:44-51 | when no task asks to stop, a tick reaches every timer once and reports exactly those that fire |
| TimingWheel.WheelAlone | src/bittorrent/timers.rs:44-81 | in a run of the wheel each timer behaves as if it were alone |
| TimingWheel.WheelFires | src/bittorrent/timers.rs:22-81 | in a run of n ticks without a stop every timer of the wheel has fired n*b/d times, rounded down |
| StateFold.BatchStep | src/bin/webserver/torrent_state.rs:120-133 | draining one more message keeps the batched result equal to the messages applied one by one |
| StateFold.BackedTorrentState.UpdateState | src/bin/webserver/torrent_state.rs:116-146 | without a disconnection the view becomes the fold of all messages in order; with one it is an error and the view is left alone |

## Left out

- Sockets, threads, sleeping, locks, the HTTP and terminal front ends and logging; only the atomic steps they trigger are modelled.
- Error texts and causes: `Err` carries nothing.
- SHA-1: `valid_piece` takes the result of the comparison of the hashes as a parameter, and `info_hash` is spoken of through the bytes that are hashed.
- I/O errors other than a missing or a short file, failing writes included.
- Negative file and piece lengths in a .torrent file: the file map and the geometry take natural numbers; the typed layer itself takes any integer.
- usize overflow of the byte totals and counters of a torrent: totals are natural numbers, except `remaining`, whose underflow is modelled, and the connection's own counter, which is a parameter of `HandleRead`.
- The several clock readings inside one call of `prune`, `rate` or `update`: one reading stands for a call.
- The hash function of a HashMap and its iteration order: any order is allowed wherever it matters.
- The tracker protocol, the handshake, `parse_port`, `resume_torrent`, `MetaInfo::create`, the serde form of a torrent, path construction, file creation and random ids.
- `u32::from_bencode_t` and the key macros: not used by the paths modelled.
- The piece queue in the step system is the one each message finds, any queue; queues are not carried from step to step. "Priority is minus the number of unchoking holders" is false of the whole program (src/bittorrent/manager.rs:710, 778 and 787-789), so the theorems about a queue speak of the counts it stands for.
- Lock poisoning: after a panic with the torrents locked the other threads panic at their next use of them; the step system lets them go on, which only adds runs.
- A pending peer whose torrent has been removed: taking it over panics and ends the step system's run; `TryRecvNewPeer` and `Batch.RegistrationPanics` say when.
- Atomicity of the peer limit: admission and registration are one step, so the limit of MAX_PEERS + 1 is the one the comparison itself allows.
- Reuse of peer ids: a connection's id is new in the step system.
- Progress of torrents in the controller: the bytes missing and the status of a torrent are a record shared with the workers, changed here only by the completion check.
- The broadcast of `Have` and the commands sent to workers: only what comes back from workers is modelled.
- Requests.MakeRequests: one running torrent; the walk over all torrents repeats it for each.
- Download speeds: no worker sends them, so in the step system every rank's speed is 0, the condition under which `remove` is exact.
- FileMap.SlicedReadBack: about a writer the source does not have.
- FileMap.SlicedWrite: about a writer the source does not have.
- Neighbours.SlicedOthersRead: about a writer the source does not have.
- Storage.ReadAfterRun: for runs of blocks on one stretch of file; `Storage.ReadAfterAnyRun` is for all.
- Wire.BitfieldParsed: for bitfields whose message length fits 32 bits.
- RoundTrip.DecodeEncode: for values whose strings are shorter than the address space and whose integers have 64 bits, as in Rust.
