/** From the bytes of an archive file to the stream of block facts. */
module BlockFacts {
  import opened Types
  import opened E2Store
  import opened BlockTuples
  import opened Pipeline
  import opened Sync
  import Blooms
  import Codec
  import Rlp
  import Source
  import TxHashes

  /** Decoding and hashing of a block header, left uninterpreted. */
  type HeaderDecoder = Bytes -> Option<Pipeline.Header>

  datatype Library = Library(keccak: Blooms.Hasher, header: HeaderDecoder)

  function FormatOf(slim: bool): Format {
    if slim then ERE_TRAVERSAL else ERA1_TRAVERSAL
  }

  function LayoutOf(slim: bool): Codec.Layout {
    if slim then Codec.EreSlim else Codec.Era1Full
  }

  // ── One block ──────────────────────────────────────────────────────────────

  /** Hashes of the body's transactions; a body that does not decode has none. */
  function HashesOf(lib: Library, body: Bytes): seq<B256> {
    match TxHashes.TxPayload(body)
    case Ok(payload) => TxHashes.Hashes(lib.keccak, TxHashes.Preimages(payload))
    case Err(_) => []
  }

  /** The body of a block with well-formed transactions gives, for each transaction in
      order, the keccak of its EIP-2718 encoding; `tail` holds the ommers and whatever
      else the body lists. */
  lemma BodyGivesHashes(lib: Library, txs: seq<TxHashes.Transaction>, forms: seq<Form>, tail: Bytes, junk: Bytes)
    requires |forms| == |txs|
    requires forall i | 0 <= i < |txs| :: TxHashes.WellFormed(txs[i])
    requires |Rlp.EncodeList(TxHashes.TxItems(txs, forms)) + tail| < TWO64
    ensures var hashes := HashesOf(lib, Rlp.EncodeList(Rlp.EncodeList(TxHashes.TxItems(txs, forms)) + tail) + junk);
            && |hashes| == |txs|
            && forall i | 0 <= i < |txs| :: hashes[i] == lib.keccak(TxHashes.EncodeTx(txs[i]))
  {
    hide TxHashes.TxPayload, TxHashes.Preimages, TxHashes.TxItems, TxHashes.TxPreimages, TxHashes.EncodeTx;
    hide TxHashes.Hashes, TxHashes.WellFormed, Rlp.EncodePayload;
    TxHashes.BodyHashes(txs, forms, tail, junk);
    forall i | 0 <= i < |txs|
      ensures var hashes := TxHashes.Hashes(lib.keccak, TxHashes.TxPreimages(txs));
              |hashes| == |txs| && hashes[i] == lib.keccak(TxHashes.EncodeTx(txs[i]))
    {
      TxHashes.HashesInOrder(lib.keccak, txs, i);
    }
    if txs == [] {
      NoHashes(lib);
    } else {
      TxHashes.HashesInOrder(lib.keccak, txs, 0);
    }
  }

  lemma NoHashes(lib: Library)
    ensures TxHashes.Hashes(lib.keccak, TxHashes.TxPreimages([])) == []
  {
  }

  predicate Decodes(lib: Library, slim: bool, t: BlockTuple) {
    lib.header(t.header).Some? && Codec.DecodeSection(lib.keccak, LayoutOf(slim), t.receipts).Ok?
  }

  /** A tuple becomes facts, or an error item when header or receipts do not decode. */
  function ItemOf(lib: Library, slim: bool, t: Result<BlockTuple, SourceError>): Item {
    if t.Ok? && Decodes(lib, slim, t.value) then
      Block(Facts(t.value.blockNumber, lib.header(t.value.header).value,
                  Codec.DecodeSection(lib.keccak, LayoutOf(slim), t.value.receipts).value,
                  HashesOf(lib, t.value.body)))
    else ReadError
  }

  method DecodeBlock(lib: Library, slim: bool, t: Result<BlockTuple, SourceError>) returns (item: Item)
    ensures item == ItemOf(lib, slim, t)
  {
    if t.Err? {
      return ReadError;
    }
    var header := lib.header(t.value.header);
    if header.None? {
      return ReadError;
    }
    var receipts := Codec.DecodeReceipts(lib.keccak, LayoutOf(slim), t.value.receipts);
    if receipts.Err? {
      return ReadError;
    }
    var hashes := TxHashes.DecodeTxHashes(lib.keccak, t.value.body);
    return Block(Facts(t.value.blockNumber, header.value, receipts.value, if hashes.Ok? then hashes.value else []));
  }

  // ── A whole file ───────────────────────────────────────────────────────────

  /** How many items a section yields: its complete blocks and at most one error. */
  function ItemCount(fmt: Format, section: Scan, range: Range): nat {
    Complete(fmt, section.entries) + if LastError(fmt, section, Expected(range)).Some? then 1 else 0
  }

  function FileSectionOf(slim: bool, file: Bytes): Scan {
    Section(FormatOf(slim), ScanFrom(file, 0))
  }

  function FileCount(slim: bool, file: Bytes, range: Range): nat {
    ItemCount(FormatOf(slim), FileSectionOf(slim, file), range)
  }

  lemma CountedItems(slim: bool, file: Bytes, range: Range, i: nat)
    ensures FileItem(FormatOf(slim), file, range, i).Some? <==> i < FileCount(slim, file, range)
  {
    hide Complete, LastError, TupleAt, Section, ScanFrom;
  }

  function FactAt(lib: Library, slim: bool, file: Bytes, range: Range, i: nat): Item
    requires i < FileCount(slim, file, range)
  {
    CountedItems(slim, file, range, i);
    ItemOf(lib, slim, FileItem(FormatOf(slim), file, range, i).value)
  }

  function FileFacts(lib: Library, slim: bool, file: Bytes, range: Range): seq<Item> {
    var n := FileCount(slim, file, range);
    seq(n, i requires 0 <= i < n => FactAt(lib, slim, file, range, i))
  }

  /** What opening a file gives: its items, or nothing when it has no usable index. */
  function OpenFile(lib: Library, slim: bool, file: Bytes): Option<seq<Item>> {
    match SeekIndex(file, 0, true)
    case Ok(Some(range)) => Some(FileFacts(lib, slim, file, range))
    case _ => None
  }

  /** A file can be opened exactly when a full read meets an index behind a leading
      version record, and the first such index parses. */
  lemma OpensIff(lib: Library, slim: bool, file: Bytes)
    ensures var es := ScanFrom(file, 0).entries;
            OpenFile(lib, slim, file).Some? <==>
            && es != [] && es[0].kind == EntryType(0x65, 0x32)
            && FirstIndex(es).Some? && ParseIndex(FirstIndex(es).value).Ok?
  {
    hide ScanFrom, SeekIndex, ParseIndex, FirstIndex, FileFacts;
    forall range ensures SeekIndex(file, 0, true) == Ok(Some(range)) <==>
                         var es := ScanFrom(file, 0).entries;
                         && es != [] && es[0].kind == E2STORE_VERSION
                         && FirstIndex(es).Some? && ParseIndex(FirstIndex(es).value) == Ok(range)
    {
      SeekAgreesWithFullRead(file, range);
    }
  }

  lemma FactsCounted(lib: Library, slim: bool, file: Bytes, range: Range)
    ensures |FileFacts(lib, slim, file, range)| == FileCount(slim, file, range)
  {
    hide FileCount, FactAt;
  }

  lemma FactAtItem(lib: Library, slim: bool, file: Bytes, range: Range, i: nat)
    requires i < FileCount(slim, file, range)
    ensures FileItem(FormatOf(slim), file, range, i).Some?
    ensures |FileFacts(lib, slim, file, range)| == FileCount(slim, file, range)
    ensures FileFacts(lib, slim, file, range)[i] == ItemOf(lib, slim, FileItem(FormatOf(slim), file, range, i).value)
  {
    hide FileItem, FileCount, ItemOf;
    CountedItems(slim, file, range, i);
  }

  method ReadBlockFacts(lib: Library, slim: bool, file: Bytes) returns (r: Option<seq<Item>>)
    ensures r == OpenFile(lib, slim, file)
  {
    hide FileItem, FileCount, SeekIndex, ItemOf, FileFacts, BlockTupleIter.Valid;
    var found := IterEra1BlockTuples(file, slim);
    if found.Err? {
      return None;
    }
    var iter := found.value;
    ghost var range := iter.range;
    var items: seq<Item> := [];
    var next := iter.Next();
    FactsCounted(lib, slim, file, range);
    while next.Some?
      invariant fresh(iter) && iter.Valid() && iter.file == file && iter.range == range && iter.format == FormatOf(slim)
      invariant |items| <= FileCount(slim, file, range)
      invariant items == FileFacts(lib, slim, file, range)[..|items|]
      invariant next == FileItem(FormatOf(slim), file, range, |items|) && iter.calls == |items| + 1
      decreases FileCount(slim, file, range) - |items|
    {
      CountedItems(slim, file, range, |items|);
      FactAtItem(lib, slim, file, range, |items|);
      var item := DecodeBlock(lib, slim, next.value);
      items := items + [item];
      next := iter.Next();
    }
    CountedItems(slim, file, range, |items|);
    assert FileFacts(lib, slim, file, range)[..|items|] == FileFacts(lib, slim, file, range);
    return Some(items);
  }

  // ── Clean files ────────────────────────────────────────────────────────────

  lemma ParsedRangeForward(file: Bytes, range: Range)
    requires SeekIndex(file, 0, true) == Ok(Some(range))
    ensures range.from <= range.to
  {
    hide SeekIndex, ScanFrom, Word;
    SeekAgreesWithFullRead(file, range);
  }

  ghost predicate FullSection(fmt: Format, section: Scan, count: nat) {
    && section.error.None?
    && |Headers(section.entries)| == count && |Bodies(section.entries)| == count
    && |Receipts(fmt, section.entries)| == count
    && (fmt.hasDifficulty ==> |Difficulties(fmt, section.entries)| == count)
  }

  lemma FullSectionIff(fmt: Format, section: Scan, range: Range)
    requires IsFormat(fmt)
    ensures FullSection(fmt, section, Expected(range)) <==>
            Complete(fmt, section.entries) == Expected(range) && LastError(fmt, section, Expected(range)).None?
  {
    hide DataOf;
  }

  /** The stream of a file with an index is free of errors and holds exactly the
      blocks of the index exactly when the file could be read to its index, every
      type has one entry per block, and every header and receipt section decodes. */
  lemma CleanFileIff(lib: Library, slim: bool, file: Bytes, range: Range)
    requires SeekIndex(file, 0, true) == Ok(Some(range))
    ensures var fmt, section := FormatOf(slim), FileSectionOf(slim, file);
            Source.Carries(OpenFile(lib, slim, file).value, Source.RangesNumbers([range])) <==>
            && FullSection(fmt, section, Expected(range))
            && forall i: nat :: i < Complete(fmt, section.entries) ==>
                 Decodes(lib, slim, TupleAt(fmt, section.entries, range.from, i))
  {
    hide FileSectionOf, FullSection, Complete, LastError, SeekIndex, TupleAt, Decodes, Source.RangesNumbers;
    var fmt, section := FormatOf(slim), FileSectionOf(slim, file);
    var items, numbers := FileFacts(lib, slim, file, range), Source.RangesNumbers([range]);
    ParsedRangeForward(file, range);
    FullSectionIff(fmt, section, range);
    RangeCounted(range);
    var n := Complete(fmt, section.entries);
    forall i: nat | i < n
      ensures items[i].Block? <==> Decodes(lib, slim, TupleAt(fmt, section.entries, range.from, i))
      ensures items[i].Block? && i < |numbers| ==> items[i].facts.blockNumber == numbers[i]
    {
      CompleteItem(lib, slim, file, range, i);
    }
    if LastError(fmt, section, Expected(range)).Some? {
      ErrorItem(lib, slim, file, range);
    }
  }

  lemma RangeCounted(range: Range)
    requires range.from <= range.to
    ensures |Source.RangesNumbers([range])| == Expected(range)
    ensures forall i | 0 <= i < Expected(range) :: Source.RangesNumbers([range])[i] == range.from + i
  {
    Source.OneRange([range]);
  }

  lemma CompleteItem(lib: Library, slim: bool, file: Bytes, range: Range, i: nat)
    requires i < Complete(FormatOf(slim), FileSectionOf(slim, file).entries)
    ensures var t := TupleAt(FormatOf(slim), FileSectionOf(slim, file).entries, range.from, i);
            && FileFacts(lib, slim, file, range)[i] == ItemOf(lib, slim, Ok(t))
            && (range.from + i < TWO64 ==> t.blockNumber == range.from + i)
  {
    hide Complete, LastError, Section, ScanFrom, Decodes;
    CountedItems(slim, file, range, i);
  }

  lemma ErrorItem(lib: Library, slim: bool, file: Bytes, range: Range)
    requires LastError(FormatOf(slim), FileSectionOf(slim, file), Expected(range)).Some?
    ensures var n := Complete(FormatOf(slim), FileSectionOf(slim, file).entries);
            n < |FileFacts(lib, slim, file, range)| && FileFacts(lib, slim, file, range)[n] == ReadError
  {
    hide Complete, LastError, Section, ScanFrom;
    CountedItems(slim, file, range, Complete(FormatOf(slim), FileSectionOf(slim, file).entries));
  }

  /** A file of the archive directory: its format by extension, and its bytes. */
  datatype Stored = Stored(slim: bool, bytes: Bytes)

  function OpenerOf(lib: Library, disk: string -> Stored): Source.Opener {
    path => OpenFile(lib, disk(path).slim, disk(path).bytes)
  }

  /** A scanned file streams its range cleanly exactly when its bytes say so. */
  lemma CleanFileFromBytes(lib: Library, disk: string -> Stored, f: Source.SourceFile, range: Range)
    requires SeekIndex(disk(f.path).bytes, 0, true) == Ok(Some(range)) && f.ranges == [range]
    ensures var fmt, section := FormatOf(disk(f.path).slim), FileSectionOf(disk(f.path).slim, disk(f.path).bytes);
            Source.CleanFile(OpenerOf(lib, disk), f) <==>
            && FullSection(fmt, section, Expected(range))
            && forall i: nat :: i < Complete(fmt, section.entries) ==>
                 Decodes(lib, disk(f.path).slim, TupleAt(fmt, section.entries, range.from, i))
  {
    hide FileSectionOf, FullSection, Complete, SeekIndex, TupleAt, Decodes, FileFacts;
    hide Source.RangesNumbers, Source.Carries;
    CleanFileIff(lib, disk(f.path).slim, disk(f.path).bytes, range);
  }

  // ── The two archive formats ────────────────────────────────────────────────

  /** The i-th block of both files was written from the same receipts. */
  ghost predicate SameBlock(lib: Library, full: BlockTuple, slim: BlockTuple, rs: seq<Receipt>, forms: seq<Form>) {
    && |forms| == |rs|
    && full.header == slim.header && full.body == slim.body && full.blockNumber == slim.blockNumber
    && |Codec.FullItems(rs, forms)| < TWO64 && |Codec.SlimItems(rs)| < TWO64
    && full.receipts == Rlp.EncodeList(Codec.FullItems(rs, forms))
    && slim.receipts == Rlp.EncodeList(Codec.SlimItems(rs))
  }

  /** A block written to an ERA1 file and to an ERE file is read as the same facts
      exactly when its header does not decode or every bloom is that of its logs. */
  lemma FormatsAgreeIff(lib: Library, full: BlockTuple, slim: BlockTuple, rs: seq<Receipt>, forms: seq<Form>)
    requires SameBlock(lib, full, slim, rs, forms)
    ensures ItemOf(lib, false, Ok(full)) == ItemOf(lib, true, Ok(slim)) <==>
            lib.header(full.header).None? || Codec.HonestBlooms(lib.keccak, rs)
    ensures lib.header(full.header).Some? ==>
              ItemOf(lib, false, Ok(full))
              == Block(Facts(full.blockNumber, lib.header(full.header).value, rs, HashesOf(lib, full.body)))
  {
    hide Codec.DecodeSection, Codec.HonestBlooms, HashesOf, Codec.FullItems, Codec.SlimItems, Rlp.EncodePayload;
    var fullRaw, slimRaw := full.receipts, slim.receipts;
    assert fullRaw + [] == fullRaw && slimRaw + [] == slimRaw;
    Codec.FullSectionRoundTrip(lib.keccak, rs, forms, []);
    Codec.SlimSectionRoundTrip(lib.keccak, rs, []);
    Codec.LayoutsAgreeIff(lib.keccak, rs, forms);
  }
}
