/** e2store files: entry framing, block indices, and what a file means as a
    stream of block tuples. */
module E2Store {
  import opened Types
  import opened Rlp

  // ── Little-endian integers ─────────────────────────────────────────────────

  function LeValue(s: Bytes): nat {
    if s == [] then 0 else s[0] + 256 * LeValue(s[1..])
  }

  function LeBytes(n: nat, width: nat): (s: Bytes)
    ensures |s| == width
  {
    if width == 0 then [] else [n % 256] + LeBytes(n / 256, width - 1)
  }

  lemma {:induction false} LeRoundTrip(n: nat, width: nat)
    requires n < Pow256(width)
    ensures LeValue(LeBytes(n, width)) == n
  {
    if width > 0 {
      LeRoundTrip(n / 256, width - 1);
    }
  }

  lemma {:induction false} LeBound(s: Bytes)
    ensures LeValue(s) < Pow256(|s|)
  {
    if s != [] {
      LeBound(s[1..]);
    }
  }

  // ── Entries ────────────────────────────────────────────────────────────────

  datatype EntryType = EntryType(b0: Byte, b1: Byte)

  const E2STORE_VERSION := EntryType(0x65, 0x32)
  const ERA1_COMPRESSED_HEADER := EntryType(0x03, 0x00)
  const ERA1_COMPRESSED_BODY := EntryType(0x04, 0x00)
  const ERA1_COMPRESSED_RECEIPTS := EntryType(0x05, 0x00)
  const ERE_COMPRESSED_SLIM_RECEIPTS := EntryType(0x0a, 0x00)
  const ERA1_TOTAL_DIFFICULTY := EntryType(0x06, 0x00)
  const ERA1_BLOCK_INDEX := EntryType(0x66, 0x32)
  const ERE_DYNAMIC_BLOCK_INDEX := EntryType(0x67, 0x32)

  datatype Entry = Entry(kind: EntryType, data: Bytes)

  datatype SourceError =
    | ReservedNotZero
    | ReadFailed
    | NotVersion
    | NoIndex
    | IndexTooShort
    | CountNegative
    | CountZero
    | BadComponentCount
    | LengthMismatch
    | RangeOverflow
    | MidBlock(headers: nat, bodies: nat, receipts: nat)
    | CountMismatch(expected: nat, found: nat)

  datatype EntryHeader = EntryHeader(kind: EntryType, length: nat)

  /** Fewer than eight bytes left is the end of the file. */
  function ReadEntryHeader(file: Bytes, pos: nat): Result<Option<EntryHeader>, SourceError> {
    if pos + 8 > |file| then Ok(None)
    else
      var header := file[pos..pos + 8];
      if LeValue(header[6..8]) != 0 then Err(ReservedNotZero)
      else Ok(Some(EntryHeader(EntryType(header[0], header[1]), LeValue(header[2..6]))))
  }

  function ReadEntry(file: Bytes, pos: nat): (r: Result<Option<(Entry, nat)>, SourceError>)
    ensures r.Ok? && r.value.Some? ==> pos + 8 <= r.value.value.1 <= |file|
  {
    var header :- ReadEntryHeader(file, pos);
    if header.None? then Ok(None)
    else
      var end := pos + 8 + header.value.length;
      if end > |file| then Err(ReadFailed)
      else Ok(Some((Entry(header.value.kind, file[pos + 8..end]), end)))
  }

  /** Everything a full read meets: entries, then the end or an error. */
  datatype Scan = Scan(entries: seq<Entry>, error: Option<SourceError>)

  function ScanFrom(file: Bytes, pos: nat): Scan
    requires pos <= |file|
    decreases |file| - pos
  {
    match ReadEntry(file, pos)
    case Err(e) => Scan([], Some(e))
    case Ok(None) => Scan([], None)
    case Ok(Some((entry, next))) =>
      var rest := ScanFrom(file, next);
      Scan([entry] + rest.entries, rest.error)
  }

  function EncodeHeader(kind: EntryType, length: nat): (s: Bytes)
    ensures |s| == 8
  {
    [kind.b0, kind.b1] + LeBytes(length, 4) + LeBytes(0, 2)
  }

  function EncodeEntry(e: Entry): Bytes {
    EncodeHeader(e.kind, |e.data|) + e.data
  }

  function EncodeFile(es: seq<Entry>): Bytes {
    if es == [] then [] else EncodeEntry(es[0]) + EncodeFile(es[1..])
  }

  ghost predicate Framed(es: seq<Entry>) {
    forall i | 0 <= i < |es| :: |es[i].data| < 0x1_0000_0000
  }

  lemma HeaderReads(file: Bytes, pos: nat, kind: EntryType, length: nat)
    requires length < 0x1_0000_0000
    requires pos + 8 <= |file| && file[pos..pos + 8] == EncodeHeader(kind, length)
    ensures ReadEntryHeader(file, pos) == Ok(Some(EntryHeader(kind, length)))
  {
    hide LeBytes, LeValue;
    var header := file[pos..pos + 8];
    assert header[2..6] == LeBytes(length, 4) && header[6..8] == LeBytes(0, 2);
    assert Pow256(2) == 0x1_0000;
    assert Pow256(4) == 0x1_0000_0000;
    LeRoundTrip(length, 4);
    LeRoundTrip(0, 2);
  }

  lemma EntryReads(file: Bytes, pos: nat, e: Entry, after: Bytes)
    requires |e.data| < 0x1_0000_0000
    requires pos <= |file| && file[pos..] == EncodeEntry(e) + after
    ensures var next := pos + 8 + |e.data|;
            next <= |file| && ReadEntry(file, pos) == Ok(Some((e, next))) && file[next..] == after
  {
    hide EncodeHeader, ReadEntryHeader;
    var rest, header := file[pos..], EncodeHeader(e.kind, |e.data|);
    assert rest == header + (e.data + after);
    assert file[pos..pos + 8] == rest[..8] == header;
    assert file[pos + 8..pos + 8 + |e.data|] == rest[8..8 + |e.data|] == e.data;
    assert file[pos + 8 + |e.data|..] == rest[8 + |e.data|..] == after;
    HeaderReads(file, pos, e.kind, |e.data|);
  }

  lemma ScanStep(file: Bytes, pos: nat)
    requires pos <= |file|
    ensures match ReadEntry(file, pos)
            case Err(e) => ScanFrom(file, pos) == Scan([], Some(e))
            case Ok(None) => ScanFrom(file, pos) == Scan([], None)
            case Ok(Some((entry, next))) =>
              ScanFrom(file, pos) == Scan([entry] + ScanFrom(file, next).entries, ScanFrom(file, next).error)
  {
  }

  lemma {:induction false} EncodedTailScans(file: Bytes, pos: nat, es: seq<Entry>)
    requires Framed(es)
    requires pos <= |file| && file[pos..] == EncodeFile(es)
    ensures ScanFrom(file, pos) == Scan(es, None)
    decreases |es|
  {
    hide ReadEntry, EncodeEntry, ScanFrom;
    ScanStep(file, pos);
    if es == [] {
      NothingLeft(file, pos);
    } else {
      var next := pos + 8 + |es[0].data|;
      EntryReads(file, pos, es[0], EncodeFile(es[1..]));
      EncodedTailScans(file, next, es[1..]);
      assert es == [es[0]] + es[1..];
    }
  }

  lemma NothingLeft(file: Bytes, pos: nat)
    requires pos <= |file| && file[pos..] == []
    ensures ReadEntry(file, pos) == Ok(None)
  {
  }

  /** Reading an encoded file gives back its entries. */
  lemma EncodedFileScans(es: seq<Entry>)
    requires Framed(es)
    ensures ScanFrom(EncodeFile(es), 0) == Scan(es, None)
  {
    EncodedTailScans(EncodeFile(es), 0, es);
  }

  // ── Block indices ──────────────────────────────────────────────────────────

  datatype Range = Range(from: U64, to: U64)

  function RangeOf(start: U64, count: nat): Result<Range, SourceError>
    requires count > 0
  {
    if start + count - 1 >= TWO64 then Err(RangeOverflow) else Ok(Range(start, start + count - 1))
  }

  /** A 64-bit little-endian word of an entry. */
  function Word(data: Bytes, at: nat): U64
    requires at + 8 <= |data|
  {
    LeBound(data[at..at + 8]);
    Pow256Eight();
    LeValue(data[at..at + 8])
  }

  /** Length arithmetic is on machine words and wraps in a release build. */
  function ParseBlockIndex(data: Bytes): Result<Range, SourceError> {
    if |data| < 16 then Err(IndexTooShort) else
    var count := Word(data, |data| - 8);
    if AsI64(count) < 0 then Err(CountNegative)
    else if count == 0 then Err(CountZero)
    else if |data| != (8 + count * 8 + 8) % TWO64 then Err(LengthMismatch)
    else RangeOf(Word(data, 0), count)
  }

  function ParseDynamicIndex(data: Bytes): Result<Range, SourceError> {
    if |data| < 24 then Err(IndexTooShort) else
    var count := Word(data, |data| - 8);
    var components := Word(data, |data| - 16);
    if !(2 <= components <= 5) then Err(BadComponentCount)
    else if count == 0 then Err(CountZero)
    else if |data| != (8 + count * components * 8 + 16) % TWO64 then Err(LengthMismatch)
    else RangeOf(Word(data, 0), count)
  }

  function EncodeBlockIndex(start: U64, offsets: Bytes): Bytes {
    LeBytes(start, 8) + offsets + LeBytes(|offsets| / 8, 8)
  }

  function EncodeDynamicIndex(start: U64, components: nat, count: nat, offsets: Bytes): Bytes {
    LeBytes(start, 8) + offsets + LeBytes(components, 8) + LeBytes(count, 8)
  }

  lemma WordAt(before: Bytes, n: U64, after: Bytes)
    ensures Word(before + LeBytes(n, 8) + after, |before|) == n
  {
    var data := before + LeBytes(n, 8) + after;
    assert data[|before|..|before| + 8] == LeBytes(n, 8);
    Pow256Eight();
    LeRoundTrip(n, 8);
  }

  /** Parsing an encoded index of `n` blocks gives `start` to `start + n - 1`. */
  lemma BlockIndexRoundTrip(start: U64, n: nat, offsets: Bytes)
    requires |offsets| == 8 * n && 8 * n + 16 < TWO64
    ensures ParseBlockIndex(EncodeBlockIndex(start, offsets)) == if n == 0 then Err(CountZero) else RangeOf(start, n)
  {
    hide Word, LeBytes;
    var data := EncodeBlockIndex(start, offsets);
    WordAt([], start, offsets + LeBytes(n, 8));
    assert data == [] + LeBytes(start, 8) + (offsets + LeBytes(n, 8));
    WordAt(LeBytes(start, 8) + offsets, n, []);
    assert data == LeBytes(start, 8) + offsets + LeBytes(n, 8) + [];
  }

  lemma DynamicIndexWords(start: U64, components: U64, n: U64, offsets: Bytes)
    ensures var data := EncodeDynamicIndex(start, components, n, offsets);
            && |data| == |offsets| + 24
            && Word(data, 0) == start && Word(data, |data| - 16) == components && Word(data, |data| - 8) == n
  {
    hide Word, LeBytes;
    var data := EncodeDynamicIndex(start, components, n, offsets);
    WordAt([], start, offsets + LeBytes(components, 8) + LeBytes(n, 8));
    assert data == [] + LeBytes(start, 8) + (offsets + LeBytes(components, 8) + LeBytes(n, 8));
    WordAt(LeBytes(start, 8) + offsets, components, LeBytes(n, 8));
    WordAt(LeBytes(start, 8) + offsets + LeBytes(components, 8), n, []);
    assert data == LeBytes(start, 8) + offsets + LeBytes(components, 8) + LeBytes(n, 8) + [];
  }

  lemma DynamicIndexRoundTrip(start: U64, components: nat, n: nat, offsets: Bytes)
    requires 2 <= components <= 5 && n > 0
    requires |offsets| == 8 * (n * components) && |offsets| + 24 < TWO64
    ensures ParseDynamicIndex(EncodeDynamicIndex(start, components, n, offsets)) == RangeOf(start, n)
  {
    hide Word, EncodeDynamicIndex;
    assert n <= n * components;
    assert 8 + n * components * 8 + 16 == |offsets| + 24;
    DynamicIndexWords(start, components, n, offsets);
  }

  /** An accepted index states its own length, exactly when the count is below
      2^61: the length check multiplies the count by eight in 64 bits. */
  lemma AcceptedIndexLength(data: Bytes)
    requires ParseBlockIndex(data).Ok? && |data| < TWO63
    ensures var r := ParseBlockIndex(data).value;
            |data| == 8 * (r.to - r.from + 1) + 16 <==> Word(data, |data| - 8) < 0x2000_0000_0000_0000
  {
    hide Word;
  }

  /** Sixteen bytes that claim 2^61 blocks are accepted as an index. */
  lemma OversizedIndexAccepted()
    ensures var data := EncodeBlockIndex(0, [])[..8] + LeBytes(0x2000_0000_0000_0000, 8);
            ParseBlockIndex(data) == Ok(Range(0, 0x1FFF_FFFF_FFFF_FFFF))
  {
    hide Word, LeBytes;
    var count: U64 := 0x2000_0000_0000_0000;
    var data := EncodeBlockIndex(0, [])[..8] + LeBytes(count, 8);
    assert data == LeBytes(0, 8) + LeBytes(count, 8);
    WordAt([], 0, LeBytes(count, 8));
    assert data == [] + LeBytes(0, 8) + LeBytes(count, 8);
    WordAt(LeBytes(0, 8), count, []);
    assert data == LeBytes(0, 8) + LeBytes(count, 8) + [];
  }

  /** The same for the dynamic index, whose length check multiplies the count by
      the number of components as well. */
  lemma AcceptedDynamicIndexLength(data: Bytes)
    requires ParseDynamicIndex(data).Ok? && |data| < TWO63
    ensures var r := ParseDynamicIndex(data).value;
            var blocks: int, components: int := r.to - r.from + 1, Word(data, |data| - 16);
            var count: int := Word(data, |data| - 8);
            |data| == 8 * (blocks * components) + 24 <==> count * components < 0x2000_0000_0000_0000
  {
    hide Word;
    var count: int, components: int := Word(data, |data| - 8), Word(data, |data| - 16);
    WrappedLength(|data|, count * components);
    assert count * components * 8 == 8 * (count * components);
  }

  lemma WrappedLength(length: nat, words: nat)
    requires 24 <= length < TWO63 && length == (8 * words + 24) % TWO64
    ensures length == 8 * words + 24 <==> words < 0x2000_0000_0000_0000
  {
  }

  /** Twenty-four bytes that claim 2^59 blocks of four components are accepted. */
  lemma OversizedDynamicIndexAccepted()
    ensures ParseDynamicIndex(EncodeDynamicIndex(0, 4, 0x800_0000_0000_0000, [])) == Ok(Range(0, 0x7FF_FFFF_FFFF_FFFF))
  {
    hide Word, EncodeDynamicIndex;
    DynamicIndexWords(0, 4, 0x800_0000_0000_0000, []);
  }

  // ── Finding the index ──────────────────────────────────────────────────────

  predicate IsIndex(kind: EntryType) {
    kind == ERA1_BLOCK_INDEX || kind == ERE_DYNAMIC_BLOCK_INDEX
  }

  function ParseIndex(e: Entry): Result<Range, SourceError> {
    if e.kind == ERA1_BLOCK_INDEX then ParseBlockIndex(e.data) else ParseDynamicIndex(e.data)
  }

  /** The seeking scan: headers only, until an index entry is met. */
  function SeekIndex(file: Bytes, pos: nat, first: bool): Result<Option<Range>, SourceError>
    decreases if pos > |file| then 0 else |file| - pos
  {
    var header :- ReadEntryHeader(file, pos);
    if header.None? then Ok(None) else
    var h := header.value;
    if first && h.kind != E2STORE_VERSION then Err(NotVersion)
    else if IsIndex(h.kind) then
      var e :- ReadEntry(file, pos);
      var range :- ParseIndex(e.value.0);
      Ok(Some(range))
    else SeekIndex(file, pos + 8 + h.length, false)
  }

  method ReadEra1BlockIndexRange(file: Bytes) returns (r: Result<Option<Range>, SourceError>)
    ensures r == SeekIndex(file, 0, true)
  {
    hide SeekIndex, ParseIndex;
    var offset := 0;
    var first := true;
    while true
      invariant SeekIndex(file, 0, true) == SeekIndex(file, offset, first)
      decreases if offset > |file| then 0 else |file| - offset
    {
      SeekUnfold(file, offset, first);
      var header := ReadEntryHeader(file, offset);
      if header.Err? {
        return Err(header.error);
      }
      if header.value.None? {
        return Ok(None);
      }
      var entry := header.value.value;
      var dataOffset := offset + 8;
      if first {
        first := false;
        if entry.kind != E2STORE_VERSION {
          return Err(NotVersion);
        }
      }
      if entry.kind == ERA1_BLOCK_INDEX || entry.kind == ERE_DYNAMIC_BLOCK_INDEX {
        if dataOffset + entry.length > |file| {
          return Err(ReadFailed);
        }
        var data := file[dataOffset..dataOffset + entry.length];
        var range := ParseIndex(Entry(entry.kind, data));
        if range.Err? {
          return Err(range.error);
        }
        return Ok(Some(range.value));
      }
      offset := dataOffset + entry.length;
    }
  }

  lemma SeekUnfold(file: Bytes, pos: nat, first: bool)
    ensures SeekIndex(file, pos, first) ==
            match ReadEntryHeader(file, pos)
            case Err(e) => Err(e)
            case Ok(None) => Ok(None)
            case Ok(Some(h)) =>
              if first && h.kind != E2STORE_VERSION then Err(NotVersion)
              else if !IsIndex(h.kind) then SeekIndex(file, pos + 8 + h.length, false)
              else if pos + 8 + h.length > |file| then Err(ReadFailed)
              else match ParseIndex(Entry(h.kind, file[pos + 8..pos + 8 + h.length]))
                   case Err(e) => Err(e)
                   case Ok(range) => Ok(Some(range))
  {
    hide ParseIndex;
  }

  /** The first index entry of a list of entries. */
  function FirstIndex(es: seq<Entry>): Option<Entry> {
    if es == [] then None else if IsIndex(es[0].kind) then Some(es[0]) else FirstIndex(es[1..])
  }

  lemma {:induction false} SeekMeetsFirstIndex(file: Bytes, pos: nat)
    requires pos <= |file|
    ensures var found := FirstIndex(ScanFrom(file, pos).entries);
            && (found.Some? ==> SeekIndex(file, pos, false) ==
                                match ParseIndex(found.value)
                                case Err(e) => Err(e)
                                case Ok(range) => Ok(Some(range)))
            && (found.None? ==> !(SeekIndex(file, pos, false).Ok? && SeekIndex(file, pos, false).value.Some?))
    decreases |file| - pos
  {
    hide ParseIndex, SeekIndex;
    SeekUnfold(file, pos, false);
    match ReadEntry(file, pos)
    case Ok(Some((entry, next))) =>
      SeekMeetsFirstIndex(file, next);
      assert ScanFrom(file, pos).entries[1..] == ScanFrom(file, next).entries;
    case Ok(None) =>
    case Err(_) =>
      if ReadEntryHeader(file, pos).Ok? {
        SeekUnfold(file, pos + 8 + ReadEntryHeader(file, pos).value.value.length, false);
      }
  }

  /** On every file, the seeking scan and the full read meet the same first index
      entry: the seeking scan yields a range exactly when the full read finds an
      index behind a leading version record and that index parses. */
  lemma SeekAgreesWithFullRead(file: Bytes, range: Range)
    ensures SeekIndex(file, 0, true) == Ok(Some(range)) <==>
            var es := ScanFrom(file, 0).entries;
            && es != [] && es[0].kind == E2STORE_VERSION
            && FirstIndex(es).Some? && ParseIndex(FirstIndex(es).value) == Ok(range)
  {
    hide ParseIndex, SeekIndex;
    SeekUnfold(file, 0, true);
    SeekUnfold(file, 0, false);
    SeekMeetsFirstIndex(file, 0);
    match ReadEntry(file, 0)
    case Ok(Some((entry, next))) =>
      assert ScanFrom(file, 0).entries[0] == entry;
    case Ok(None) =>
    case Err(_) =>
  }
}
