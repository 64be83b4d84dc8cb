/** Archive files byte by byte: which type bytes carry which part of a block, and how
    lengths and index words are written. */
module ArchiveBytes {
  import opened Types
  import opened E2Store
  import opened BlockTuples
  import opened Rlp
  import opened BlockFacts
  import opened Pipeline
  import opened Sync
  import Codec

  // ── Bytes of an entry ──────────────────────────────────────────────────────

  lemma LeCons(b: Byte, rest: Bytes)
    ensures LeValue([b] + rest) == b + 256 * LeValue(rest)
  {
    assert ([b] + rest)[1..] == rest;
  }

  lemma LeTwo(a: Byte, b: Byte)
    ensures LeValue([a, b]) == a + 256 * b
  {
    hide LeValue;
    assert [a, b] == [a] + ([b] + []);
    LeCons(a, [b] + []);
    LeCons(b, []);
    LeNothing();
  }

  lemma LeNothing()
    ensures LeValue([]) == 0
  {
  }

  lemma LeFour(a: Byte, b: Byte, c: Byte, d: Byte)
    ensures LeValue([a, b, c, d]) == a + 0x100 * b + 0x1_0000 * c + 0x100_0000 * d
  {
    hide LeValue;
    assert [a, b, c, d] == [a] + ([b] + [c, d]);
    LeCons(a, [b] + [c, d]);
    LeCons(b, [c, d]);
    LeTwo(c, d);
  }

  /** Four bytes, the lowest first. */
  function FourBytes(s: Bytes, at: nat): nat
    requires at + 4 <= |s|
  {
    var a: int, b: int, c: int, d: int := s[at], s[at + 1], s[at + 2], s[at + 3];
    a + 0x100 * b + 0x1_0000 * c + 0x100_0000 * d
  }

  lemma TwoAt(s: Bytes, at: nat)
    requires at + 2 <= |s|
    ensures s[at..at + 2] == [s[at], s[at + 1]]
  {
  }

  lemma FourAt(s: Bytes, at: nat)
    requires at + 4 <= |s|
    ensures s[at..at + 4] == [s[at], s[at + 1], s[at + 2], s[at + 3]]
  {
  }

  /** The header of an entry: two type bytes, four length bytes with the lowest first,
      and two bytes that must be zero. */
  lemma HeaderBytes(file: Bytes, pos: nat)
    ensures ReadEntryHeader(file, pos) ==
            if pos + 8 > |file| then Ok(None)
            else if file[pos + 6] != 0 || file[pos + 7] != 0 then Err(ReservedNotZero)
            else Ok(Some(EntryHeader(EntryType(file[pos], file[pos + 1]), FourBytes(file, pos + 2))))
  {
    hide LeValue;
    if pos + 8 <= |file| {
      var header := file[pos..pos + 8];
      TwoAt(header, 6);
      FourAt(header, 2);
      assert forall i | 0 <= i < 8 :: header[i] == file[pos + i];
      LeTwo(file[pos + 6], file[pos + 7]);
      LeFour(file[pos + 2], file[pos + 3], file[pos + 4], file[pos + 5]);
    }
  }

  /** A 64-bit word of an index, lowest byte first. */
  lemma WordBytes(data: Bytes, at: nat)
    requires at + 8 <= |data|
    ensures Word(data, at) == FourBytes(data, at) + 0x1_0000_0000 * FourBytes(data, at + 4)
  {
    hide LeValue;
    var word := data[at..at + 8];
    var high := [data[at + 4], data[at + 5], data[at + 6], data[at + 7]];
    assert word == [data[at]] + ([data[at + 1]] + ([data[at + 2]] + ([data[at + 3]] + high)));
    LeCons(data[at], [data[at + 1]] + ([data[at + 2]] + ([data[at + 3]] + high)));
    LeCons(data[at + 1], [data[at + 2]] + ([data[at + 3]] + high));
    LeCons(data[at + 2], [data[at + 3]] + high);
    LeCons(data[at + 3], high);
    LeFour(data[at + 4], data[at + 5], data[at + 6], data[at + 7]);
  }

  // ── Files written byte by byte ─────────────────────────────────────────────

  /** One entry on disk. */
  function RawEntry(e: Entry): Bytes {
    var n := |e.data|;
    [e.kind.b0, e.kind.b1, n % 0x100, n / 0x100 % 0x100, n / 0x1_0000 % 0x100, n / 0x100_0000 % 0x100, 0, 0] + e.data
  }

  function RawFile(es: seq<Entry>): Bytes {
    if es == [] then [] else RawEntry(es[0]) + RawFile(es[1..])
  }

  lemma LengthBytes(n: nat)
    ensures LeBytes(n, 4) == [n % 0x100, n / 0x100 % 0x100, n / 0x1_0000 % 0x100, n / 0x100_0000 % 0x100]
    ensures LeBytes(0, 2) == [0, 0]
  {
    assert n / 0x100 / 0x100 == n / 0x1_0000 && n / 0x1_0000 / 0x100 == n / 0x100_0000;
    assert LeBytes(n, 4) == [n % 0x100] + LeBytes(n / 0x100, 3);
    assert LeBytes(n / 0x100, 3) == [n / 0x100 % 0x100] + LeBytes(n / 0x1_0000, 2);
    assert LeBytes(n / 0x1_0000, 2) == [n / 0x1_0000 % 0x100] + LeBytes(n / 0x100_0000, 1);
    assert LeBytes(n / 0x100_0000, 1) == [n / 0x100_0000 % 0x100] + LeBytes(n / 0x100_0000 / 0x100, 0);
    assert LeBytes(0, 2) == [0] + LeBytes(0, 1);
  }

  lemma {:induction false} RawIsEncoded(es: seq<Entry>)
    ensures RawFile(es) == EncodeFile(es)
  {
    hide LeBytes;
    if es != [] {
      LengthBytes(|es[0].data|);
      assert RawEntry(es[0]) == EncodeEntry(es[0]);
      RawIsEncoded(es[1..]);
    }
  }

  /** The data of the entries with these two type bytes, in file order. */
  function Typed(es: seq<Entry>, b0: Byte, b1: Byte): seq<Bytes> {
    if es == [] then []
    else (if es[0].kind.b0 == b0 && es[0].kind.b1 == b1 then [es[0].data] else []) + Typed(es[1..], b0, b1)
  }

  lemma OneTyped(e: Entry, kind: EntryType)
    ensures DataOf([e], kind) == if e.kind == kind then [e.data] else []
  {
    assert [e][..0] == [];
  }

  lemma {:induction false} TypedIsDataOf(es: seq<Entry>, b0: Byte, b1: Byte)
    ensures Typed(es, b0, b1) == DataOf(es, EntryType(b0, b1))
  {
    if es != [] {
      hide DataOf;
      TypedIsDataOf(es[1..], b0, b1);
      DataOfConcat([es[0]], es[1..], EntryType(b0, b1));
      OneTyped(es[0], EntryType(b0, b1));
      assert es == [es[0]] + es[1..];
    }
  }

  ghost predicate NoneTyped(es: seq<Entry>, b0: Byte, b1: Byte) {
    forall i | 0 <= i < |es| :: es[i].kind != EntryType(b0, b1)
  }

  lemma {:induction false} NoneTypedIff(es: seq<Entry>, b0: Byte, b1: Byte)
    ensures NoneTyped(es, b0, b1) <==> !HasKind(es, EntryType(b0, b1))
  {
    if es != [] {
      NoneTypedIff(es[1..], b0, b1);
      assert NoneTyped(es, b0, b1) <==> es[0].kind != EntryType(b0, b1) && NoneTyped(es[1..], b0, b1) by {
        if es[0].kind != EntryType(b0, b1) && NoneTyped(es[1..], b0, b1) {
          assert forall i | 1 <= i < |es| :: es[i] == es[1..][i - 1];
        }
        if NoneTyped(es, b0, b1) {
          assert forall i | 0 <= i < |es| - 1 :: es[1..][i] == es[i + 1];
        }
      }
    }
  }

  /** A file on disk: the version record, the block section, and the index. */
  function DiskFile(es: seq<Entry>, index: Entry): Bytes {
    RawFile([Entry(EntryType(0x65, 0x32), [])] + es + [index])
  }

  /** `n` is the least of the four counts. */
  predicate Least(n: nat, a: nat, b: nat, c: nat, d: nat) {
    n <= a && n <= b && n <= c && n <= d && (n == a || n == b || n == c || n == d)
  }

  /** The item a file yields after its `n` complete blocks. */
  function EndItem(range: Range, n: nat, headers: nat, bodies: nat, receipts: nat, difficulties: nat):
    Option<Result<BlockTuple, SourceError>>
    requires range.from <= range.to
    requires Least(n, headers, bodies, receipts, difficulties)
  {
    var expected: int := range.to - range.from + 1;
    if headers == bodies == receipts == difficulties then
      if n == expected then None else Some(Err(CountMismatch(expected, n)))
    else Some(Err(MidBlock(headers - n, bodies - n, receipts - n)))
  }

  lemma Era1Components(es: seq<Entry>)
    ensures Headers(es) == Typed(es, 0x03, 0x00) && Bodies(es) == Typed(es, 0x04, 0x00)
    ensures Receipts(ERA1_TRAVERSAL, es) == Typed(es, 0x05, 0x00)
    ensures Difficulties(ERA1_TRAVERSAL, es) == Typed(es, 0x06, 0x00)
  {
    hide DataOf, Typed;
    TypedIsDataOf(es, 0x03, 0x00);
    TypedIsDataOf(es, 0x04, 0x00);
    TypedIsDataOf(es, 0x05, 0x00);
    TypedIsDataOf(es, 0x06, 0x00);
  }

  lemma EreComponents(es: seq<Entry>)
    ensures Headers(es) == Typed(es, 0x03, 0x00) && Bodies(es) == Typed(es, 0x04, 0x00)
    ensures Receipts(ERE_TRAVERSAL, es) == Typed(es, 0x0a, 0x00)
    ensures Difficulties(ERE_TRAVERSAL, es) == []
  {
    hide DataOf, Typed;
    TypedIsDataOf(es, 0x03, 0x00);
    TypedIsDataOf(es, 0x04, 0x00);
    TypedIsDataOf(es, 0x0a, 0x00);
  }

  lemma DiskSection(fmt: Format, es: seq<Entry>, index: Entry, range: Range, i: nat)
    requires IsFormat(fmt) && Framed(es) && |index.data| < 0x1_0000_0000
    requires index.kind == fmt.indexEntry && !HasKind(es, fmt.indexEntry)
    ensures FileItem(fmt, DiskFile(es, index), range, i) == ItemAt(fmt, Scan(es, None), range, i)
  {
    hide ScanFrom, EncodeFile, RawFile, ItemAt, DataOf;
    RawIsEncoded([Entry(EntryType(0x65, 0x32), [])] + es + [index]);
    assert DiskFile(es, index) == FileOf(es, index);
    FileSection(fmt, es, index);
    VersionIgnored(fmt, es);
    SameItems(fmt, [Entry(E2STORE_VERSION, [])] + es, es, range, i);
  }

  lemma Era1Complete(es: seq<Entry>, n: nat)
    requires Least(n, |Typed(es, 0x03, 0x00)|, |Typed(es, 0x04, 0x00)|, |Typed(es, 0x05, 0x00)|,
                   |Typed(es, 0x06, 0x00)|)
    ensures Complete(ERA1_TRAVERSAL, es) == n
  {
    hide DataOf, Typed, Headers, Bodies, Receipts, Difficulties;
    Era1Components(es);
  }

  lemma EreComplete(es: seq<Entry>, n: nat)
    requires Least(n, |Typed(es, 0x03, 0x00)|, |Typed(es, 0x04, 0x00)|, |Typed(es, 0x0a, 0x00)|,
                   |Typed(es, 0x0a, 0x00)|)
    ensures Complete(ERE_TRAVERSAL, es) == n
  {
    hide DataOf, Typed, Headers, Bodies, Receipts, Difficulties;
    EreComponents(es);
  }

  /** An ERA1 file, whatever the order of its entries: headers are the entries of type
      03 00, bodies 04 00, receipts 05 00 and difficulties 06 00, up to the index 66 32;
      the i-th block has the i-th of each and the number of the index start plus i. */
  lemma Era1FileReads(es: seq<Entry>, index: Bytes, range: Range, n: nat, i: nat)
    requires Framed(es) && |index| < 0x1_0000_0000 && NoneTyped(es, 0x66, 0x32) && range.from <= range.to
    requires Least(n, |Typed(es, 0x03, 0x00)|, |Typed(es, 0x04, 0x00)|, |Typed(es, 0x05, 0x00)|,
                   |Typed(es, 0x06, 0x00)|)
    ensures var headers, bodies := Typed(es, 0x03, 0x00), Typed(es, 0x04, 0x00);
            var receipts, difficulties := Typed(es, 0x05, 0x00), Typed(es, 0x06, 0x00);
            FileItem(ERA1_TRAVERSAL, DiskFile(es, Entry(EntryType(0x66, 0x32), index)), range, i)
            == if i < n then
                 Some(Ok(BlockTuple((range.from + i) % TWO64, headers[i], bodies[i], receipts[i], difficulties[i])))
               else if i > n then None
               else EndItem(range, n, |headers|, |bodies|, |receipts|, |difficulties|)
  {
    hide DiskFile, FileItem, Typed, DataOf, HasKind, NoneTyped, Framed, Complete, Headers, Bodies, Receipts,
         Difficulties;
    NoneTypedIff(es, 0x66, 0x32);
    DiskSection(ERA1_TRAVERSAL, es, Entry(EntryType(0x66, 0x32), index), range, i);
    Era1Components(es);
    Era1Complete(es, n);
  }

  /** An ERE file: the same, with slim receipts of type 0a 00, no difficulties, and the
      index 67 32. */
  lemma EreFileReads(es: seq<Entry>, index: Bytes, range: Range, n: nat, i: nat)
    requires Framed(es) && |index| < 0x1_0000_0000 && NoneTyped(es, 0x67, 0x32) && range.from <= range.to
    requires Least(n, |Typed(es, 0x03, 0x00)|, |Typed(es, 0x04, 0x00)|, |Typed(es, 0x0a, 0x00)|,
                   |Typed(es, 0x0a, 0x00)|)
    ensures var headers, bodies, receipts := Typed(es, 0x03, 0x00), Typed(es, 0x04, 0x00), Typed(es, 0x0a, 0x00);
            FileItem(ERE_TRAVERSAL, DiskFile(es, Entry(EntryType(0x67, 0x32), index)), range, i)
            == if i < n then Some(Ok(BlockTuple((range.from + i) % TWO64, headers[i], bodies[i], receipts[i], [])))
               else if i > n then None
               else EndItem(range, n, |headers|, |bodies|, |receipts|, |receipts|)
  {
    hide DiskFile, FileItem, Typed, DataOf, HasKind, NoneTyped, Framed, Complete, Headers, Bodies, Receipts,
         Difficulties;
    NoneTypedIff(es, 0x67, 0x32);
    DiskSection(ERE_TRAVERSAL, es, Entry(EntryType(0x67, 0x32), index), range, i);
    EreComponents(es);
    EreComplete(es, n);
  }

  // ── Finding the index ──────────────────────────────────────────────────────

  lemma FirstEntry(es: seq<Entry>)
    requires es != [] && Framed(es) && NoneTyped(es, 0x66, 0x32) && NoneTyped(es, 0x67, 0x32)
    ensures |es[0].data| < 0x1_0000_0000 && !IsIndex(es[0].kind)
    ensures Framed(es[1..]) && NoneTyped(es[1..], 0x66, 0x32) && NoneTyped(es[1..], 0x67, 0x32)
    ensures EncodeFile(es) == EncodeEntry(es[0]) + EncodeFile(es[1..])
    ensures |EncodeEntry(es[0])| == 8 + |es[0].data|
  {
  }

  /** The seeking scan passes over an entry that is no index. */
  lemma SeekSkipsOne(file: Bytes, pos: nat, e: Entry, after: Bytes)
    requires |e.data| < 0x1_0000_0000 && !IsIndex(e.kind)
    requires pos <= |file| && file[pos..] == EncodeEntry(e) + after
    ensures var next := pos + 8 + |e.data|;
            next <= |file| && file[next..] == after && SeekIndex(file, pos, false) == SeekIndex(file, next, false)
  {
    hide SeekIndex, EncodeEntry, ReadEntry, IsIndex;
    EntryReads(file, pos, e, after);
    HeaderOf(file, pos, e, after);
    SeekUnfold(file, pos, false);
  }

  lemma {:induction false} SeekSkips(file: Bytes, pos: nat, es: seq<Entry>, rest: Bytes)
    requires Framed(es) && NoneTyped(es, 0x66, 0x32) && NoneTyped(es, 0x67, 0x32)
    requires pos <= |file| && file[pos..] == EncodeFile(es) + rest
    ensures SeekIndex(file, pos, false) == SeekIndex(file, |file| - |rest|, false)
    decreases |es|
  {
    hide SeekIndex, EncodeEntry, Framed, NoneTyped;
    if es == [] {
      assert file[pos..] == rest;
    } else {
      hide EncodeFile, IsIndex;
      FirstEntry(es);
      assert file[pos..] == EncodeEntry(es[0]) + (EncodeFile(es[1..]) + rest);
      SeekSkipsOne(file, pos, es[0], EncodeFile(es[1..]) + rest);
      SeekSkips(file, pos + 8 + |es[0].data|, es[1..], rest);
    }
  }

  lemma HeaderOf(file: Bytes, pos: nat, e: Entry, after: Bytes)
    requires |e.data| < 0x1_0000_0000 && pos + 8 <= |file|
    requires file[pos..pos + 8] <= EncodeEntry(e) + after
    ensures ReadEntryHeader(file, pos) == Ok(Some(EntryHeader(e.kind, |e.data|)))
  {
    hide EncodeHeader, ReadEntryHeader;
    var header := EncodeHeader(e.kind, |e.data|);
    assert (EncodeEntry(e) + after)[..8] == header;
    assert file[pos..pos + 8] == header;
    HeaderReads(file, pos, e.kind, |e.data|);
  }

  /** A file that ends before its index has none: truncated anywhere, even inside an
      entry, it is not an error. */
  lemma {:induction false} SeekTruncated(file: Bytes, pos: nat, es: seq<Entry>)
    requires Framed(es) && NoneTyped(es, 0x66, 0x32) && NoneTyped(es, 0x67, 0x32)
    requires pos <= |file| ==> file[pos..] <= EncodeFile(es)
    ensures SeekIndex(file, pos, false) == Ok(None)
    decreases |es|
  {
    hide SeekIndex, EncodeEntry, Framed, NoneTyped, IsIndex;
    SeekUnfold(file, pos, false);
    if pos + 8 <= |file| {
      assert es != [];
      FirstEntry(es);
      var e, after := es[0], EncodeFile(es[1..]);
      assert file[pos..pos + 8] == file[pos..][..8];
      HeaderOf(file, pos, e, after);
      var next := pos + 8 + |e.data|;
      if next <= |file| {
        assert file[next..] == file[pos..][8 + |e.data|..];
        assert EncodeFile(es)[8 + |e.data|..] == after;
      }
      SeekTruncated(file, next, es[1..]);
    }
  }

  lemma EntryLength(e: Entry)
    ensures |EncodeEntry(e)| == 8 + |e.data|
  {
  }

  /** A file on disk without its index. */
  function DiskFront(es: seq<Entry>): Bytes {
    RawFile([Entry(EntryType(0x65, 0x32), [])] + es)
  }

  lemma VersionFirst(file: Bytes, rest: Bytes)
    requires file == EncodeEntry(Entry(E2STORE_VERSION, [])) + rest
    ensures SeekIndex(file, 0, true) == SeekIndex(file, 8, false) && file[8..] == rest
  {
    hide SeekIndex, EncodeEntry, IsIndex;
    var version := Entry(E2STORE_VERSION, []);
    EntryLength(version);
    HeaderOf(file, 0, version, rest);
    SeekUnfold(file, 0, true);
    assert !IsIndex(E2STORE_VERSION) by { NotAnIndex(); }
  }

  lemma NotAnIndex()
    ensures !IsIndex(E2STORE_VERSION)
  {
  }

  /** A file cut off before its index, at any byte, has no index, and is filed by its
      name; cut off inside the index entry it is an error. */
  lemma TruncatedFile(es: seq<Entry>, index: Entry, n: nat)
    requires Framed(es) && |index.data| < 0x1_0000_0000
    requires NoneTyped(es, 0x66, 0x32) && NoneTyped(es, 0x67, 0x32)
    requires index.kind == EntryType(0x66, 0x32) || index.kind == EntryType(0x67, 0x32)
    requires 8 <= n < |DiskFile(es, index)|
    ensures SeekIndex(DiskFile(es, index)[..n], 0, true)
            == if n < |DiskFront(es)| + 8 then Ok(None) else Err(ReadFailed)
  {
    hide RawFile, SeekIndex, EncodeEntry, NoneTyped;
    var version := Entry(EntryType(0x65, 0x32), []);
    var first, middle, last := EncodeEntry(version), EncodeFile(es), EncodeEntry(index);
    DiskLayout(es, index);
    EntryLength(version);
    EntryLength(index);
    var file := DiskFile(es, index)[..n];
    VersionFirst(file, (middle + last)[..n - 8]);
    if n < 8 + |middle| {
      assert file[8..] <= middle;
      SeekTruncated(file, 8, es);
    } else {
      var rest := last[..n - 8 - |middle|];
      assert file[8..] == middle + rest;
      SeekSkips(file, 8, es, rest);
      var pos := |file| - |rest|;
      SeekUnfold(file, pos, false);
      if |rest| >= 8 {
        assert file[pos..pos + 8] == rest[..8] == last[..8];
        assert last + [] == last;
        HeaderOf(file, pos, index, []);
      }
    }
  }

  lemma DiskLayout(es: seq<Entry>, index: Entry)
    ensures var version := Entry(EntryType(0x65, 0x32), []);
            && DiskFront(es) == EncodeEntry(version) + EncodeFile(es)
            && DiskFile(es, index) == EncodeEntry(version) + (EncodeFile(es) + EncodeEntry(index))
            && |EncodeEntry(version)| == 8
  {
    hide RawFile, EncodeEntry;
    var version := Entry(EntryType(0x65, 0x32), []);
    EntryLength(version);
    RawIsEncoded([version] + es);
    RawIsEncoded([version] + es + [index]);
    assert ([version] + es)[1..] == es;
    assert [version] + es + [index] == [version] + (es + [index]);
    assert ([version] + (es + [index]))[1..] == es + [index];
    EncodeSnoc(es, index);
  }

  lemma {:induction false} EncodeSnoc(es: seq<Entry>, last: Entry)
    ensures EncodeFile(es + [last]) == EncodeFile(es) + EncodeEntry(last)
  {
    hide EncodeEntry;
    if es == [] {
      assert es + [last] == [last];
      assert EncodeFile([last][1..]) == [];
    } else {
      EncodeSnoc(es[1..], last);
      assert (es + [last])[1..] == es[1..] + [last];
    }
  }

  /** The index found in a whole file is the one written: of type 66 32 one start word, the
      offsets and the count; of type 67 32 one start word, the offsets, the number of
      components and the count. An index that does not parse is an error. */
  lemma DiskIndexFound(es: seq<Entry>, index: Entry)
    requires Framed(es) && |index.data| < 0x1_0000_0000
    requires NoneTyped(es, 0x66, 0x32) && NoneTyped(es, 0x67, 0x32)
    requires index.kind == EntryType(0x66, 0x32) || index.kind == EntryType(0x67, 0x32)
    ensures SeekIndex(DiskFile(es, index), 0, true)
            == match (if index.kind.b0 == 0x66 then ParseBlockIndex(index.data) else ParseDynamicIndex(index.data))
               case Ok(range) => Ok(Some(range))
               case Err(e) => Err(e)
  {
    hide RawFile, SeekIndex, EncodeEntry, NoneTyped, ParseBlockIndex, ParseDynamicIndex;
    var version := Entry(EntryType(0x65, 0x32), []);
    var file, last := DiskFile(es, index), EncodeEntry(index);
    DiskLayout(es, index);
    EntryLength(index);
    VersionFirst(file, EncodeFile(es) + last);
    SeekSkips(file, 8, es, last);
    var pos := |file| - |last|;
    assert file[pos..] == last + [];
    EntryReads(file, pos, index, []);
    HeaderOf(file, pos, index, []);
    SeekUnfold(file, pos, false);
    assert file[pos + 8..pos + 8 + |index.data|] == index.data by { DataBytes(file, pos, index); }
  }

  lemma DataBytes(file: Bytes, pos: nat, e: Entry)
    requires pos <= |file| && file[pos..] == EncodeEntry(e)
    ensures pos + 8 + |e.data| <= |file| && file[pos + 8..pos + 8 + |e.data|] == e.data
  {
    hide EncodeHeader;
    var tail, n := file[pos..], |e.data|;
    assert tail == EncodeHeader(e.kind, n) + e.data;
    assert tail[8..8 + n] == e.data;
    assert |tail| == 8 + n;
    SliceOfTail(file, pos, 8, 8 + n);
  }

  lemma SliceOfTail(s: Bytes, pos: nat, from: nat, to: nat)
    requires pos <= |s| && from <= to <= |s| - pos
    ensures s[pos..][from..to] == s[pos + from..pos + to]
  {
    forall i | 0 <= i < to - from ensures s[pos..][from..to][i] == s[pos + from..pos + to][i] {
    }
  }

  /** A file that does not begin with a version record is refused, one too short for any
      record has no index. */
  lemma NoVersion(file: Bytes)
    ensures |file| < 8 ==> SeekIndex(file, 0, true) == Ok(None)
    ensures |file| >= 8 && file[6] == 0 && file[7] == 0 && (file[0] != 0x65 || file[1] != 0x32) ==>
              SeekIndex(file, 0, true) == Err(NotVersion)
    ensures |file| >= 8 && (file[6] != 0 || file[7] != 0) ==> SeekIndex(file, 0, true) == Err(ReservedNotZero)
  {
    hide SeekIndex, ReadEntryHeader;
    HeaderBytes(file, 0);
    SeekUnfold(file, 0, true);
  }

  // ── From bytes to block facts ──────────────────────────────────────────────

  /** The facts of a block with these parts: its header and receipts must decode. */
  function FactsFrom(lib: Library, layout: Codec.Layout, number: U64, header: Bytes, body: Bytes, receipts: Bytes):
    Item
  {
    match (lib.header(header), Codec.DecodeSection(lib.keccak, layout, receipts))
    case (Some(h), Ok(rs)) => Block(Facts(number, h, rs, HashesOf(lib, body)))
    case _ => ReadError
  }

  lemma ItemCounted(lib: Library, slim: bool, file: Bytes, range: Range, i: nat)
    ensures i < |FileFacts(lib, slim, file, range)| <==> FileItem(FormatOf(slim), file, range, i).Some?
    ensures i < |FileFacts(lib, slim, file, range)| ==>
              FileFacts(lib, slim, file, range)[i] == ItemOf(lib, slim, FileItem(FormatOf(slim), file, range, i).value)
  {
    hide FileItem, FileFacts, ItemOf, FileCount;
    CountedItems(slim, file, range, i);
    FactsCounted(lib, slim, file, range);
    if i < FileCount(slim, file, range) {
      FactAtItem(lib, slim, file, range, i);
    }
  }

  /** Reading an ERA1 file of well-framed entries in any order gives, for each complete
      block, the facts of its header, body and full receipts, and one error at most. */
  lemma Era1FileFacts(lib: Library, es: seq<Entry>, index: Bytes, range: Range, n: nat, i: nat)
    requires Framed(es) && |index| < 0x1_0000_0000 && ParseBlockIndex(index) == Ok(range)
    requires NoneTyped(es, 0x66, 0x32) && NoneTyped(es, 0x67, 0x32) && range.from <= range.to
    requires Least(n, |Typed(es, 0x03, 0x00)|, |Typed(es, 0x04, 0x00)|, |Typed(es, 0x05, 0x00)|,
                   |Typed(es, 0x06, 0x00)|)
    ensures var items := OpenFile(lib, false, DiskFile(es, Entry(EntryType(0x66, 0x32), index)));
            var headers, bodies, receipts := Typed(es, 0x03, 0x00), Typed(es, 0x04, 0x00), Typed(es, 0x05, 0x00);
            var end := EndItem(range, n, |headers|, |bodies|, |receipts|, |Typed(es, 0x06, 0x00)|);
            && items.Some?
            && (i < |items.value| <==> i < n || (i == n && end.Some?))
            && (i < n ==> items.value[i] == FactsFrom(lib, Codec.Era1Full, (range.from + i) % TWO64, headers[i],
                                                        bodies[i], receipts[i]))
            && (i == n && end.Some? ==> items.value[i] == ReadError)
  {
    hide DiskFile, FileItem, FileFacts, Typed, SeekIndex, Codec.DecodeSection, HashesOf, ParseBlockIndex;
    hide ParseDynamicIndex;
    var file := DiskFile(es, Entry(EntryType(0x66, 0x32), index));
    DiskIndexFound(es, Entry(EntryType(0x66, 0x32), index));
    Era1FileReads(es, index, range, n, i);
    ItemCounted(lib, false, file, range, i);
  }

  /** And an ERE file the facts of its header, body and slim receipts. */
  lemma EreFileFacts(lib: Library, es: seq<Entry>, index: Bytes, range: Range, n: nat, i: nat)
    requires Framed(es) && |index| < 0x1_0000_0000 && ParseDynamicIndex(index) == Ok(range)
    requires NoneTyped(es, 0x66, 0x32) && NoneTyped(es, 0x67, 0x32) && range.from <= range.to
    requires Least(n, |Typed(es, 0x03, 0x00)|, |Typed(es, 0x04, 0x00)|, |Typed(es, 0x0a, 0x00)|,
                   |Typed(es, 0x0a, 0x00)|)
    ensures var items := OpenFile(lib, true, DiskFile(es, Entry(EntryType(0x67, 0x32), index)));
            var headers, bodies, receipts := Typed(es, 0x03, 0x00), Typed(es, 0x04, 0x00), Typed(es, 0x0a, 0x00);
            var end := EndItem(range, n, |headers|, |bodies|, |receipts|, |receipts|);
            && items.Some?
            && (i < |items.value| <==> i < n || (i == n && end.Some?))
            && (i < n ==> items.value[i] == FactsFrom(lib, Codec.EreSlim, (range.from + i) % TWO64, headers[i],
                                                        bodies[i], receipts[i]))
            && (i == n && end.Some? ==> items.value[i] == ReadError)
  {
    hide DiskFile, FileItem, FileFacts, Typed, SeekIndex, Codec.DecodeSection, HashesOf, ParseBlockIndex;
    hide ParseDynamicIndex;
    var file := DiskFile(es, Entry(EntryType(0x67, 0x32), index));
    DiskIndexFound(es, Entry(EntryType(0x67, 0x32), index));
    EreFileReads(es, index, range, n, i);
    ItemCounted(lib, true, file, range, i);
  }

  // ── Which indices are accepted ─────────────────────────────────────────────

  /** An index entry is refused for being short, for a negative or zero count, for a
      length that is not that of its count, or for a range beyond 64 bits, in this order. */
  lemma BlockIndexOutcome(data: Bytes)
    requires |data| < TWO63
    ensures ParseBlockIndex(data) == Err(IndexTooShort) <==> |data| < 16
    ensures |data| >= 16 ==>
              var start: int, count: int, r := Word(data, 0), Word(data, |data| - 8), ParseBlockIndex(data);
              var fits := (|data| - 16 - 8 * count) % TWO64 == 0;
              && (r == Err(CountNegative) <==> TWO63 <= count)
              && (r == Err(CountZero) <==> count == 0)
              && (r == Err(LengthMismatch) <==> 0 < count < TWO63 && !fits)
              && (r == Err(RangeOverflow) <==> 0 < count < TWO63 && fits && TWO64 < start + count)
              && (r.Ok? <==> 0 < count < TWO63 && fits && start + count <= TWO64)
              && (r.Ok? ==> r.value.from == start && r.value.to == start + count - 1)
  {
    hide Word;
  }
}
