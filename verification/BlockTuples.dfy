/** Pairing headers, bodies, receipts and difficulties into block tuples: the
    streaming iterator and the random-access reader. */
module BlockTuples {
  import opened Types
  import opened E2Store

  datatype BlockTuple = BlockTuple(
    blockNumber: U64,
    header: Bytes,
    body: Bytes,
    receipts: Bytes,
    totalDifficulty: Bytes)

  /** What distinguishes the two archive formats while reading. */
  datatype Format = Format(receiptsEntry: EntryType, indexEntry: EntryType, hasDifficulty: bool)

  const ERA1_TRAVERSAL := Format(ERA1_COMPRESSED_RECEIPTS, ERA1_BLOCK_INDEX, true)
  const ERE_TRAVERSAL := Format(ERE_COMPRESSED_SLIM_RECEIPTS, ERE_DYNAMIC_BLOCK_INDEX, false)

  predicate IsFormat(fmt: Format) {
    fmt == ERA1_TRAVERSAL || fmt == ERE_TRAVERSAL
  }

  // ── What a file means ──────────────────────────────────────────────────────

  /** The data of the entries of one type, in file order. */
  function DataOf(es: seq<Entry>, kind: EntryType): seq<Bytes> {
    if es == [] then []
    else
      var last := es[|es| - 1];
      DataOf(es[..|es| - 1], kind) + if last.kind == kind then [last.data] else []
  }

  function Headers(es: seq<Entry>): seq<Bytes> {
    DataOf(es, ERA1_COMPRESSED_HEADER)
  }

  function Bodies(es: seq<Entry>): seq<Bytes> {
    DataOf(es, ERA1_COMPRESSED_BODY)
  }

  function Receipts(fmt: Format, es: seq<Entry>): seq<Bytes> {
    DataOf(es, fmt.receiptsEntry)
  }

  function Difficulties(fmt: Format, es: seq<Entry>): seq<Bytes> {
    if fmt.hasDifficulty then DataOf(es, ERA1_TOTAL_DIFFICULTY) else []
  }

  /** How many blocks have all their components: the smallest per-type count. */
  function Complete(fmt: Format, es: seq<Entry>): nat {
    var n := Min(|Headers(es)|, Min(|Bodies(es)|, |Receipts(fmt, es)|));
    if fmt.hasDifficulty then Min(n, |Difficulties(fmt, es)|) else n
  }

  /** The i-th block: the i-th entry of each type, numbered from the index. */
  function TupleAt(fmt: Format, es: seq<Entry>, from: U64, i: nat): BlockTuple
    requires i < Complete(fmt, es)
  {
    BlockTuple(WrappingAdd(from, i % TWO64), Headers(es)[i], Bodies(es)[i], Receipts(fmt, es)[i],
               if fmt.hasDifficulty then Difficulties(fmt, es)[i] else [])
  }

  /** The entries before the first one of a type. */
  function BeforeKind(es: seq<Entry>, kind: EntryType): seq<Entry> {
    if es == [] || es[0].kind == kind then [] else [es[0]] + BeforeKind(es[1..], kind)
  }

  predicate HasKind(es: seq<Entry>, kind: EntryType) {
    es != [] && (es[0].kind == kind || HasKind(es[1..], kind))
  }

  /** The block section of a file: the entries before the format's index, or all
      entries and the way reading them ended. */
  function Section(fmt: Format, scan: Scan): Scan {
    Scan(BeforeKind(scan.entries, fmt.indexEntry),
         if HasKind(scan.entries, fmt.indexEntry) then None else scan.error)
  }

  /** How a section that was read to its end closes: leftover components or a
      count that differs from the index are one error. */
  function Closing(fmt: Format, es: seq<Entry>, expected: nat): Option<SourceError> {
    var n := Complete(fmt, es);
    if |Headers(es)| != n || |Bodies(es)| != n || |Receipts(fmt, es)| != n
       || (fmt.hasDifficulty && |Difficulties(fmt, es)| != n) then
      Some(MidBlock(|Headers(es)| - n, |Bodies(es)| - n, |Receipts(fmt, es)| - n))
    else if n != expected then Some(CountMismatch(expected, n))
    else None
  }

  function LastError(fmt: Format, section: Scan, expected: nat): Option<SourceError> {
    if section.error.Some? then section.error else Closing(fmt, section.entries, expected)
  }

  /** The number of blocks the index records. */
  function Expected(range: Range): nat {
    if range.to < range.from then 1 else range.to - range.from + 1
  }

  /** The items a section yields: its complete blocks, then at most one error. */
  function ItemAt(fmt: Format, section: Scan, range: Range, i: nat): Option<Result<BlockTuple, SourceError>> {
    var n := Complete(fmt, section.entries);
    if i < n then Some(Ok(TupleAt(fmt, section.entries, range.from, i)))
    else
      var e := LastError(fmt, section, Expected(range));
      if i == n && e.Some? then Some(Err(e.value)) else None
  }

  /** What a file yields at position `i`, when its index gives `range`. */
  function FileItem(fmt: Format, file: Bytes, range: Range, i: nat): Option<Result<BlockTuple, SourceError>> {
    ItemAt(fmt, Section(fmt, ScanFrom(file, 0)), range, i)
  }

  // ── Facts about projections ────────────────────────────────────────────────

  lemma {:induction false} DataOfConcat(a: seq<Entry>, b: seq<Entry>, kind: EntryType)
    ensures DataOf(a + b, kind) == DataOf(a, kind) + DataOf(b, kind)
  {
    if b == [] {
      assert a + b == a;
    } else {
      var n := |b| - 1;
      assert (a + b)[..|a + b| - 1] == a + b[..n];
      DataOfConcat(a, b[..n], kind);
    }
  }

  lemma DataOfNext(es: seq<Entry>, e: Entry, kind: EntryType)
    ensures DataOf(es + [e], kind) == DataOf(es, kind) + if e.kind == kind then [e.data] else []
  {
    assert (es + [e])[..|es|] == es;
  }

  /** More entries never change the blocks that are already complete. */
  lemma MoreEntries(fmt: Format, es: seq<Entry>, more: seq<Entry>, from: U64, i: nat)
    requires i < Complete(fmt, es)
    ensures i < Complete(fmt, es + more)
    ensures TupleAt(fmt, es + more, from, i) == TupleAt(fmt, es, from, i)
  {
    hide DataOf;
    DataOfConcat(es, more, ERA1_COMPRESSED_HEADER);
    DataOfConcat(es, more, ERA1_COMPRESSED_BODY);
    DataOfConcat(es, more, fmt.receiptsEntry);
    DataOfConcat(es, more, ERA1_TOTAL_DIFFICULTY);
  }

  lemma KindCons(e: Entry, es: seq<Entry>, kind: EntryType)
    ensures BeforeKind([e] + es, kind) == if e.kind == kind then [] else [e] + BeforeKind(es, kind)
    ensures HasKind([e] + es, kind) <==> e.kind == kind || HasKind(es, kind)
  {
    assert ([e] + es)[1..] == es;
  }

  lemma {:induction false} BeforeKindSkips(es: seq<Entry>, more: seq<Entry>, kind: EntryType)
    requires !HasKind(es, kind)
    ensures BeforeKind(es + more, kind) == es + BeforeKind(more, kind)
    ensures HasKind(es + more, kind) <==> HasKind(more, kind)
  {
    if es == [] {
      assert es + more == more;
    } else {
      hide BeforeKind, HasKind;
      var e, rest := es[0], es[1..];
      assert es == [e] + rest;
      KindCons(e, rest, kind);
      BeforeKindSkips(rest, more, kind);
      assert es + more == [e] + (rest + more);
      KindCons(e, rest + more, kind);
      assert [e] + (rest + BeforeKind(more, kind)) == es + BeforeKind(more, kind);
    }
  }

  lemma CompleteBounds(fmt: Format, es: seq<Entry>)
    ensures Complete(fmt, es) <= |Headers(es)| && Complete(fmt, es) <= |Bodies(es)|
    ensures Complete(fmt, es) <= |Receipts(fmt, es)|
    ensures fmt.hasDifficulty ==> Complete(fmt, es) <= |Difficulties(fmt, es)|
  {
    hide DataOf;
  }

  lemma CompleteGrows(fmt: Format, es: seq<Entry>, e: Entry)
    ensures Complete(fmt, es) <= Complete(fmt, es + [e])
  {
    hide DataOf;
    DataOfNext(es, e, ERA1_COMPRESSED_HEADER);
    DataOfNext(es, e, ERA1_COMPRESSED_BODY);
    DataOfNext(es, e, fmt.receiptsEntry);
    DataOfNext(es, e, ERA1_TOTAL_DIFFICULTY);
  }

  lemma SnocSlice(s: seq<Bytes>, k: nat, x: Bytes)
    requires k <= |s|
    ensures (s + [x])[k..] == s[k..] + [x]
  {
  }

  /** Queues that hold the components read but not yet handed out, after `k` blocks. */
  ghost predicate Pending(fmt: Format, es: seq<Entry>, k: nat, headers: seq<Bytes>, bodies: seq<Bytes>,
                          receipts: seq<Bytes>, difficulties: seq<Bytes>)
  {
    && k <= Complete(fmt, es)
    && headers == Headers(es)[k..]
    && bodies == Bodies(es)[k..]
    && receipts == Receipts(fmt, es)[k..]
    && difficulties == if fmt.hasDifficulty then Difficulties(fmt, es)[k..] else []
  }

  // ── The streaming iterator ─────────────────────────────────────────────────

  class BlockTupleIter {
    const file: Bytes
    const format: Format
    const range: Range
    var pos: nat
    var yielded: nat
    var headers: seq<Bytes>
    var bodies: seq<Bytes>
    var receipts: seq<Bytes>
    var difficulties: seq<Bytes>
    var done: bool
    ghost var consumed: seq<Entry>
    ghost var calls: nat

    constructor (file: Bytes, format: Format, range: Range)
      requires IsFormat(format)
      ensures Valid() && calls == 0
      ensures this.file == file && this.format == format && this.range == range
    {
      this.file, this.format, this.range := file, format, range;
      pos, yielded, done := 0, 0, false;
      headers, bodies, receipts, difficulties := [], [], [], [];
      consumed, calls := [], 0;
      new;
      assert [] + ScanFrom(file, 0).entries == ScanFrom(file, 0).entries;
    }

    /** The queues hold what was read and not yet yielded. */
    ghost predicate Queues()
      reads `yielded, `headers, `bodies, `receipts, `difficulties, `consumed
    {
      Pending(format, consumed, yielded, headers, bodies, receipts, difficulties)
    }

    /** What was read, and what is still to read, make up the file. */
    ghost predicate Progress()
      reads `pos, `consumed
    {
      && pos <= |file|
      && ScanFrom(file, 0) == Scan(consumed + ScanFrom(file, pos).entries, ScanFrom(file, pos).error)
      && !HasKind(consumed, format.indexEntry)
    }

    ghost predicate Valid()
      reads this
    {
      && IsFormat(format)
      && (!done ==> pos <= |file| && calls == yielded && Queues() && Progress())
      && (done ==> forall i | calls <= i :: FileItem(format, file, range, i) == None)
    }

    /** Pop one complete block if every component is pending. */
    method TryPopBlock() returns (r: Option<BlockTuple>)
      requires IsFormat(format) && Queues()
      modifies `yielded, `headers, `bodies, `receipts, `difficulties
      ensures Queues()
      ensures r.Some? <==> old(yielded) < Complete(format, consumed)
      ensures r.Some? ==> yielded == old(yielded) + 1 && r.value == TupleAt(format, consumed, range.from, old(yielded))
      ensures r.None? ==> unchanged(this) && yielded == Complete(format, consumed)
    {
      hide DataOf;
      if headers == [] || bodies == [] || receipts == [] || (format.hasDifficulty && difficulties == []) {
        return None;
      }
      var totalDifficulty: Bytes := [];
      var header, body, receipt := headers[0], bodies[0], receipts[0];
      headers, bodies, receipts := headers[1..], bodies[1..], receipts[1..];
      if format.hasDifficulty {
        totalDifficulty := difficulties[0];
        difficulties := difficulties[1..];
      }
      r := Some(BlockTuple(WrappingAdd(range.from, yielded % TWO64), header, body, receipt, totalDifficulty));
      yielded := yielded + 1;
    }

    /** End of the block section: leftovers or a shortfall are one error. */
    method FinishSection() returns (r: Option<Result<BlockTuple, SourceError>>)
      requires IsFormat(format)
      requires Queues() && yielded == Complete(format, consumed)
      modifies this`done
      ensures done
      ensures r == match Closing(format, consumed, Expected(range))
                   case None => None
                   case Some(e) => Some(Err(e))
    {
      hide DataOf;
      done := true;
      if headers != [] || bodies != [] || receipts != [] || difficulties != [] {
        return Some(Err(MidBlock(|headers|, |bodies|, |receipts|)));
      }
      if yielded != Expected(range) {
        return Some(Err(CountMismatch(Expected(range), yielded)));
      }
      return None;
    }

    /** File an entry into its queue. */
    method Enqueue(e: Entry)
      requires IsFormat(format) && Queues() && e.kind != format.indexEntry
      modifies `headers, `bodies, `receipts, `difficulties, `consumed
      ensures consumed == old(consumed) + [e] && Queues()
    {
      hide DataOf, Complete;
      CompleteBounds(format, consumed);
      CompleteGrows(format, consumed, e);
      QueueNext(e);
      if e.kind == format.receiptsEntry {
        SnocSlice(Receipts(format, consumed), yielded, e.data);
        receipts := receipts + [e.data];
      } else if e.kind == ERA1_COMPRESSED_HEADER {
        SnocSlice(Headers(consumed), yielded, e.data);
        headers := headers + [e.data];
      } else if e.kind == ERA1_COMPRESSED_BODY {
        SnocSlice(Bodies(consumed), yielded, e.data);
        bodies := bodies + [e.data];
      } else if e.kind == ERA1_TOTAL_DIFFICULTY && format.hasDifficulty {
        SnocSlice(Difficulties(format, consumed), yielded, e.data);
        difficulties := difficulties + [e.data];
      }
      consumed := consumed + [e];
    }

    lemma Advance(e: Entry, next: nat)
      requires Progress() && ReadEntry(file, pos) == Ok(Some((e, next))) && e.kind != format.indexEntry
      ensures pos < next <= |file|
      ensures ScanFrom(file, 0) == Scan(consumed + [e] + ScanFrom(file, next).entries, ScanFrom(file, next).error)
      ensures !HasKind(consumed + [e], format.indexEntry)
    {
      hide ReadEntry;
      ScanStep(file, pos);
      BeforeKindSkips(consumed, [e], format.indexEntry);
      assert consumed + ([e] + ScanFrom(file, next).entries) == consumed + [e] + ScanFrom(file, next).entries;
    }

    lemma QueueNext(e: Entry)
      ensures Headers(consumed + [e]) == Headers(consumed) + if e.kind == ERA1_COMPRESSED_HEADER then [e.data] else []
      ensures Bodies(consumed + [e]) == Bodies(consumed) + if e.kind == ERA1_COMPRESSED_BODY then [e.data] else []
      ensures Receipts(format, consumed + [e])
              == Receipts(format, consumed) + if e.kind == format.receiptsEntry then [e.data] else []
      ensures DataOf(consumed + [e], ERA1_TOTAL_DIFFICULTY)
              == DataOf(consumed, ERA1_TOTAL_DIFFICULTY) + if e.kind == ERA1_TOTAL_DIFFICULTY then [e.data] else []
    {
      hide DataOf;
      DataOfNext(consumed, e, ERA1_COMPRESSED_HEADER);
      DataOfNext(consumed, e, ERA1_COMPRESSED_BODY);
      DataOfNext(consumed, e, format.receiptsEntry);
      DataOfNext(consumed, e, ERA1_TOTAL_DIFFICULTY);
    }

    /** The n-th call yields the file's n-th item: every complete block in order,
        then one error if the file does not close cleanly, then nothing forever. */
    method Next() returns (r: Option<Result<BlockTuple, SourceError>>)
      requires Valid()
      modifies this
      ensures Valid() && calls == old(calls) + 1
      ensures r == FileItem(format, file, range, old(calls))
    {
      hide ReadEntry, FileItem, Closing, Queues, Progress, Complete, TupleAt, ScanFrom;
      if done {
        calls := calls + 1;
        return None;
      }
      while true
        invariant IsFormat(format)
        invariant pos <= |file|
        invariant !done && calls == old(calls) == yielded && Queues() && Progress()
        decreases |file| - pos
      {
        var popped := TryPopBlock();
        if popped.Some? {
          YieldedItem(old(calls));
          calls := calls + 1;
          return Some(Ok(popped.value));
        }
        var entry := ReadEntry(file, pos);
        ScanStep(file, pos);
        match entry {
          case Err(e) =>
            BrokenItems(e);
            done := true;
            calls := calls + 1;
            return Some(Err(e));
          case Ok(None) =>
            ClosedItems();
            r := FinishSection();
            calls := calls + 1;
            return;
          case Ok(Some((e, next))) =>
            if e.kind == format.indexEntry {
              ClosedItems();
              r := FinishSection();
              calls := calls + 1;
              return;
            }
            Advance(e, next);
            Enqueue(e);
            pos := next;
            Resume();
        }
      }
    }

    lemma Resume()
      requires pos <= |file|
      requires ScanFrom(file, 0) == Scan(consumed + ScanFrom(file, pos).entries, ScanFrom(file, pos).error)
      requires !HasKind(consumed, format.indexEntry)
      ensures Progress()
    {
    }

    lemma YieldedItem(i: nat)
      requires Progress() && IsFormat(format) && i < Complete(format, consumed)
      ensures FileItem(format, file, range, i) == Some(Ok(TupleAt(format, consumed, range.from, i)))
    {
      hide ReadEntry, TupleAt, Complete;
      var rest := ScanFrom(file, pos).entries;
      BeforeKindSkips(consumed, rest, format.indexEntry);
      MoreEntries(format, consumed, BeforeKind(rest, format.indexEntry), range.from, i);
    }

    /** A read error ends the stream with itself. */
    lemma BrokenItems(e: SourceError)
      requires Progress() && IsFormat(format) && yielded == Complete(format, consumed)
      requires ScanFrom(file, pos) == Scan([], Some(e))
      ensures FileItem(format, file, range, yielded) == Some(Err(e))
      ensures forall i | i > yielded :: FileItem(format, file, range, i) == None
    {
      hide ReadEntry, TupleAt, Complete, Closing;
      assert consumed + [] == consumed;
      BeforeKindSkips(consumed, [], format.indexEntry);
    }

    /** Reading to the end or to the index closes the section. */
    lemma ClosedItems()
      requires Progress() && IsFormat(format) && yielded == Complete(format, consumed)
      requires var scan := ScanFrom(file, pos);
               scan == Scan([], None) || (scan.entries != [] && scan.entries[0].kind == format.indexEntry)
      ensures FileItem(format, file, range, yielded) ==
              match Closing(format, consumed, Expected(range))
              case None => None
              case Some(e) => Some(Err(e))
      ensures forall i | i > yielded :: FileItem(format, file, range, i) == None
    {
      hide ReadEntry, TupleAt, Complete, Closing;
      var rest := ScanFrom(file, pos).entries;
      BeforeKindSkips(consumed, rest, format.indexEntry);
      assert consumed + [] == consumed;
    }
  }

  /** Open a file: its index is found first, then it is read from the start. */
  method IterEra1BlockTuples(file: Bytes, slim: bool) returns (r: Result<BlockTupleIter, SourceError>)
    ensures match SeekIndex(file, 0, true)
            case Err(e) => r == Err(e)
            case Ok(None) => r == Err(NoIndex)
            case Ok(Some(range)) =>
              && r.Ok? && fresh(r.value) && r.value.Valid() && r.value.calls == 0
              && r.value.file == file && r.value.range == range
              && r.value.format == if slim then ERE_TRAVERSAL else ERA1_TRAVERSAL
  {
    var found := ReadEra1BlockIndexRange(file);
    if found.Err? {
      return Err(found.error);
    }
    if found.value.None? {
      return Err(NoIndex);
    }
    var iter := new BlockTupleIter(file, if slim then ERE_TRAVERSAL else ERA1_TRAVERSAL, found.value.value);
    return Ok(iter);
  }

  // ── Random access ──────────────────────────────────────────────────────────

  /** What the random-access reader returns for a block of an ERA1 file. */
  function BlockOf(file: Bytes, blockNumber: U64): Result<Option<BlockTuple>, SourceError> {
    match SeekIndex(file, 0, true)
    case Err(e) => Err(e)
    case Ok(None) => Ok(None)
    case Ok(Some(range)) =>
      if blockNumber < range.from || blockNumber > range.to then Ok(None)
      else
        var section := Section(ERA1_TRAVERSAL, ScanFrom(file, 0));
        var k := blockNumber - range.from;
        if k < Complete(ERA1_TRAVERSAL, section.entries) then
          Ok(Some(TupleAt(ERA1_TRAVERSAL, section.entries, range.from, k)))
        else if section.error.Some? then Err(section.error.value)
        else Ok(None)
  }

  lemma PopPending(es: seq<Entry>, k: nat, headers: seq<Bytes>, bodies: seq<Bytes>, receipts: seq<Bytes>,
                   difficulties: seq<Bytes>, from: U64)
    requires Pending(ERA1_TRAVERSAL, es, k, headers, bodies, receipts, difficulties)
    ensures k < Complete(ERA1_TRAVERSAL, es) <==> headers != [] && bodies != [] && receipts != [] && difficulties != []
    ensures k < Complete(ERA1_TRAVERSAL, es) ==>
              && Pending(ERA1_TRAVERSAL, es, k + 1, headers[1..], bodies[1..], receipts[1..], difficulties[1..])
              && TupleAt(ERA1_TRAVERSAL, es, from, k)
                 == BlockTuple(WrappingAdd(from, k % TWO64), headers[0], bodies[0], receipts[0], difficulties[0])
  {
    hide DataOf;
  }

  lemma EnqueuePending(es: seq<Entry>, e: Entry, k: nat, headers: seq<Bytes>, bodies: seq<Bytes>,
                       receipts: seq<Bytes>, difficulties: seq<Bytes>)
    requires Pending(ERA1_TRAVERSAL, es, k, headers, bodies, receipts, difficulties)
    ensures Pending(ERA1_TRAVERSAL, es + [e], k,
                    headers + if e.kind == ERA1_COMPRESSED_HEADER then [e.data] else [],
                    bodies + if e.kind == ERA1_COMPRESSED_BODY then [e.data] else [],
                    receipts + if e.kind == ERA1_COMPRESSED_RECEIPTS then [e.data] else [],
                    difficulties + if e.kind == ERA1_TOTAL_DIFFICULTY then [e.data] else [])
  {
    hide DataOf, Complete;
    CompleteBounds(ERA1_TRAVERSAL, es);
    CompleteGrows(ERA1_TRAVERSAL, es, e);
    DataOfNext(es, e, ERA1_COMPRESSED_HEADER);
    DataOfNext(es, e, ERA1_COMPRESSED_BODY);
    DataOfNext(es, e, ERA1_COMPRESSED_RECEIPTS);
    DataOfNext(es, e, ERA1_TOTAL_DIFFICULTY);
  }

  /** Having read `es`, the rest of the file starts at `pos`. */
  ghost predicate ReadSoFar(file: Bytes, es: seq<Entry>, pos: nat) {
    && pos <= |file|
    && ScanFrom(file, 0) == Scan(es + ScanFrom(file, pos).entries, ScanFrom(file, pos).error)
    && !HasKind(es, ERA1_BLOCK_INDEX)
  }

  lemma ReadOn(file: Bytes, es: seq<Entry>, pos: nat, e: Entry, next: nat)
    requires ReadSoFar(file, es, pos) && ReadEntry(file, pos) == Ok(Some((e, next)))
    ensures e.kind != ERA1_BLOCK_INDEX ==> ReadSoFar(file, es + [e], next)
    ensures e.kind == ERA1_BLOCK_INDEX ==> Section(ERA1_TRAVERSAL, ScanFrom(file, 0)) == Scan(es, None)
  {
    hide ReadEntry;
    ScanStep(file, pos);
    BeforeKindSkips(es, [e], ERA1_BLOCK_INDEX);
    BeforeKindSkips(es, ScanFrom(file, pos).entries, ERA1_BLOCK_INDEX);
    assert es + ([e] + ScanFrom(file, next).entries) == es + [e] + ScanFrom(file, next).entries;
    assert es + [] == es;
  }

  lemma ReadToEnd(file: Bytes, es: seq<Entry>, pos: nat)
    requires ReadSoFar(file, es, pos)
    ensures ReadEntry(file, pos) == Ok(None) ==> Section(ERA1_TRAVERSAL, ScanFrom(file, 0)) == Scan(es, None)
    ensures ReadEntry(file, pos).Err? ==>
            Section(ERA1_TRAVERSAL, ScanFrom(file, 0)) == Scan(es, Some(ReadEntry(file, pos).error))
  {
    hide ReadEntry;
    ScanStep(file, pos);
    BeforeKindSkips(es, [], ERA1_BLOCK_INDEX);
    assert es + [] == es;
  }

  lemma FoundEarly(file: Bytes, es: seq<Entry>, pos: nat, k: nat, from: U64)
    requires ReadSoFar(file, es, pos) && k < Complete(ERA1_TRAVERSAL, es)
    ensures var section := Section(ERA1_TRAVERSAL, ScanFrom(file, 0));
            && k < Complete(ERA1_TRAVERSAL, section.entries)
            && TupleAt(ERA1_TRAVERSAL, section.entries, from, k) == TupleAt(ERA1_TRAVERSAL, es, from, k)
  {
    hide Complete, TupleAt;
    var rest := ScanFrom(file, pos).entries;
    BeforeKindSkips(es, rest, ERA1_BLOCK_INDEX);
    MoreEntries(ERA1_TRAVERSAL, es, BeforeKind(rest, ERA1_BLOCK_INDEX), from, k);
  }

  method ReadEra1BlockTuple(file: Bytes, blockNumber: U64) returns (r: Result<Option<BlockTuple>, SourceError>)
    ensures r == BlockOf(file, blockNumber)
  {
    var found := ReadEra1BlockIndexRange(file);
    if found.Err? {
      return Err(found.error);
    }
    if found.value.None? {
      return Ok(None);
    }
    var range := found.value.value;
    if blockNumber < range.from || blockNumber > range.to {
      return Ok(None);
    }
    r := FindBlock(file, range.from, blockNumber - range.from);
  }

  /** The search loop: read entries, form blocks, stop at the wanted one. */
  method FindBlock(file: Bytes, from: U64, targetIndex: U64) returns (r: Result<Option<BlockTuple>, SourceError>)
    ensures var section := Section(ERA1_TRAVERSAL, ScanFrom(file, 0));
            r == if targetIndex < Complete(ERA1_TRAVERSAL, section.entries) then
                   Ok(Some(TupleAt(ERA1_TRAVERSAL, section.entries, from, targetIndex)))
                 else if section.error.Some? then Err(section.error.value)
                 else Ok(None)
  {
    hide ReadEntry, ScanFrom, Complete, Pending, TupleAt, ReadSoFar, Section;
    var headers, bodies, receipts, difficulties: seq<Bytes> := [], [], [], [];
    var blockIndex: nat := 0;
    var pos := 0;
    ghost var es: seq<Entry> := [];
    StartReading(file);
    while true
      invariant pos <= |file| && blockIndex <= targetIndex
      invariant ReadSoFar(file, es, pos)
      invariant Pending(ERA1_TRAVERSAL, es, blockIndex, headers, bodies, receipts, difficulties)
      invariant blockIndex == Complete(ERA1_TRAVERSAL, es)
      decreases |file| - pos
    {
      ReadToEnd(file, es, pos);
      var read := ReadEntry(file, pos);
      if read.Err? {
        return Err(read.error);
      }
      if read.value.None? {
        return Ok(None);
      }
      var (entry, next) := read.value.value;
      ReadOn(file, es, pos, entry, next);
      EnqueuePending(es, entry, blockIndex, headers, bodies, receipts, difficulties);
      if entry.kind == ERA1_BLOCK_INDEX {
        return Ok(None);
      }
      NoneAdded(headers, bodies, receipts, difficulties);
      if entry.kind == ERA1_COMPRESSED_HEADER {
        headers := headers + [entry.data];
      } else if entry.kind == ERA1_COMPRESSED_BODY {
        bodies := bodies + [entry.data];
      } else if entry.kind == ERA1_COMPRESSED_RECEIPTS {
        receipts := receipts + [entry.data];
      } else if entry.kind == ERA1_TOTAL_DIFFICULTY {
        difficulties := difficulties + [entry.data];
      }
      es, pos := es + [entry], next;

      while headers != [] && bodies != [] && receipts != [] && difficulties != []
        invariant blockIndex <= targetIndex
        invariant Pending(ERA1_TRAVERSAL, es, blockIndex, headers, bodies, receipts, difficulties)
        decreases |headers|
      {
        PopPending(es, blockIndex, headers, bodies, receipts, difficulties, from);
        var number := WrappingAdd(from, blockIndex % TWO64);
        var tuple := BlockTuple(number, headers[0], bodies[0], receipts[0], difficulties[0]);
        headers, bodies, receipts, difficulties := headers[1..], bodies[1..], receipts[1..], difficulties[1..];
        if blockIndex == targetIndex {
          FoundEarly(file, es, pos, blockIndex, from);
          return Ok(Some(tuple));
        }
        blockIndex := blockIndex + 1;
      }
      PopPending(es, blockIndex, headers, bodies, receipts, difficulties, from);
      PendingBound(es, blockIndex, headers, bodies, receipts, difficulties);
    }
  }

  lemma StartReading(file: Bytes)
    ensures ReadSoFar(file, [], 0)
    ensures Pending(ERA1_TRAVERSAL, [], 0, [], [], [], []) && Complete(ERA1_TRAVERSAL, []) == 0
  {
    assert [] + ScanFrom(file, 0).entries == ScanFrom(file, 0).entries;
  }

  lemma NoneAdded(a: seq<Bytes>, b: seq<Bytes>, c: seq<Bytes>, d: seq<Bytes>)
    ensures a + [] == a && b + [] == b && c + [] == c && d + [] == d
  {
  }

  lemma PendingBound(es: seq<Entry>, k: nat, headers: seq<Bytes>, bodies: seq<Bytes>, receipts: seq<Bytes>,
                     difficulties: seq<Bytes>)
    requires Pending(ERA1_TRAVERSAL, es, k, headers, bodies, receipts, difficulties)
    ensures k <= Complete(ERA1_TRAVERSAL, es)
  {
  }

  /** Random access agrees with streaming on every file whose index is found, also
      when the file later ends in an error: a block of the index range is returned
      exactly when the iterator yields it at that position. */
  lemma RandomAccessAgrees(file: Bytes, range: Range, blockNumber: U64, t: BlockTuple)
    requires SeekIndex(file, 0, true) == Ok(Some(range))
    requires range.from <= blockNumber <= range.to
    ensures BlockOf(file, blockNumber) == Ok(Some(t)) <==>
            FileItem(ERA1_TRAVERSAL, file, range, blockNumber - range.from) == Some(Ok(t))
  {
    hide ScanFrom, SeekIndex, Complete, TupleAt, Section, LastError;
  }

  /** The tuple returned is the asked-for block. */
  lemma RandomAccessNumber(file: Bytes, blockNumber: U64, t: BlockTuple)
    requires BlockOf(file, blockNumber) == Ok(Some(t))
    ensures t.blockNumber == blockNumber
  {
    hide ScanFrom, SeekIndex, Complete, Section;
  }

  // ── Layout of the file does not matter ─────────────────────────────────────

  /** The same components of each type in the same order. */
  ghost predicate SameComponents(fmt: Format, a: seq<Entry>, b: seq<Entry>) {
    && Headers(a) == Headers(b) && Bodies(a) == Bodies(b)
    && Receipts(fmt, a) == Receipts(fmt, b) && Difficulties(fmt, a) == Difficulties(fmt, b)
  }

  function FileOf(es: seq<Entry>, index: Entry): Bytes {
    EncodeFile([Entry(E2STORE_VERSION, [])] + es + [index])
  }

  lemma FileSection(fmt: Format, es: seq<Entry>, index: Entry)
    requires IsFormat(fmt) && Framed(es) && |index.data| < 0x1_0000_0000
    requires index.kind == fmt.indexEntry && !HasKind(es, fmt.indexEntry)
    ensures Section(fmt, ScanFrom(FileOf(es, index), 0)) == Scan([Entry(E2STORE_VERSION, [])] + es, None)
  {
    hide ScanFrom, EncodeFile;
    var version := Entry(E2STORE_VERSION, []);
    var front := [version] + es;
    assert Framed(front + [index]);
    EncodedFileScans(front + [index]);
    KindCons(version, es, fmt.indexEntry);
    BeforeKindSkips(front, [index], fmt.indexEntry);
    assert front + [] == front;
  }

  /** In an encoded file without another index, the index found is the one written. */
  lemma FileIndexFound(es: seq<Entry>, index: Entry, range: Range)
    requires Framed(es) && |index.data| < 0x1_0000_0000 && IsIndex(index.kind)
    requires !HasKind(es, ERA1_BLOCK_INDEX) && !HasKind(es, ERE_DYNAMIC_BLOCK_INDEX)
    ensures SeekIndex(FileOf(es, index), 0, true) == Ok(Some(range)) <==> ParseIndex(index) == Ok(range)
  {
    hide ScanFrom, EncodeFile, ParseIndex, SeekIndex;
    var version := Entry(E2STORE_VERSION, []);
    var all := [version] + es + [index];
    assert Framed(all);
    EncodedFileScans(all);
    SeekAgreesWithFullRead(FileOf(es, index), range);
    assert all[1..] == es + [index];
    FirstIndexSkips(es, index);
  }

  lemma {:induction false} FirstIndexSkips(es: seq<Entry>, index: Entry)
    requires IsIndex(index.kind) && !HasKind(es, ERA1_BLOCK_INDEX) && !HasKind(es, ERE_DYNAMIC_BLOCK_INDEX)
    ensures FirstIndex(es + [index]) == Some(index)
  {
    if es == [] {
      assert es + [index] == [index];
    } else {
      FirstIndexSkips(es[1..], index);
      assert (es + [index])[1..] == es[1..] + [index];
    }
  }

  lemma VersionIgnored(fmt: Format, es: seq<Entry>)
    requires IsFormat(fmt)
    ensures SameComponents(fmt, [Entry(E2STORE_VERSION, [])] + es, es)
  {
    var version := Entry(E2STORE_VERSION, []);
    DataOfConcat([version], es, ERA1_COMPRESSED_HEADER);
    DataOfConcat([version], es, ERA1_COMPRESSED_BODY);
    DataOfConcat([version], es, fmt.receiptsEntry);
    DataOfConcat([version], es, ERA1_TOTAL_DIFFICULTY);
    assert [version][..0] == [];
    hide DataOf;
    assert forall kind | kind != E2STORE_VERSION :: DataOf([version], kind) == [] by {
      forall kind | kind != E2STORE_VERSION ensures DataOf([version], kind) == [] {
        NoData(version, kind);
      }
    }
  }

  lemma NoData(e: Entry, kind: EntryType)
    requires e.kind != kind
    ensures DataOf([e], kind) == []
  {
    assert [e][..0] == [];
  }

  lemma SameItems(fmt: Format, a: seq<Entry>, b: seq<Entry>, range: Range, i: nat)
    requires SameComponents(fmt, a, b)
    ensures ItemAt(fmt, Scan(a, None), range, i) == ItemAt(fmt, Scan(b, None), range, i)
  {
    hide DataOf;
  }

  /** Interleaved and sectioned files with the same components per type yield the
      same items, at every position. */
  lemma LayoutIrrelevant(fmt: Format, a: seq<Entry>, b: seq<Entry>, index: Entry, range: Range, i: nat)
    requires IsFormat(fmt) && Framed(a) && Framed(b) && |index.data| < 0x1_0000_0000
    requires index.kind == fmt.indexEntry && !HasKind(a, fmt.indexEntry) && !HasKind(b, fmt.indexEntry)
    requires SameComponents(fmt, a, b)
    ensures FileItem(fmt, FileOf(a, index), range, i) == FileItem(fmt, FileOf(b, index), range, i)
  {
    hide ScanFrom, FileOf, DataOf, ItemAt;
    FileSection(fmt, a, index);
    FileSection(fmt, b, index);
    VersionIgnored(fmt, a);
    VersionIgnored(fmt, b);
    SameItems(fmt, [Entry(E2STORE_VERSION, [])] + a, [Entry(E2STORE_VERSION, [])] + b, range, i);
  }

  /** A file closes without an error exactly when every type has as many entries
      as the index records blocks. */
  lemma CleanCloseIff(fmt: Format, es: seq<Entry>, range: Range)
    requires IsFormat(fmt)
    ensures (forall i ::
               ItemAt(fmt, Scan(es, None), range, i).Some? ==> ItemAt(fmt, Scan(es, None), range, i).value.Ok?)
            <==> var n := Expected(range);
                 && |Headers(es)| == n && |Bodies(es)| == n && |Receipts(fmt, es)| == n
                 && (fmt.hasDifficulty ==> |Difficulties(fmt, es)| == n)
  {
    hide DataOf, TupleAt;
    var n := Complete(fmt, es);
    assert ItemAt(fmt, Scan(es, None), range, n).Some? <==> Closing(fmt, es, Expected(range)).Some?;
  }
}
