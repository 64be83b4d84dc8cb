/** Event definitions and the extraction of matching logs from a block. */
module Abi {
  import opened Types

  datatype EventInput = EventInput(name: string, ty: string, indexed: bool, components: seq<EventInput>)

  datatype EventAbi = EventAbi(name: string, inputs: seq<EventInput>)

  /** The hash of an event's canonical signature, left uninterpreted. */
  type TopicHash = EventAbi -> B256

  /** Whether a log's non-indexed data decodes under an event definition. */
  type FieldDecoder = (EventAbi, seq<B256>, Bytes) -> bool

  datatype Decoder = Decoder(events: map<B256, EventAbi>, contract: Address)

  function Topics(topic0: TopicHash, events: seq<EventAbi>): seq<B256> {
    seq(|events|, i requires 0 <= i < |events| => topic0(events[i]))
  }

  /** Events are filed by topic0; of two with one topic0 the later wins. */
  function EventMap(topic0: TopicHash, events: seq<EventAbi>): map<B256, EventAbi> {
    if events == [] then map[]
    else
      var last := events[|events| - 1];
      EventMap(topic0, events[..|events| - 1])[topic0(last) := last]
  }

  method NewDecoder(topic0: TopicHash, compiles: EventAbi -> bool, events: seq<EventAbi>, contract: Address)
    returns (r: Option<Decoder>)
    ensures r.Some? <==> forall i | 0 <= i < |events| :: compiles(events[i])
    ensures r.Some? ==> r.value == Decoder(EventMap(topic0, events), contract)
  {
    var compiled: map<B256, EventAbi> := map[];
    for i := 0 to |events|
      invariant compiled == EventMap(topic0, events[..i])
      invariant forall j | 0 <= j < i :: compiles(events[j])
    {
      if !compiles(events[i]) {
        return None;
      }
      compiled := compiled[topic0(events[i]) := events[i]];
      assert events[..i + 1][..i] == events[..i];
    }
    assert events[..|events|] == events;
    return Some(Decoder(compiled, contract));
  }

  /** The decoder knows exactly the topics the scanner was built from. */
  lemma {:induction false} DecoderTopics(topic0: TopicHash, events: seq<EventAbi>, t: B256)
    ensures t in EventMap(topic0, events) <==> t in Topics(topic0, events)
  {
    if events != [] {
      var front, last := events[..|events| - 1], events[|events| - 1];
      DecoderTopics(topic0, front, t);
      assert Topics(topic0, events) == Topics(topic0, front) + [topic0(last)];
    }
  }

  /** The event filed under a topic is the last one with that topic. */
  lemma {:induction false} FiledEventIsLast(topic0: TopicHash, events: seq<EventAbi>, t: B256)
    requires t in EventMap(topic0, events)
    ensures exists i :: 0 <= i < |events| && topic0(events[i]) == t && events[i] == EventMap(topic0, events)[t]
                        && forall j | i < j < |events| :: topic0(events[j]) != t
  {
    var n := |events| - 1;
    var front, last := events[..n], events[n];
    if topic0(last) != t {
      FiledEventIsLast(topic0, front, t);
      var i :| 0 <= i < n && topic0(front[i]) == t && front[i] == EventMap(topic0, front)[t]
               && forall j | i < j < n :: topic0(front[j]) != t;
      assert forall j | i < j < n :: events[j] == front[j];
      assert events[i] == front[i];
    } else {
      assert events[n] == EventMap(topic0, events)[t];
    }
  }

  // ── Extraction ─────────────────────────────────────────────────────────────

  datatype DecodedEvent = DecodedEvent(
    contract: Address,
    eventName: string,
    topic0: B256,
    blockNumber: U64,
    blockHash: B256,
    txHash: B256,
    txIndex: U64,
    logIndex: U64,
    topics: seq<B256>,
    data: Bytes,
    decodeFailed: bool,
    timestamp: U64)

  datatype BlockContext = BlockContext(number: U64, hash: B256, timestamp: U64, txHashes: seq<B256>)

  /** A log with the index of the transaction that emitted it. */
  datatype FlatLog = FlatLog(txIndex: nat, log: Log)

  function TxLogs(txIndex: nat, logs: seq<Log>): seq<FlatLog> {
    seq(|logs|, i requires 0 <= i < |logs| => FlatLog(txIndex, logs[i]))
  }

  /** All logs of a block in order, matching or not. */
  function FlatLogs(receipts: seq<Receipt>): seq<FlatLog> {
    if receipts == [] then []
    else
      var n := |receipts| - 1;
      FlatLogs(receipts[..n]) + TxLogs(n, receipts[n].logs)
  }

  predicate IsMatch(d: Decoder, log: Log) {
    log.address == d.contract && log.topics != [] && log.topics[0] in d.events
  }

  function TxHashAt(txHashes: seq<B256>, i: nat): B256 {
    if i < |txHashes| then txHashes[i] else seq(32, _ => 0)
  }

  /** The event for the log at flat position `k`. */
  function EventAt(fields: FieldDecoder, d: Decoder, ctx: BlockContext, flat: FlatLog, k: nat): DecodedEvent
    requires IsMatch(d, flat.log)
  {
    var log := flat.log;
    var event := d.events[log.topics[0]];
    DecodedEvent(d.contract, event.name, log.topics[0], ctx.number, ctx.hash, TxHashAt(ctx.txHashes, flat.txIndex),
                 flat.txIndex % TWO64, k % TWO64, log.topics, log.data,
                 !fields(event, log.topics, log.data), ctx.timestamp)
  }

  function Extract(fields: FieldDecoder, d: Decoder, ctx: BlockContext, flat: seq<FlatLog>): seq<DecodedEvent> {
    if flat == [] then []
    else
      var k := |flat| - 1;
      var before := Extract(fields, d, ctx, flat[..k]);
      if IsMatch(d, flat[k].log) then before + [EventAt(fields, d, ctx, flat[k], k)] else before
  }

  method DecodeLog(fields: FieldDecoder, d: Decoder, ctx: BlockContext, txIndex: nat, log: Log, k: nat)
    returns (r: Option<DecodedEvent>)
    ensures r == if IsMatch(d, log) then Some(EventAt(fields, d, ctx, FlatLog(txIndex, log), k)) else None
  {
    if log.address != d.contract {
      return None;
    }
    if log.topics == [] {
      return None;
    }
    var topic0 := log.topics[0];
    if topic0 !in d.events {
      return None;
    }
    var event := d.events[topic0];
    var decoded := fields(event, log.topics, log.data);
    return Some(DecodedEvent(d.contract, event.name, topic0, ctx.number, ctx.hash, TxHashAt(ctx.txHashes, txIndex),
                             txIndex % TWO64, k % TWO64, log.topics, log.data, !decoded, ctx.timestamp));
  }

  method ExtractAndDecode(fields: FieldDecoder, d: Decoder, ctx: BlockContext, receipts: seq<Receipt>)
    returns (results: seq<DecodedEvent>)
    ensures results == Extract(fields, d, ctx, FlatLogs(receipts))
  {
    hide EventAt, Extract, FlatLogs;
    NoLogs(fields, d, ctx);
    results := [];
    var cumulativeLogIndex: nat := 0;
    assert receipts[..0] == [];
    for t := 0 to |receipts|
      invariant cumulativeLogIndex == |FlatLogs(receipts[..t])|
      invariant results == Extract(fields, d, ctx, FlatLogs(receipts[..t]))
    {
      var logs := receipts[t].logs;
      ghost var before := FlatLogs(receipts[..t]);
      assert before + TxLogs(t, logs[..0]) == before;
      for i := 0 to |logs|
        invariant cumulativeLogIndex == |before| + i
        invariant results == Extract(fields, d, ctx, before + TxLogs(t, logs[..i]))
      {
        var logIndex := cumulativeLogIndex;
        cumulativeLogIndex := cumulativeLogIndex + 1;
        var event := DecodeLog(fields, d, ctx, t, logs[i], logIndex);
        ExtractNext(fields, d, ctx, before + TxLogs(t, logs[..i]), FlatLog(t, logs[i]));
        assert before + TxLogs(t, logs[..i + 1]) == before + TxLogs(t, logs[..i]) + [FlatLog(t, logs[i])];
        if event.Some? {
          results := results + [event.value];
        }
      }
      assert logs[..|logs|] == logs;
      FlatLogsNext(receipts, t);
    }
    assert receipts[..|receipts|] == receipts;
  }

  lemma NoLogs(fields: FieldDecoder, d: Decoder, ctx: BlockContext)
    ensures FlatLogs([]) == [] && Extract(fields, d, ctx, []) == []
  {
  }

  lemma FlatLogsNext(receipts: seq<Receipt>, t: nat)
    requires t < |receipts|
    ensures FlatLogs(receipts[..t + 1]) == FlatLogs(receipts[..t]) + TxLogs(t, receipts[t].logs)
  {
    assert receipts[..t + 1][..t] == receipts[..t];
  }

  lemma ExtractNext(fields: FieldDecoder, d: Decoder, ctx: BlockContext, flat: seq<FlatLog>, next: FlatLog)
    ensures Extract(fields, d, ctx, flat + [next]) ==
            if IsMatch(d, next.log) then Extract(fields, d, ctx, flat) + [EventAt(fields, d, ctx, next, |flat|)]
            else Extract(fields, d, ctx, flat)
  {
    assert (flat + [next])[..|flat|] == flat;
  }

  // ── What is extracted ──────────────────────────────────────────────────────

  /** Every matching log is extracted at its own flat position, whatever lies
      between: non-matching logs are counted but not extracted. */
  lemma {:induction false} ExtractComplete(fields: FieldDecoder, d: Decoder, ctx: BlockContext, flat: seq<FlatLog>,
                                           k: nat)
    requires k < |flat| && IsMatch(d, flat[k].log)
    ensures EventAt(fields, d, ctx, flat[k], k) in Extract(fields, d, ctx, flat)
  {
    hide EventAt;
    if k < |flat| - 1 {
      ExtractComplete(fields, d, ctx, flat[..|flat| - 1], k);
    }
  }

  /** Nothing else is extracted. */
  lemma {:induction false} ExtractSound(fields: FieldDecoder, d: Decoder, ctx: BlockContext, flat: seq<FlatLog>,
                                        e: DecodedEvent)
    requires e in Extract(fields, d, ctx, flat)
    ensures exists k :: 0 <= k < |flat| && IsMatch(d, flat[k].log) && e == EventAt(fields, d, ctx, flat[k], k)
  {
    hide EventAt;
    var n := |flat| - 1;
    if IsMatch(d, flat[n].log) && e == EventAt(fields, d, ctx, flat[n], n) {
      assert 0 <= n < |flat|;
    } else {
      ExtractSound(fields, d, ctx, flat[..n], e);
      var k :| 0 <= k < n && IsMatch(d, flat[..n][k].log) && e == EventAt(fields, d, ctx, flat[..n][k], k);
      assert flat[k] == flat[..n][k];
    }
  }

  /** A decoder none of whose events occurs in the block extracts nothing. */
  lemma {:induction false} ExtractNothing(fields: FieldDecoder, d: Decoder, ctx: BlockContext, flat: seq<FlatLog>)
    requires forall k | 0 <= k < |flat| :: !IsMatch(d, flat[k].log)
    ensures Extract(fields, d, ctx, flat) == []
  {
    if flat != [] {
      ExtractNothing(fields, d, ctx, flat[..|flat| - 1]);
    }
  }

  ghost predicate IndexedBelow(es: seq<DecodedEvent>, bound: nat) {
    && (forall i | 0 <= i < |es| :: es[i].logIndex < bound)
    && (forall i, j | 0 <= i < j < |es| :: es[i].logIndex < es[j].logIndex)
  }

  /** Log indices of extracted events strictly increase: they are positions in
      the whole block, not among the matches. */
  lemma {:induction false} ExtractOrdered(fields: FieldDecoder, d: Decoder, ctx: BlockContext, flat: seq<FlatLog>)
    requires |flat| < TWO64
    ensures IndexedBelow(Extract(fields, d, ctx, flat), |flat|)
  {
    if flat != [] {
      ExtractOrdered(fields, d, ctx, flat[..|flat| - 1]);
    }
  }

  lemma {:induction false} FlatTxIndex(receipts: seq<Receipt>, k: nat)
    requires k < |FlatLogs(receipts)|
    ensures FlatLogs(receipts)[k].txIndex < |receipts|
  {
    var n := |receipts| - 1;
    if k < |FlatLogs(receipts[..n])| {
      FlatTxIndex(receipts[..n], k);
    }
  }
}
