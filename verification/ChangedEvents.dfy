/** Coverage does not remember which events it was earned with. The exact condition
    under which a covered answer is nevertheless complete, and for every case
    outside it a history of two runs in which it is not. */
module ChangedEvents {
  import opened Types
  import opened Rlp
  import opened Abi
  import opened Present
  import opened Storage
  import opened Pipeline
  import opened Sync
  import opened History
  import opened Promise
  import Blooms
  import Receipts
  import Trie

  // ── What the runs of a history decode ──────────────────────────────────────

  /** Some run of the history decodes exactly these topics for the contract. */
  ghost predicate DecodedBy(labels: seq<Label>, contract: Address, topics: set<B256>) {
    exists l, s :: l in labels && l.Start? && s in l.scopes && s.contract == contract && s.decoder.events.Keys == topics
  }

  /** `always` and `ever` are the intersection and the union of the topic sets the
      runs of the history really decode. */
  ghost predicate Tight(labels: seq<Label>, contract: Address, always: set<B256>, ever: set<B256>) {
    && (exists topics :: DecodedBy(labels, contract, topics))
    && (forall t :: t in always <==> forall topics | DecodedBy(labels, contract, topics) :: t in topics)
    && (forall t :: t in ever <==> exists topics :: DecodedBy(labels, contract, topics) && t in topics)
  }

  ghost predicate Admissible(w: World, labels: seq<Label>, q: EventQuery, rows: seq<Row>, names: B256 -> string,
                             always: set<B256>, ever: set<B256>)
    requires PlainRange(q)
  {
    && HonestChain(w) && GoodHistory(w, labels) && NamesFit(w, labels, q)
    && w.always(q.contract.value) == always && w.ever(q.contract.value) == ever && w.names == names
    && Tight(labels, q.contract.value, always, ever)
    && |rows| < TWO63 && IsSelect(Exec(w.env, Promise.Start(), labels).db.events, q, rows)
  }

  /** The query is refused, or answered with exactly the chain's logs. */
  ghost predicate KeepsPromise(w: World, labels: seq<Label>, q: EventQuery, rows: seq<Row>)
    requires PlainRange(q)
  {
    var o := QueryEvents(Exec(w.env, Promise.Start(), labels).db, q, rows);
    || o == NotIndexed
    || o == MissingCoverage(q.contract.value, q.fromBlock.value, q.toBlock.value)
    || Exact(w, q, o)
  }

  // ── A chain with one log per block ─────────────────────────────────────────

  function Word(b: Byte): B256 {
    seq(32, _ => b)
  }

  function Keccak(): Blooms.Hasher {
    input => Word(0)
  }

  function TheLog(contract: Address, topic: B256): Log {
    Log(contract, [topic], [])
  }

  function LogBloom(log: Log): Bloom {
    Blooms.LogsBloom(Keccak(), [log])
  }

  function OneReceipt(log: Log): (rs: seq<Receipt>)
    ensures |rs| == 1
  {
    [Receipt(0, Success(true), 0, LogBloom(log), [log])]
  }

  function GenuineTrie(log: Log): map<Bytes, Bytes> {
    hide OneReceipt;
    Trie.ReceiptTrie(OneReceipt(log))
  }

  function Root(log: Log): Trie.RootHash {
    trie => if trie == GenuineTrie(log) then Word(1) else Word(0)
  }

  /** Every block holds the one log. */
  function OneLogWorld(log: Log, names: B256 -> string, always: set<B256>, ever: set<B256>): World {
    World(OneLogEnv(log), n => OneReceipt(log), n => LogBloom(log), n => Word(1), contract => always,
          contract => ever, names)
  }

  function OneLogEnv(log: Log): Env {
    Env(Keccak(), Root(log), (event, topics, data) => true)
  }

  lemma EncodedAtMost(list: bool, payload: Bytes)
    requires |payload| < TWO64
    ensures |EncodePayload(list, payload)| <= |payload| + 9
  {
    PrefixLength(list, |payload|);
  }

  lemma LogFits(log: Log)
    requires |log.topics| == 1 && log.data == []
    ensures |Receipts.EncodeLogs([log])| < 1000
  {
    hide EncodePayload;
    EncodedAtMost(false, log.address);
    EncodedAtMost(false, log.topics[0]);
    assert Receipts.EncodeTopics(log.topics[1..]) == [];
    EncodedAtMost(true, Receipts.EncodeTopics(log.topics));
    EncodedAtMost(false, log.data);
    EncodedAtMost(true, Receipts.LogPayload(log));
    assert [log][1..] == [];
  }

  lemma ReceiptFits(log: Log)
    requires |log.topics| == 1 && log.data == []
    ensures Receipts.Fits(OneReceipt(log)[0])
  {
    hide EncodePayload, Receipts.EncodeLogs, LogBloom, BeBytes;
    var r := OneReceipt(log)[0];
    LogFits(log);
    EncodedAtMost(true, Receipts.EncodeLogs(r.logs));
    EncodedAtMost(false, r.bloom);
    BeLength(0, 0);
    EncodedAtMost(false, BeBytes(0));
    EncodedAtMost(true, Receipts.WithBloomPayload(r));
  }

  lemma OneFlatLog(log: Log)
    ensures FlatLogs(OneReceipt(log)) == [FlatLog(0, log)]
  {
    hide LogBloom;
    var rs := OneReceipt(log);
    assert rs[..0] == [];
    assert FlatLogs(rs) == [] + TxLogs(0, rs[0].logs);
  }

  lemma LogHeld(log: Log)
    ensures Blooms.HoldsLog(Keccak(), LogBloom(log), log)
  {
    hide Blooms.HoldsLog;
    Blooms.AccruedBloomHoldsLogs(Keccak(), Blooms.ZeroBloom(), [log]);
    assert Blooms.HoldsLogs(Keccak(), LogBloom(log), [log]);
    assert [log][0] == log;
  }

  lemma OneBlockHonest(log: Log, names: B256 -> string, always: set<B256>, ever: set<B256>, n: U64)
    requires |log.topics| == 1 && log.data == []
    ensures HonestBlock(OneLogWorld(log, names, always, ever), n)
  {
    hide Trie.ReceiptTrie, Blooms.HoldsLog, LogBloom, FlatLogs, Receipts.Fits, OneReceipt;
    ReceiptFits(log);
    OneFlatLog(log);
    LogHeld(log);
    var trie := GenuineTrie(log);
    assert trie == Trie.ReceiptTrie(OneReceipt(log));
    assert Word(0)[0] != Word(1)[0];
    assert Trie.Binding(Root(log), trie);
  }

  // ── Scopes for a set of topics ─────────────────────────────────────────────

  function Spelled(topic: B256): string {
    seq(32, i requires 0 <= i < 32 => topic[i] as char)
  }

  function Letter(text: string, i: nat): Byte {
    if i < |text| && text[i] as int < 256 then text[i] as Byte else 0
  }

  /** An event whose topic0 is the one its first input spells. */
  function SpelledTopic(event: EventAbi): B256 {
    seq(32, i requires 0 <= i < 32 => Letter(if event.inputs == [] then "" else event.inputs[0].name, i))
  }

  function EventFor(names: B256 -> string, topic: B256): EventAbi {
    EventAbi(names(topic), [EventInput(Spelled(topic), "bytes", false, [])])
  }

  lemma SpelledTopicOf(names: B256 -> string, topic: B256)
    ensures SpelledTopic(EventFor(names, topic)) == topic
  {
    var back := SpelledTopic(EventFor(names, topic));
    assert |back| == |topic|;
    assert forall i | 0 <= i < 32 :: Letter(Spelled(topic), i) == topic[i];
    assert forall i | 0 <= i < 32 :: back[i] == topic[i];
  }

  function EventsFor(names: B256 -> string, topics: seq<B256>): seq<EventAbi> {
    seq(|topics|, i requires 0 <= i < |topics| => EventFor(names, topics[i]))
  }

  function ScopeFor(names: B256 -> string, contract: Address, from: U64, to: U64, topics: seq<B256>): Scope {
    MakeScope(SpelledTopic, contract, from, to, EventsFor(names, topics))
  }

  /** An event filed under a topic has that topic. */
  lemma {:induction false} EventMapHolds(topic0: TopicHash, events: seq<EventAbi>, t: B256)
    requires t in EventMap(topic0, events)
    ensures EventMap(topic0, events)[t] in events && topic0(EventMap(topic0, events)[t]) == t
  {
    var front, last := events[..|events| - 1], events[|events| - 1];
    assert events == front + [last];
    if topic0(last) != t {
      EventMapHolds(topic0, front, t);
    }
  }

  lemma ScopeForDecodes(names: B256 -> string, contract: Address, from: U64, to: U64, topics: seq<B256>)
    ensures var s := ScopeFor(names, contract, from, to, topics);
            && Prepared(s) && s.contract == contract && s.decoder.contract == contract && s.from == from && s.to == to
            && (forall t :: t in s.decoder.events <==> t in topics)
            && (forall t | t in s.decoder.events :: s.decoder.events[t].name == names(t))
  {
    hide EventMap, Prepared, SpelledTopic, EventFor;
    var events := EventsFor(names, topics);
    MakeScopePrepared(SpelledTopic, contract, from, to, events);
    forall i | 0 <= i < |topics| ensures Topics(SpelledTopic, events)[i] == topics[i] {
      SpelledTopicOf(names, topics[i]);
    }
    assert Topics(SpelledTopic, events) == topics;
    forall t ensures t in EventMap(SpelledTopic, events) <==> t in topics {
      DecoderTopics(SpelledTopic, events, t);
    }
    forall t | t in EventMap(SpelledTopic, events) ensures EventMap(SpelledTopic, events)[t].name == names(t) {
      EventMapHolds(SpelledTopic, events, t);
      var i :| 0 <= i < |events| && events[i] == EventMap(SpelledTopic, events)[t];
      SpelledTopicOf(names, topics[i]);
      EventForName(names, topics[i]);
    }
  }

  lemma EventForName(names: B256 -> string, topic: B256)
    ensures EventFor(names, topic).name == names(topic)
  {
  }

  lemma Listed(topics: set<B256>) returns (list: seq<B256>)
    ensures forall t :: t in list <==> t in topics
  {
    list := [];
    var rest := topics;
    while rest != {}
      invariant rest <= topics
      invariant forall t :: t in list <==> t in topics - rest
      decreases |rest|
    {
      var t :| t in rest;
      list := list + [t];
      rest := rest - {t};
    }
  }

  // ── A quiet run ────────────────────────────────────────────────────────────

  function FactsAt(log: Log, n: U64): Facts {
    Facts(n, Pipeline.Header(n, Word(0), 0, Word(1), LogBloom(log)), OneReceipt(log), [])
  }

  /** The archive: the chain's blocks from `from` on. */
  function Archive(log: Log, from: U64, count: nat): seq<Item>
    requires from + count <= TWO63
  {
    seq(count, i requires 0 <= i < count => Block(FactsAt(log, from + i)))
  }

  lemma FactsHonest(log: Log, names: B256 -> string, always: set<B256>, ever: set<B256>, n: U64)
    requires |log.topics| == 1 && log.data == []
    ensures HonestFacts(OneLogWorld(log, names, always, ever), FactsAt(log, n))
  {
    hide LogBloom, Receipts.Fits, OneReceipt;
    ReceiptFits(log);
  }

  lemma NothingDecoded(env: Env, s: Scope, f: Facts)
    requires ContainsBlock(s, f.blockNumber) && Verifies(env, f) && Decode(env, s, f) == []
    ensures EventsOf(Process(env, [s], f)) == [] && FailureOf(Process(env, [s], f)) == None
  {
    hide Blooms.Matches, Verifies, Decode;
    assert [s][..0] == [];
    assert InRange([s], f.blockNumber) == [] + [s] == [s];
    assert BloomHits(env.keccak, [], f.header.bloom) == [];
    assert DecodeAll(env, [], f) == [];
    assert DecodeAll(env, [s], f) == [] + Decode(env, s, f) == [];
  }

  lemma ArchiveVerifies(log: Log, n: U64)
    ensures Verifies(OneLogEnv(log), FactsAt(log, n))
  {
    hide Trie.ReceiptTrie, LogBloom, OneReceipt;
    assert GenuineTrie(log) == Trie.ReceiptTrie(OneReceipt(log));
  }

  /** A scope that does not look for the log gets no event and no failure from a block. */
  lemma QuietOutcome(log: Log, s: Scope, n: U64)
    requires |log.topics| == 1 && log.topics[0] !in s.decoder.events && ContainsBlock(s, n)
    ensures var o := Process(OneLogEnv(log), [s], FactsAt(log, n));
            EventsOf(o) == [] && FailureOf(o) == None
  {
    hide LogBloom, FlatLogs, Extract, OneReceipt, Verifies, Process;
    var env, f := OneLogEnv(log), FactsAt(log, n);
    OneFlatLog(log);
    ExtractNothing(env.fields, s.decoder, Context(f), FlatLogs(f.receipts));
    ArchiveVerifies(log, n);
    NothingDecoded(env, s, f);
  }

  /** What the scope has accumulated after `k` blocks. */
  function QuietAcc(s: Scope, k: nat): Acc
    requires s.from + k <= TWO63
  {
    Acc([if k == 0 then [] else [Interval(s.from, s.from + k - 1)]], [None], false, false, 0)
  }

  lemma QuietPush(s: Scope, k: nat)
    requires s.from + k <= s.to < TWO63
    ensures Pushed(s, QuietAcc(s, k).present[0], s.from + k) == QuietAcc(s, k + 1).present[0]
  {
  }

  lemma QuietRead(log: Log, s: Scope, k: nat)
    requires |log.topics| == 1 && log.topics[0] !in s.decoder.events
    requires s.from + k <= s.to < TWO63
    ensures var env, item := OneLogEnv(log), Block(FactsAt(log, s.from + k));
            && ReadItem(env, [s], QuietAcc(s, k), item, Applied) == QuietAcc(s, k + 1)
            && StoreItem(env, [s], map[], item, Applied) == map[]
  {
    hide Process, LogBloom, OneReceipt, Keccak, Root;
    var n := s.from + k;
    var env, f := OneLogEnv(log), FactsAt(log, n);
    QuietOutcome(log, s, n);
    NoRows(map[]);
    var acc := AfterBlock([s], QuietAcc(s, k), n, None);
    QuietPush(s, k);
    assert acc.present == [Pushed(s, QuietAcc(s, k).present[0], n)];
    assert acc.ineligible == [None];
  }

  function Reads(k: nat): seq<Label> {
    seq(k, _ => Read(Applied))
  }

  lemma QuietStep(log: Log, s: Scope, db: Tables, k: nat)
    requires |log.topics| == 1 && log.topics[0] !in s.decoder.events && db.events == map[]
    requires s.from + k <= s.to < TWO63
    ensures var env, stream := OneLogEnv(log), Archive(log, s.from, s.to - s.from + 1);
            Sync.Sized([s], QuietAcc(s, k))
            && Step(env, Sys(db, Reading([s], stream, k, QuietAcc(s, k))), Read(Applied))
               == Sys(db, Reading([s], stream, k + 1, QuietAcc(s, k + 1)))
  {
    hide ReadItem, StoreItem, FactsAt, OneLogWorld, QuietAcc;
    var stream := Archive(log, s.from, s.to - s.from + 1);
    assert stream[k] == Block(FactsAt(log, s.from + k));
    SizedAcc(s, k);
    QuietRead(log, s, k);
  }

  lemma {:induction false} QuietReads(log: Log, s: Scope, db: Tables, k: nat)
    requires |log.topics| == 1 && log.topics[0] !in s.decoder.events && db.events == map[]
    requires s.from <= s.to < TWO63 && k <= s.to - s.from + 1
    ensures var env, stream := OneLogEnv(log), Archive(log, s.from, s.to - s.from + 1);
            Sync.Sized([s], QuietAcc(s, 0))
            && Exec(env, Sys(db, Reading([s], stream, 0, QuietAcc(s, 0))), Reads(k))
               == Sys(db, Reading([s], stream, k, QuietAcc(s, k)))
  {
    hide Exec, Step, OneLogWorld, QuietAcc, Archive;
    var env, stream := OneLogEnv(log), Archive(log, s.from, s.to - s.from + 1);
    SizedAcc(s, 0);
    var start := Sys(db, Reading([s], stream, 0, QuietAcc(s, 0)));
    if k == 0 {
      ExecNone(env, start);
      assert Reads(0) == [];
    } else {
      QuietReads(log, s, db, k - 1);
      QuietStep(log, s, db, k - 1);
      assert Reads(k) == Reads(k - 1) + [Read(Applied)];
      ExecNext(env, start, Reads(k - 1), Read(Applied));
    }
  }

  lemma SizedAcc(s: Scope, k: nat)
    requires s.from + k <= TWO63
    ensures Sync.Sized([s], QuietAcc(s, k))
  {
  }

  /** A whole run of one scope over its range, with every write applied. */
  function QuietRun(log: Log, s: Scope): seq<Label>
    requires s.from <= s.to < TWO63
  {
    [SaveAbi(s.contract), Label.Start([s], Archive(log, s.from, s.to - s.from + 1))]
    + Reads(s.to - s.from + 1)
    + [EndOfStream, Record(Applied), Record(Applied), Finish]
  }

  lemma RunStarts(env: Env, s: Scope, stream: seq<Item>)
    requires s.from < TWO63
    ensures Exec(env, Promise.Start(), [SaveAbi(s.contract), Label.Start([s], stream)])
            == Sys(Tables(map[], {}, {s.contract}), Reading([s], stream, 0, QuietAcc(s, 0)))
  {
    hide Exec, Step;
    ExecNone(env, Promise.Start());
    ExecNext(env, Promise.Start(), [], SaveAbi(s.contract));
    ExecNext(env, Promise.Start(), [SaveAbi(s.contract)], Label.Start([s], stream));
    assert [] + [SaveAbi(s.contract)] == [SaveAbi(s.contract)];
    assert [SaveAbi(s.contract)] + [Label.Start([s], stream)] == [SaveAbi(s.contract), Label.Start([s], stream)];
    StartSteps(env, s, stream);
  }

  lemma StartSteps(env: Env, s: Scope, stream: seq<Item>)
    requires s.from < TWO63
    ensures Step(env, Step(env, Promise.Start(), SaveAbi(s.contract)), Label.Start([s], stream))
            == Sys(Tables(map[], {}, {s.contract}), Reading([s], stream, 0, QuietAcc(s, 0)))
  {
    assert InitialAcc(1) == QuietAcc(s, 0);
  }

  lemma RunEnds(env: Env, s: Scope, stream: seq<Item>)
    requires s.from <= s.to < TWO63 && |stream| == s.to - s.from + 1
    ensures var db := Tables(map[], {}, {s.contract});
            Exec(env, Sys(db, Reading([s], stream, |stream|, QuietAcc(s, |stream|))),
                 [EndOfStream, Record(Applied), Record(Applied), Finish])
            == Sys(db.(coverage := {CoveredRange(s.contract, s.from, s.to)}), Idle)
  {
    hide Exec, Step;
    var db := Tables(map[], {}, {s.contract});
    var start := Sys(db, Reading([s], stream, |stream|, QuietAcc(s, |stream|)));
    var l0, l1, l2, l3 := EndOfStream, Record(Applied), Record(Applied), Finish;
    ExecNone(env, start);
    ExecNext(env, start, [], l0);
    ExecNext(env, start, [l0], l1);
    ExecNext(env, start, [l0, l1], l2);
    ExecNext(env, start, [l0, l1, l2], l3);
    assert [] + [l0] == [l0] && [l0] + [l1] == [l0, l1] && [l0, l1] + [l2] == [l0, l1, l2];
    assert [l0, l1, l2] + [l3] == [l0, l1, l2, l3];
    EndSteps(env, s, stream);
  }

  lemma EndSteps(env: Env, s: Scope, stream: seq<Item>)
    requires s.from <= s.to < TWO63 && |stream| == s.to - s.from + 1
    ensures var db := Tables(map[], {}, {s.contract});
            var start := Sys(db, Reading([s], stream, |stream|, QuietAcc(s, |stream|)));
            Step(env, Step(env, Step(env, Step(env, start, EndOfStream), Record(Applied)), Record(Applied)), Finish)
            == Sys(db.(coverage := {CoveredRange(s.contract, s.from, s.to)}), Idle)
  {
    hide GapVerdict;
  }

  lemma QuietRunRecords(log: Log, s: Scope)
    requires |log.topics| == 1 && log.topics[0] !in s.decoder.events && s.from <= s.to < TWO63
    ensures Exec(OneLogEnv(log), Promise.Start(), QuietRun(log, s))
            == Sys(Tables(map[], {CoveredRange(s.contract, s.from, s.to)}, {s.contract}), Idle)
  {
    hide Exec, OneLogWorld, QuietAcc, Archive, Reads;
    var env, stream := OneLogEnv(log), Archive(log, s.from, s.to - s.from + 1);
    assert |stream| == s.to - s.from + 1 by { ArchiveLength(log, s.from, s.to - s.from + 1); }
    var head, middle := [SaveAbi(s.contract), Label.Start([s], stream)], Reads(|stream|);
    var tail := [EndOfStream, Record(Applied), Record(Applied), Finish];
    RunStarts(env, s, stream);
    QuietReads(log, s, Tables(map[], {}, {s.contract}), |stream|);
    RunEnds(env, s, stream);
    ExecAppend(env, Promise.Start(), head, middle);
    ExecAppend(env, Promise.Start(), head + middle, tail);
  }

  lemma ArchiveLength(log: Log, from: U64, count: nat)
    requires from + count <= TWO63
    ensures |Archive(log, from, count)| == count
  {
  }

  // ── Two runs ───────────────────────────────────────────────────────────────

  /** A whole run of the first scope, and a run of the second that crashes at once. */
  function TwoRuns(log: Log, first: Scope, second: Scope): seq<Label>
    requires first.from <= first.to < TWO63
  {
    QuietRun(log, first)
    + [Label.Start([second], Archive(log, first.from, first.to - first.from + 1)), Label.Crash]
  }

  lemma TwoRunsRecord(log: Log, first: Scope, second: Scope)
    requires |log.topics| == 1 && log.topics[0] !in first.decoder.events && first.from <= first.to < TWO63
    ensures Exec(OneLogEnv(log), Promise.Start(), TwoRuns(log, first, second)).db
            == Tables(map[], {CoveredRange(first.contract, first.from, first.to)}, {first.contract})
  {
    hide Exec, Step, OneLogWorld, Archive, QuietRun;
    var env := OneLogEnv(log);
    QuietRunRecords(log, first);
    var start := Label.Start([second], Archive(log, first.from, first.to - first.from + 1));
    var run := QuietRun(log, first);
    var s := Exec(env, Promise.Start(), run);
    ExecNext(env, Promise.Start(), run, start);
    ExecNext(env, Promise.Start(), run + [start], Label.Crash);
    assert run + [start] + [Label.Crash] == TwoRuns(log, first, second);
    CrashedStart(env, s, start);
  }

  lemma CrashedStart(env: Env, s: Sys, start: Label)
    requires WellSized(s) && start.Start?
    ensures Step(env, Step(env, s, start), Label.Crash).db == s.db
  {
  }

  /** The only starts are those of the two scopes, both over the chain's blocks. */
  lemma TwoStarts(log: Log, first: Scope, second: Scope, l: Label)
    requires first.from <= first.to < TWO63
    ensures var stream := Archive(log, first.from, first.to - first.from + 1);
            l in TwoRuns(log, first, second) && l.Start? <==>
            l == Label.Start([first], stream) || l == Label.Start([second], stream)
  {
    hide Archive;
    var stream := Archive(log, first.from, first.to - first.from + 1);
    var labels := TwoRuns(log, first, second);
    assert labels[1] == Label.Start([first], stream);
    assert labels[|labels| - 2] == Label.Start([second], stream);
  }

  lemma TwoRunsGood(log: Log, w: World, first: Scope, second: Scope)
    requires first.from <= first.to < TWO63 && |log.topics| == 1 && log.data == []
    requires w == OneLogWorld(log, w.names, w.always(first.contract), w.ever(first.contract))
    requires GoodScope(w, first) && GoodScope(w, second)
    ensures GoodHistory(w, TwoRuns(log, first, second))
  {
    hide GoodScope, TwoRuns, FactsAt, OneLogWorld, HonestFacts;
    var labels, stream := TwoRuns(log, first, second), Archive(log, first.from, first.to - first.from + 1);
    forall i | 0 <= i < |stream| && stream[i].Block? ensures HonestFacts(w, stream[i].facts) {
      FactsHonest(log, w.names, w.always(first.contract), w.ever(first.contract), first.from + i);
    }
    assert HonestStream(w, stream);
    assert GoodScopes(w, [first]) && GoodScopes(w, [second]);
    forall i | 0 <= i < |labels| && labels[i].Start?
      ensures GoodScopes(w, labels[i].scopes) && HonestStream(w, labels[i].stream)
    {
      TwoStarts(log, first, second, labels[i]);
    }
  }

  lemma TwoRunsNamed(log: Log, w: World, first: Scope, second: Scope)
    requires first.from <= first.to < TWO63
    requires NamedScope(w, first.contract, first) && NamedScope(w, first.contract, second)
    ensures NamedHistory(w, first.contract, TwoRuns(log, first, second))
  {
    hide TwoRuns, NamedScope, Archive;
    forall l | l in TwoRuns(log, first, second) && l.Start? ensures NamedScopes(w, first.contract, l.scopes) {
      TwoStarts(log, first, second, l);
    }
  }

  lemma TwoRunsDecode(log: Log, first: Scope, second: Scope, topics: set<B256>)
    requires first.from <= first.to < TWO63 && first.contract == second.contract
    ensures DecodedBy(TwoRuns(log, first, second), first.contract, topics) <==>
            topics == first.decoder.events.Keys || topics == second.decoder.events.Keys
  {
    hide Archive, TwoRuns;
    var labels, stream := TwoRuns(log, first, second), Archive(log, first.from, first.to - first.from + 1);
    var a, b := Label.Start([first], stream), Label.Start([second], stream);
    forall l ensures l in labels && l.Start? <==> l == a || l == b {
      TwoStarts(log, first, second, l);
    }
    assert a in labels && first in a.scopes && b in labels && second in b.scopes;
  }

  lemma TwoRunsTight(log: Log, first: Scope, second: Scope)
    requires first.from <= first.to < TWO63 && first.contract == second.contract
    requires first.decoder.events.Keys <= second.decoder.events.Keys
    ensures Tight(TwoRuns(log, first, second), first.contract, first.decoder.events.Keys, second.decoder.events.Keys)
  {
    hide TwoRuns, DecodedBy;
    forall topics ensures DecodedBy(TwoRuns(log, first, second), first.contract, topics) <==>
                          topics == first.decoder.events.Keys || topics == second.decoder.events.Keys {
      TwoRunsDecode(log, first, second, topics);
    }
    assert DecodedBy(TwoRuns(log, first, second), first.contract, first.decoder.events.Keys);
    assert DecodedBy(TwoRuns(log, first, second), first.contract, second.decoder.events.Keys);
  }

  // ── The failing histories ──────────────────────────────────────────────────

  /** A covered range of a table without rows is answered `Empty`. */
  lemma EmptyTableAnswer(db: Tables, q: EventQuery)
    requires PlainRange(q) && db.events == map[] && q.contract.value in db.contracts
    requires q.fromBlock.value <= q.toBlock.value
    requires CoveredRange(q.contract.value, q.fromBlock.value, q.toBlock.value) in db.coverage
    ensures IsSelect(db.events, q, []) && QueryEvents(db, q, []) == Empty
  {
    var from, to := q.fromBlock.value, q.toBlock.value;
    assert RangeAnswers(CoveredRange(q.contract.value, from, to), from, to);
    WholeSelect(q, []);
  }

  lemma LogExpected(log: Log, w: World, q: EventQuery)
    requires w == OneLogWorld(log, w.names, w.always(log.address), w.ever(log.address))
    requires PlainRange(q) && q.fromBlock.value <= q.toBlock.value
    requires log.address == q.contract.value && |log.topics| == 1 && log.topics[0] in EverAsked(w, q)
    ensures AnswerFor(w, EverAsked(w, q), q) != []
  {
    hide FlatLogs, LogBloom, ChainAnswer, EverAsked;
    var topics, from := EverAsked(w, q), q.fromBlock.value;
    OneFlatLog(log);
    assert OnChain(w, topics, q.contract.value, from, 0, RawAt(w, from, 0));
    ChainAnswerMembers(w, topics, q.contract.value, from, q.toBlock.value, RawAt(w, from, 0));
  }

  /** Whenever the runs disagree about a topic asked for, the promise can break: for
      every contract, range and topic sets there is an honest chain and a history of
      a run with the smaller set that covers the range and a run with the larger set,
      after which the query is answered `Empty` although the chain has matching logs. */
  lemma ChangedEventSetBreaksPromise(q: EventQuery, names: B256 -> string, always: set<B256>, ever: set<B256>)
    returns (w: World, labels: seq<Label>)
    requires PlainRange(q) && q.fromBlock.value <= q.toBlock.value
    requires always <= ever && Asked(names, always, q) != Asked(names, ever, q)
    ensures Admissible(w, labels, q, [], names, always, ever)
    ensures QueryEvents(Exec(w.env, Promise.Start(), labels).db, q, []) == Empty
    ensures AnswerFor(w, EverAsked(w, q), q) != []
  {
    hide Exec, OneLogWorld, HonestBlock, TwoRuns, AnswerFor, Prepared, Tight, GoodHistory, IsSelect, ScopeFor;
    hide NamedHistory;
    var c, from, to := q.contract.value, q.fromBlock.value, q.toBlock.value;
    var topic :| topic in Asked(names, ever, q) && topic !in Asked(names, always, q);
    var few := Listed(always);
    var many := Listed(ever);
    var log, first, second := TheLog(c, topic), ScopeFor(names, c, from, to, few), ScopeFor(names, c, from, to, many);
    ScopeForDecodes(names, c, from, to, few);
    ScopeForDecodes(names, c, from, to, many);
    w, labels := OneLogWorld(log, names, always, ever), TwoRuns(log, first, second);
    assert first.decoder.events.Keys == always && second.decoder.events.Keys == ever;
    WorldSets(log, names, always, ever);
    forall n: U64 ensures HonestBlock(w, n) {
      OneBlockHonest(log, names, always, ever, n);
    }
    TwoRunsGood(log, w, first, second);
    TwoRunsTight(log, first, second);
    TwoRunsNamed(log, w, first, second);
    TwoRunsRecord(log, first, second);
    EmptyTableAnswer(Exec(w.env, Promise.Start(), labels).db, q);
    LogExpected(log, w, q);
  }

  lemma WorldSets(log: Log, names: B256 -> string, always: set<B256>, ever: set<B256>)
    ensures var w := OneLogWorld(log, names, always, ever);
            && w.env == OneLogEnv(log) && w.names == names
            && forall c :: w.always(c) == always && w.ever(c) == ever
  {
  }

  /** The smallest case: a first run looks for the second topic at block 7, a later
      run for both; a query for the first topic at block 7 is answered `Empty`, and
      the chain has such a log there. */
  lemma EventAddedLater(contract: Address, names: B256 -> string) returns (w: World, labels: seq<Label>)
    ensures var q := EventQuery(Some(contract), None, Some(Word(1)), Some(7), Some(7), 0, 0);
            && Admissible(w, labels, q, [], names, {Word(2)}, {Word(1), Word(2)})
            && QueryEvents(Exec(w.env, Promise.Start(), labels).db, q, []) == Empty
            && ChainAnswer(w, {Word(1)}, contract, 7, 7) != []
  {
    hide Exec, ChainAnswer, HonestChain, GoodHistory, Tight, QueryEvents, IsSelect;
    var q := EventQuery(Some(contract), None, Some(Word(1)), Some(7), Some(7), 0, 0);
    assert Word(1)[0] != Word(2)[0];
    assert Asked(names, {Word(2)}, q) == {} && Asked(names, {Word(1), Word(2)}, q) == {Word(1)};
    w, labels := ChangedEventSetBreaksPromise(q, names, {Word(2)}, {Word(1), Word(2)});
  }

  // ── The exact condition ────────────────────────────────────────────────────

  /** A backward range has no logs, and nothing is answered for it. */
  lemma BackwardRangeIsExact(w: World, labels: seq<Label>, q: EventQuery, rows: seq<Row>)
    requires HonestChain(w) && GoodHistory(w, labels) && PlainRange(q) && |rows| < TWO63 && NamesFit(w, labels, q)
    requires q.fromBlock.value > q.toBlock.value
    requires IsSelect(Exec(w.env, Promise.Start(), labels).db.events, q, rows)
    ensures KeepsPromise(w, labels, q, rows)
  {
    hide Exec, HonestChain, GoodHistory, IsSelect, EverAsked, AlwaysAsked, IsRangeCovered, NamesFit;
    var o := QueryEvents(Exec(w.env, Promise.Start(), labels).db, q, rows);
    WholeSelect(q, rows);
    if Answers(o) {
      var answer := RawAll(RowsOf(o));
      if answer != [] {
        AnswersAreBounded(w, labels, q, rows, answer[0]);
        assert false;
      }
    }
  }

  /** For every plain query, every naming of events and every pair of topic sets: all
      honest histories whose runs decode these sets keep the promise exactly when the
      runs agree on which of the topics asked for they decode, or the range is backward. */
  lemma PromiseKeptIff(q: EventQuery, names: B256 -> string, always: set<B256>, ever: set<B256>)
    requires PlainRange(q) && always <= ever
    ensures (forall w, labels, rows ::
               Admissible(w, labels, q, rows, names, always, ever) ==> KeepsPromise(w, labels, q, rows))
            <==> Asked(names, always, q) == Asked(names, ever, q) || q.fromBlock.value > q.toBlock.value
  {
    hide Exec, HonestChain, GoodHistory, IsSelect, Asked, AnswerFor, Tight, NamesFit;
    if Asked(names, always, q) == Asked(names, ever, q) || q.fromBlock.value > q.toBlock.value {
      forall w, labels, rows | Admissible(w, labels, q, rows, names, always, ever)
        ensures KeepsPromise(w, labels, q, rows)
      {
        if q.fromBlock.value > q.toBlock.value {
          BackwardRangeIsExact(w, labels, q, rows);
        } else {
          CoveredAnswersAreExact(w, labels, q, rows);
        }
      }
    } else {
      var w, labels := ChangedEventSetBreaksPromise(q, names, always, ever);
      assert !KeepsPromise(w, labels, q, []);
    }
  }
}
