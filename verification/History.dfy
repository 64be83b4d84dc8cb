/** Whole histories of runs, crashes and queries against one chain: a covered
    range already holds exactly the chain's matching logs. */
module History {
  import opened Types
  import opened Abi
  import opened Present
  import opened Storage
  import opened Pipeline
  import opened Sync
  import Blooms
  import Trie

  // ── The chain ──────────────────────────────────────────────────────────────

  /** One chain, and for each contract the topics every run decodes (`always`)
      and the topics some run may decode (`ever`), with the name of each event. */
  datatype World = World(
    env: Env,
    receipts: U64 -> seq<Receipt>,
    bloom: U64 -> Bloom,
    receiptsRoot: U64 -> B256,
    always: Address -> set<B256>,
    ever: Address -> set<B256>,
    names: B256 -> string)

  function Flat(w: World, n: U64): seq<FlatLog> {
    FlatLogs(w.receipts(n))
  }

  /** Headers are honest: the bloom covers the block's logs, and the receipts root
      is the root of the block's receipts and of no other trie. */
  ghost predicate HonestBlock(w: World, n: U64) {
    && Trie.AllFit(w.receipts(n))
    && |w.receipts(n)| < TWO63 && |Flat(w, n)| < TWO63
    && HoldsFlat(w.env.keccak, w.bloom(n), Flat(w, n))
    && w.receiptsRoot(n) == w.env.root(Trie.ReceiptTrie(w.receipts(n)))
    && Trie.Binding(w.env.root, Trie.ReceiptTrie(w.receipts(n)))
  }

  ghost predicate HonestChain(w: World) {
    forall n: U64 :: HonestBlock(w, n)
  }

  /** The archive may hold any receipts and transaction hashes, but its headers
      are the chain's and are filed under their own number. */
  ghost predicate HonestFacts(w: World, f: Facts) {
    && f.header.number == f.blockNumber
    && f.header.bloom == w.bloom(f.blockNumber)
    && f.header.receiptsRoot == w.receiptsRoot(f.blockNumber)
    && Trie.AllFit(f.receipts)
  }

  ghost predicate HonestStream(w: World, stream: seq<Item>) {
    forall i | 0 <= i < |stream| && stream[i].Block? :: HonestFacts(w, stream[i].facts)
  }

  ghost predicate GoodScope(w: World, s: Scope) {
    && Prepared(s)
    && s.to < TWO63
    && w.always(s.contract) <= s.decoder.events.Keys <= w.ever(s.contract)
  }

  ghost predicate GoodScopes(w: World, scopes: seq<Scope>) {
    forall i | 0 <= i < |scopes| :: GoodScope(w, scopes[i])
  }

  /** Every run of the history reads the chain with scopes of the agreed topics. */
  ghost predicate GoodHistory(w: World, labels: seq<Label>) {
    forall i | 0 <= i < |labels| && labels[i].Start? ::
      GoodScopes(w, labels[i].scopes) && HonestStream(w, labels[i].stream)
  }

  // ── What tables say about the chain ────────────────────────────────────────

  predicate Wanted(topics: set<B256>, contract: Address, log: Log) {
    log.address == contract && log.topics != [] && log.topics[0] in topics
  }

  function KeyAt(w: World, n: U64, k: nat): Key
    requires n < TWO63 && k < |Flat(w, n)| && |Flat(w, n)| < TWO63
  {
    Key(n, AsI64(Flat(w, n)[k].txIndex % TWO64), k)
  }

  /** Every wanted log of the contract in block `n` has its row. */
  ghost predicate CompleteAt(w: World, t: Table, contract: Address, n: int) {
    && 0 <= n < TWO63
    && |Flat(w, n)| < TWO63
    && forall k | 0 <= k < |Flat(w, n)| ::
         Wanted(w.always(contract), contract, Flat(w, n)[k].log) ==> KeyAt(w, n, k) in t
  }

  /** The row is the chain's log at its block and log index. */
  ghost predicate SoundRow(w: World, key: Key, row: Row) {
    && 0 <= key.block && 0 <= key.log < |Flat(w, key.block)| < TWO63
    && var flat := Flat(w, key.block)[key.log];
    && key == KeyAt(w, key.block, key.log) && KeyOf(row) == key
    && row.contract == flat.log.address && row.topics == flat.log.topics && row.data == flat.log.data
    && Wanted(w.ever(row.contract), row.contract, flat.log)
    && row.topic0 == flat.log.topics[0]
  }

  ghost predicate SoundTable(w: World, t: Table) {
    forall key | key in t :: SoundRow(w, key, t[key])
  }

  // ── One block ──────────────────────────────────────────────────────────────

  lemma GenuineReceipts(w: World, f: Facts)
    requires HonestBlock(w, f.blockNumber) && HonestFacts(w, f)
    ensures Verifies(w.env, f) <==> f.receipts == w.receipts(f.blockNumber)
  {
    hide Trie.ReceiptTrie;
    Trie.AcceptedReceiptsAreGenuine(w.env.root, w.receipts(f.blockNumber), f.receipts);
  }

  /** Events of an accepted block come from some in-range scope's decoder. */
  lemma EventOrigin(env: Env, scopes: seq<Scope>, f: Facts, e: DecodedEvent)
    requires e in EventsOf(Process(env, scopes, f))
    ensures Verifies(env, f)
    ensures exists s :: s in scopes && ContainsBlock(s, f.blockNumber) && e in Decode(env, s, f)
  {
    hide Verifies, Decode, ContainsBlock, InRange, BloomHits;
    var inRange := InRange(scopes, f.blockNumber);
    var hits := BloomHits(env.keccak, inRange, f.header.bloom);
    DecodeAllMembers(env, hits, f, e);
    var s :| s in hits && e in Decode(env, s, f);
    HitsMembers(env.keccak, inRange, f.header.bloom, s);
    InRangeMembers(scopes, f.blockNumber, s);
  }

  lemma SmallTxIndex(w: World, n: U64, k: nat)
    requires HonestBlock(w, n) && k < |Flat(w, n)|
    ensures Flat(w, n)[k].txIndex < TWO63
  {
    FlatTxIndex(w.receipts(n), k);
  }

  lemma EventRow(w: World, s: Scope, f: Facts, k: nat)
    requires HonestBlock(w, f.blockNumber) && f.header.number == f.blockNumber < TWO63
    requires f.receipts == w.receipts(f.blockNumber)
    requires k < |Flat(w, f.blockNumber)| && IsMatch(s.decoder, Flat(w, f.blockNumber)[k].log)
    requires s.decoder.contract == s.contract && s.decoder.events.Keys <= w.ever(s.contract)
    ensures var row := ToRow(EventAt(w.env.fields, s.decoder, Context(f), Flat(w, f.blockNumber)[k], k));
            KeyOf(row) == KeyAt(w, f.blockNumber, k) && SoundRow(w, KeyOf(row), row)
  {
    hide HoldsFlat, Trie.ReceiptTrie, FlatLogs;
    SmallTxIndex(w, f.blockNumber, k);
  }

  lemma ProcessSound(w: World, scopes: seq<Scope>, f: Facts, e: DecodedEvent)
    requires HonestBlock(w, f.blockNumber) && HonestFacts(w, f) && GoodScopes(w, scopes)
    requires e in EventsOf(Process(w.env, scopes, f))
    ensures SoundRow(w, KeyOf(ToRow(e)), ToRow(e))
  {
    hide Process, HonestBlock, SoundRow, EventAt, FlatLogs, Verifies, ToRow, KeyOf;
    EventOrigin(w.env, scopes, f, e);
    var s :| s in scopes && ContainsBlock(s, f.blockNumber) && e in Decode(w.env, s, f);
    var i :| 0 <= i < |scopes| && scopes[i] == s;
    assert GoodScope(w, scopes[i]);
    GenuineReceipts(w, f);
    ExtractSound(w.env.fields, s.decoder, Context(f), Flat(w, f.blockNumber), e);
    var k :| 0 <= k < |Flat(w, f.blockNumber)| && IsMatch(s.decoder, Flat(w, f.blockNumber)[k].log)
             && e == EventAt(w.env.fields, s.decoder, Context(f), Flat(w, f.blockNumber)[k], k);
    var topics :| PreparedFrom(s, topics);
    EventRow(w, s, f, k);
  }

  /** A wanted log of an honest block makes its scope pass the bloom test. */
  lemma WantedLogHits(w: World, s: Scope, f: Facts, k: nat)
    requires HonestBlock(w, f.blockNumber) && HonestFacts(w, f) && GoodScope(w, s)
    requires k < |Flat(w, f.blockNumber)|
    requires Wanted(w.always(s.contract), s.contract, Flat(w, f.blockNumber)[k].log)
    ensures IsMatch(s.decoder, Flat(w, f.blockNumber)[k].log)
    ensures Blooms.Matches(w.env.keccak, s.scanner, f.header.bloom)
  {
    hide Blooms.Matches, Blooms.HoldsLog, FlatLogs, Trie.ReceiptTrie;
    var topics :| PreparedFrom(s, topics);
    MatchingScopeHits(w.env.keccak, s, f.header.bloom, Flat(w, f.blockNumber)[k].log);
  }

  /** Unless verification fails, a block yields the row of every wanted log of
      every scope that contains it. */
  lemma ProcessComplete(w: World, scopes: seq<Scope>, f: Facts, s: Scope, k: nat)
    requires HonestBlock(w, f.blockNumber) && HonestFacts(w, f)
    requires s in scopes && GoodScope(w, s) && ContainsBlock(s, f.blockNumber)
    requires !Process(w.env, scopes, f).VerifyFailed?
    requires k < |Flat(w, f.blockNumber)|
    requires Wanted(w.always(s.contract), s.contract, Flat(w, f.blockNumber)[k].log)
    ensures exists e :: e in EventsOf(Process(w.env, scopes, f)) && KeyOf(ToRow(e)) == KeyAt(w, f.blockNumber, k)
  {
    hide HonestBlock, FlatLogs, Verifies, EventAt, ToRow, KeyOf, KeyAt, Extract, Wanted, IsMatch, InRange, BloomHits,
         DecodeAll, Blooms.Matches;
    var flat := Flat(w, f.blockNumber);
    WantedLogHits(w, s, f, k);
    var inRange := InRange(scopes, f.blockNumber);
    InRangeMembers(scopes, f.blockNumber, s);
    var hits := BloomHits(w.env.keccak, inRange, f.header.bloom);
    HitsMembers(w.env.keccak, inRange, f.header.bloom, s);
    assert Verifies(w.env, f);
    GenuineReceipts(w, f);
    var topics :| PreparedFrom(s, topics);
    var e := EventAt(w.env.fields, s.decoder, Context(f), flat[k], k);
    ExtractComplete(w.env.fields, s.decoder, Context(f), flat, k);
    DecodeAllMembers(w.env, hits, f, e);
    EventRow(w, s, f, k);
  }

  // ── The invariant ──────────────────────────────────────────────────────────

  ghost predicate SoundRange(w: World, t: Table, r: CoveredRange) {
    && 0 <= r.from <= r.to
    && forall n | r.from <= n <= r.to :: CompleteAt(w, t, r.contract, n)
  }

  ghost predicate SoundCoverage(w: World, db: Tables) {
    forall r | r in db.coverage :: SoundRange(w, db.events, r)
  }

  /** What a run may rely on for one scope while it reads and records. */
  ghost predicate ScopeInv(w: World, t: Table, s: Scope, present: seq<Interval>, withheld: bool) {
    && Separated(present) && Within(present, s.from, s.to)
    && (!withheld ==> forall n | InAny(present, n) :: CompleteAt(w, t, s.contract, n))
  }

  ghost predicate RunInv(w: World, t: Table, scopes: seq<Scope>, stream: seq<Item>, acc: Acc) {
    && Sized(scopes, acc) && GoodScopes(w, scopes) && HonestStream(w, stream)
    && forall i | 0 <= i < |scopes| :: ScopeInv(w, t, scopes[i], acc.present[i], Withheld(acc, i).Some?)
  }

  ghost predicate Inv(w: World, s: Sys) {
    && SoundTable(w, s.db.events)
    && SoundCoverage(w, s.db)
    && match s.phase
       case Idle => true
       case Reading(scopes, stream, pos, acc) => pos <= |stream| && RunInv(w, s.db.events, scopes, stream, acc)
       case Recording(scopes, stream, acc, verdicts, written) => RunInv(w, s.db.events, scopes, stream, acc)
  }

  // ── Tables only grow ───────────────────────────────────────────────────────

  lemma CompleteMonotone(w: World, t: Table, t': Table, contract: Address, n: int)
    requires t.Keys <= t'.Keys && CompleteAt(w, t, contract, n)
    ensures CompleteAt(w, t', contract, n)
  {
    hide Flat, Wanted, KeyAt;
  }

  lemma ScopeInvMonotone(w: World, t: Table, t': Table, s: Scope, present: seq<Interval>, withheld: bool)
    requires t.Keys <= t'.Keys && ScopeInv(w, t, s, present, withheld)
    ensures ScopeInv(w, t', s, present, withheld)
  {
    hide CompleteAt, Separated, Within, InAny;
    if !withheld {
      forall n | InAny(present, n) ensures CompleteAt(w, t', s.contract, n) {
        CompleteMonotone(w, t, t', s.contract, n);
      }
    }
  }

  lemma CoverageMonotone(w: World, db: Tables, db': Tables)
    requires db.events.Keys <= db'.events.Keys && db'.coverage == db.coverage && SoundCoverage(w, db)
    ensures SoundCoverage(w, db')
  {
    hide CompleteAt;
    forall r | r in db'.coverage ensures SoundRange(w, db'.events, r) {
      assert SoundRange(w, db.events, r);
      forall n | r.from <= n <= r.to ensures CompleteAt(w, db'.events, r.contract, n) {
        CompleteMonotone(w, db.events, db'.events, r.contract, n);
      }
    }
  }

  lemma InsertSound(w: World, t: Table, rows: seq<Row>)
    requires SoundTable(w, t)
    requires forall i | 0 <= i < |rows| :: SoundRow(w, KeyOf(rows[i]), rows[i])
    ensures SoundTable(w, InsertRows(t, rows)) && t.Keys <= InsertRows(t, rows).Keys
  {
    hide SoundRow, InsertRows, KeyOf;
    var t' := InsertRows(t, rows);
    forall key | key in t ensures key in t' {
      FirstWriteWins(t, rows, key);
    }
    forall key | key in t' ensures SoundRow(w, key, t'[key]) {
      FirstWriteWins(t, rows, key);
      if key in t {
        assert SoundRow(w, key, t[key]);
      }
    }
  }

  lemma StoreSound(w: World, scopes: seq<Scope>, t: Table, item: Item, commit: Commit)
    requires HonestChain(w) && GoodScopes(w, scopes) && SoundTable(w, t)
    requires item.Block? ==> HonestFacts(w, item.facts)
    ensures var t' := StoreItem(w.env, scopes, t, item, commit); SoundTable(w, t') && t.Keys <= t'.Keys
  {
    hide Process, SoundRow, HonestBlock, HonestFacts, GoodScopes, KeyOf, ToRow, SoundTable, InsertRows;
    if item.Block? && !commit.RolledBack? {
      var f := item.facts;
      assert HonestBlock(w, f.blockNumber);
      var events := EventsOf(Process(w.env, scopes, f));
      var rows := ToRows(events);
      forall i | 0 <= i < |rows| ensures SoundRow(w, KeyOf(rows[i]), rows[i]) {
        ProcessSound(w, scopes, f, events[i]);
      }
      InsertSound(w, t, rows);
    }
  }

  /** A block that raised no failure and whose events were stored is complete for
      every scope that contains it. */
  lemma StoredBlockComplete(w: World, scopes: seq<Scope>, t: Table, f: Facts, commit: Commit, s: Scope)
    requires HonestChain(w) && HonestFacts(w, f)
    requires s in scopes && GoodScope(w, s) && ContainsBlock(s, f.blockNumber)
    requires !Process(w.env, scopes, f).VerifyFailed?
    requires EventsOf(Process(w.env, scopes, f)) == [] || commit.Applied?
    ensures CompleteAt(w, StoreItem(w.env, scopes, t, Block(f), commit), s.contract, f.blockNumber)
  {
    hide Process, Wanted, KeyOf, ToRow, KeyAt, Flat, InsertRows, HonestFacts, GoodScope;
    var n := f.blockNumber;
    assert HonestBlock(w, n);
    assert n < TWO63 by { assert s.to < TWO63 by { GoodScopeBound(w, s); } }
    var events := EventsOf(Process(w.env, scopes, f));
    var t' := StoreItem(w.env, scopes, t, Block(f), commit);
    forall k | 0 <= k < |Flat(w, n)| && Wanted(w.always(s.contract), s.contract, Flat(w, n)[k].log)
      ensures KeyAt(w, n, k) in t'
    {
      ProcessComplete(w, scopes, f, s, k);
      var e :| e in events && KeyOf(ToRow(e)) == KeyAt(w, n, k);
      var i :| 0 <= i < |events| && events[i] == e;
      InsertedKeys(t, ToRows(events), i);
    }
  }

  lemma GoodScopeBound(w: World, s: Scope)
    requires GoodScope(w, s)
    ensures s.to < TWO63
  {
  }

  // ── Steps keep the invariant ───────────────────────────────────────────────

  lemma PushScopeInv(w: World, t: Table, t': Table, s: Scope, present: seq<Interval>, n: U64, before: bool, after: bool)
    requires t.Keys <= t'.Keys && ScopeInv(w, t, s, present, before)
    requires s.to < TWO63 && (before ==> after)
    requires ContainsBlock(s, n) && !after ==> CompleteAt(w, t', s.contract, n)
    ensures ScopeInv(w, t', s, Pushed(s, present, n), after)
  {
    hide CompleteAt;
    ScopeInvMonotone(w, t, t', s, present, before);
    if ContainsBlock(s, n) {
      hide Separated, InAny;
      PushSeparated(present, n);
      var present' := PushBlock(present, n);
      assert Within(present', s.from, s.to);
      forall m | InAny(present', m) && !after ensures CompleteAt(w, t', s.contract, m) {
        PushAddsOnly(present, n, m);
      }
    }
  }

  lemma ReadKeepsScope(w: World, scopes: seq<Scope>, t: Table, acc: Acc, f: Facts, commit: Commit, i: nat)
    requires HonestChain(w) && HonestFacts(w, f) && Sized(scopes, acc) && GoodScopes(w, scopes)
    requires i < |scopes| && ScopeInv(w, t, scopes[i], acc.present[i], Withheld(acc, i).Some?)
    requires t.Keys <= StoreItem(w.env, scopes, t, Block(f), commit).Keys
    ensures var acc' := ReadItem(w.env, scopes, acc, Block(f), commit);
            var t' := StoreItem(w.env, scopes, t, Block(f), commit);
            ScopeInv(w, t', scopes[i], acc'.present[i], Withheld(acc', i).Some?)
  {
    hide Process, CompleteAt, ScopeInv, Pushed, HonestFacts, HonestChain, StoreItem;
    var s := scopes[i];
    assert GoodScope(w, s);
    var acc' := ReadItem(w.env, scopes, acc, Block(f), commit);
    var o := Process(w.env, scopes, f);
    if ContainsBlock(s, f.blockNumber) && Withheld(acc', i) == None {
      assert FailureOf(o) == None;
      StoredBlockComplete(w, scopes, t, f, commit, s);
    }
    PushScopeInv(w, t, StoreItem(w.env, scopes, t, Block(f), commit), s, acc.present[i], f.blockNumber,
                 Withheld(acc, i).Some?, Withheld(acc', i).Some?);
  }

  lemma ReadKeepsInv(w: World, s: Sys, commit: Commit)
    requires HonestChain(w) && Inv(w, s) && s.phase.Reading? && s.phase.pos < |s.phase.stream|
    ensures Inv(w, Step(w.env, s, Read(commit)))
  {
    hide ScopeInv, SoundTable, SoundCoverage, HonestFacts, GoodScopes, Process, HonestChain, StoreItem, Withheld,
         AfterBlock;
    var p := s.phase;
    var item := p.stream[p.pos];
    var t, t' := s.db.events, StoreItem(w.env, p.scopes, s.db.events, item, commit);
    StoreSound(w, p.scopes, t, item, commit);
    CoverageMonotone(w, s.db, s.db.(events := t'));
    var acc' := ReadItem(w.env, p.scopes, p.acc, item, commit);
    ReadKeepsSize(w.env, p.scopes, p.acc, item, commit);
    forall i | 0 <= i < |p.scopes| ensures ScopeInv(w, t', p.scopes[i], acc'.present[i], Withheld(acc', i).Some?) {
      match item
      case Block(f) =>
        ReadKeepsScope(w, p.scopes, t, p.acc, f, commit, i);
      case ReadError =>
        ReadErrorKeepsScope(w, t, p.scopes[i], p.acc, i);
        assert t' == t by { StoreNothing(w.env, p.scopes, t, commit); }
    }
  }

  lemma ReadKeepsSize(env: Env, scopes: seq<Scope>, acc: Acc, item: Item, commit: Commit)
    requires Sized(scopes, acc)
    ensures Sized(scopes, ReadItem(env, scopes, acc, item, commit))
  {
    hide Process;
  }

  lemma StoreNothing(env: Env, scopes: seq<Scope>, t: Table, commit: Commit)
    ensures StoreItem(env, scopes, t, ReadError, commit) == t
  {
  }

  lemma ReadErrorKeepsScope(w: World, t: Table, s: Scope, acc: Acc, i: nat)
    requires i < |acc.present| == |acc.ineligible| && ScopeInv(w, t, s, acc.present[i], Withheld(acc, i).Some?)
    ensures ScopeInv(w, t, s, acc.present[i], Withheld(acc.(sourceFailed := true), i).Some?)
  {
    hide CompleteAt, Separated, InAny;
  }

  lemma RecordKeepsInv(w: World, s: Sys, commit: Commit)
    requires Inv(w, s) && s.phase.Recording? && |s.phase.verdicts| < |s.phase.scopes|
    ensures Inv(w, Step(w.env, s, Record(commit)))
  {
    hide SoundTable, CompleteAt, GapsFrom, HonestStream, GapVerdict;
    var p := s.phase;
    var idx := |p.verdicts|;
    var sc, present := p.scopes[idx], p.acc.present[idx];
    assert ScopeInv(w, s.db.events, sc, present, Withheld(p.acc, idx).Some?);
    if Withheld(p.acc, idx) == None && p.written < |present| {
      var iv := present[p.written];
      assert GoodScope(w, sc);
      var r := CoveredRange(sc.contract, AsI64(iv.start), AsI64(iv.end));
      forall n | r.from <= n <= r.to ensures CompleteAt(w, s.db.events, r.contract, n) {
        assert In(present[p.written], n);
      }
      assert SoundRange(w, s.db.events, r);
    }
  }

  lemma StartKeepsInv(w: World, s: Sys, scopes: seq<Scope>, stream: seq<Item>)
    requires Inv(w, s) && GoodScopes(w, scopes) && HonestStream(w, stream)
    ensures Inv(w, Step(w.env, s, Start(scopes, stream)))
  {
    hide SoundTable, SoundCoverage, CompleteAt;
  }

  lemma StepKeepsInv(w: World, s: Sys, l: Label)
    requires HonestChain(w) && Inv(w, s) && WellSized(s)
    requires l.Start? ==> GoodScopes(w, l.scopes) && HonestStream(w, l.stream)
    ensures Inv(w, Step(w.env, s, l))
  {
    hide SoundTable, SoundRange, CompleteAt, RunInv, HonestChain, RecordStep, ReadItem, StoreItem;
    match l
    case Start(scopes, stream) => StartKeepsInv(w, s, scopes, stream);
    case Read(commit) =>
      if s.phase.Reading? && s.phase.pos < |s.phase.stream| {
        ReadKeepsInv(w, s, commit);
      }
    case Record(commit) =>
      if s.phase.Recording? && |s.phase.verdicts| < |s.phase.scopes| {
        RecordKeepsInv(w, s, commit);
      }
    case _ =>
  }

  /** The invariant holds at every state of every history. */
  lemma {:induction false} HistoryKeepsInv(w: World, labels: seq<Label>)
    requires HonestChain(w) && GoodHistory(w, labels)
    ensures Inv(w, Exec(w.env, Sys(Tables(map[], {}, {}), Idle), labels))
  {
    hide HonestChain, Step, Inv, GoodScopes, HonestStream;
    var init := Sys(Tables(map[], {}, {}), Idle);
    if labels == [] {
      InitInv(w);
    } else {
      var front := labels[..|labels| - 1];
      assert forall i | 0 <= i < |front| :: front[i] == labels[i];
      HistoryKeepsInv(w, front);
      StepKeepsInv(w, Exec(w.env, init, front), labels[|labels| - 1]);
    }
  }

  lemma InitInv(w: World)
    ensures Inv(w, Sys(Tables(map[], {}, {}), Idle))
  {
  }

  // ── Queries ────────────────────────────────────────────────────────────────

  /** What identifies a log, whatever run stored it. */
  datatype RawLog = RawLog(contract: Address, topic0: B256, block: int, txIndex: I64, logIndex: int,
                           topics: seq<B256>, data: Bytes)

  function Raw(row: Row): RawLog {
    RawLog(row.contract, row.topic0, row.blockNumber, row.txIndex, row.logIndex, row.topics, row.data)
  }

  function RawAll(rows: seq<Row>): seq<RawLog> {
    seq(|rows|, i requires 0 <= i < |rows| => Raw(rows[i]))
  }

  /** The chain's own log at a flat position. */
  function RawAt(w: World, n: U64, k: nat): RawLog
    requires k < |Flat(w, n)| && Flat(w, n)[k].log.topics != []
  {
    var flat := Flat(w, n)[k];
    RawLog(flat.log.address, flat.log.topics[0], n, AsI64(flat.txIndex % TWO64), k, flat.log.topics, flat.log.data)
  }

  /** The wanted logs among the first `k` of a block, in order. */
  function BlockAnswer(w: World, topics: set<B256>, contract: Address, n: U64, k: nat): seq<RawLog>
    requires k <= |Flat(w, n)|
  {
    if k == 0 then []
    else
      BlockAnswer(w, topics, contract, n, k - 1)
      + if Wanted(topics, contract, Flat(w, n)[k - 1].log) then [RawAt(w, n, k - 1)] else []
  }

  /** The wanted logs of a block range, in block and log order, read off the chain. */
  function ChainAnswer(w: World, topics: set<B256>, contract: Address, from: U64, to: int): seq<RawLog>
    requires to < TWO64
    decreases (to - from)
  {
    if to < from then []
    else ChainAnswer(w, topics, contract, from, to - 1) + BlockAnswer(w, topics, contract, to, |Flat(w, to)|)
  }

  ghost predicate OnChain(w: World, topics: set<B256>, contract: Address, n: U64, k: nat, raw: RawLog) {
    k < |Flat(w, n)| && Wanted(topics, contract, Flat(w, n)[k].log) && raw == RawAt(w, n, k)
  }

  lemma {:induction false} BlockAnswerMembers(w: World, topics: set<B256>, contract: Address, n: U64, k: nat,
                                              raw: RawLog)
    requires k <= |Flat(w, n)|
    ensures raw in BlockAnswer(w, topics, contract, n, k) <==>
            exists j :: 0 <= j < k && OnChain(w, topics, contract, n, j, raw)
  {
    hide Flat, RawAt;
    if k > 0 {
      BlockAnswerMembers(w, topics, contract, n, k - 1, raw);
      assert OnChain(w, topics, contract, n, k - 1, raw) <==>
             Wanted(topics, contract, Flat(w, n)[k - 1].log) && raw == RawAt(w, n, k - 1);
    }
  }

  lemma {:induction false} ChainAnswerMembers(w: World, topics: set<B256>, contract: Address, from: U64, to: int,
                                              raw: RawLog)
    requires to < TWO64
    ensures raw in ChainAnswer(w, topics, contract, from, to) <==>
            exists n: U64, k: nat :: from <= n <= to && OnChain(w, topics, contract, n, k, raw)
    decreases (to - from)
  {
    hide Flat, RawAt, Wanted, BlockAnswer;
    if from <= to {
      ChainAnswerMembers(w, topics, contract, from, to - 1, raw);
      BlockAnswerMembers(w, topics, contract, to, |Flat(w, to)|, raw);
      if n: U64, k: nat :| from <= n <= to && OnChain(w, topics, contract, n, k, raw) {
        if n == to {
          assert 0 <= k < |Flat(w, to)|;
        }
      }
    }
  }

  predicate RawBefore(a: RawLog, b: RawLog) {
    a.block < b.block || (a.block == b.block && a.logIndex < b.logIndex)
  }

  lemma {:induction false} BlockAnswerStrict(w: World, topics: set<B256>, contract: Address, n: U64, k: nat)
    requires k <= |Flat(w, n)|
    ensures Strict(RawBefore, BlockAnswer(w, topics, contract, n, k))
    ensures forall raw | raw in BlockAnswer(w, topics, contract, n, k) :: raw.block == n && 0 <= raw.logIndex < k
  {
    hide Flat, Wanted;
    if k > 0 {
      BlockAnswerStrict(w, topics, contract, n, k - 1);
    }
  }

  lemma {:induction false} ChainAnswerStrict(w: World, topics: set<B256>, contract: Address, from: U64, to: int)
    requires to < TWO64
    ensures Strict(RawBefore, ChainAnswer(w, topics, contract, from, to))
    ensures forall raw | raw in ChainAnswer(w, topics, contract, from, to) :: raw.block <= to
    decreases (to - from)
  {
    hide Flat, BlockAnswer;
    if from <= to {
      ChainAnswerStrict(w, topics, contract, from, to - 1);
      BlockAnswerStrict(w, topics, contract, to, |Flat(w, to)|);
    }
  }

  lemma SoundTableUnique(w: World, t: Table)
    requires SoundTable(w, t)
    ensures UniqueLogIndex(t) && Keyed(t)
  {
    hide Flat, Wanted;
    forall k1, k2 | k1 in t && k2 in t && k1.block == k2.block && k1.log == k2.log ensures k1 == k2 {
      assert SoundRow(w, k1, t[k1]) && SoundRow(w, k2, t[k2]);
    }
    forall key | key in t ensures KeyOf(t[key]) == key {
      assert SoundRow(w, key, t[key]);
    }
  }

  // ── Event names ────────────────────────────────────────────────────────────

  /** The contract's events carry the names that belong to their topics: what a run
      stores under a topic does not depend on the run. */
  ghost predicate NamedScope(w: World, contract: Address, s: Scope) {
    s.decoder.contract == contract ==> forall t | t in s.decoder.events :: s.decoder.events[t].name == w.names(t)
  }

  ghost predicate NamedScopes(w: World, contract: Address, scopes: seq<Scope>) {
    forall s | s in scopes :: NamedScope(w, contract, s)
  }

  ghost predicate NamedHistory(w: World, contract: Address, labels: seq<Label>) {
    forall l | l in labels && l.Start? :: NamedScopes(w, contract, l.scopes)
  }

  ghost predicate NamedTable(w: World, contract: Address, t: Table) {
    forall key | key in t && t[key].contract == contract :: t[key].eventName == w.names(t[key].topic0)
  }

  ghost predicate NamesInv(w: World, contract: Address, s: Sys) {
    && NamedTable(w, contract, s.db.events)
    && (s.phase.Reading? ==> NamedScopes(w, contract, s.phase.scopes))
  }

  lemma EventNamed(w: World, contract: Address, scopes: seq<Scope>, f: Facts, e: DecodedEvent)
    requires NamedScopes(w, contract, scopes) && e in EventsOf(Process(w.env, scopes, f))
    ensures e.contract == contract ==> e.eventName == w.names(e.topic0)
  {
    hide Process, Verifies, ContainsBlock, FlatLogs;
    EventOrigin(w.env, scopes, f, e);
    var s :| s in scopes && ContainsBlock(s, f.blockNumber) && e in Decode(w.env, s, f);
    ExtractSound(w.env.fields, s.decoder, Context(f), FlatLogs(f.receipts), e);
    assert NamedScope(w, contract, s);
  }

  lemma InsertNamed(w: World, contract: Address, t: Table, rows: seq<Row>)
    requires NamedTable(w, contract, t)
    requires forall i | 0 <= i < |rows| && rows[i].contract == contract :: rows[i].eventName == w.names(rows[i].topic0)
    ensures NamedTable(w, contract, InsertRows(t, rows))
  {
    hide InsertRows, KeyOf;
    var t' := InsertRows(t, rows);
    forall key | key in t' && t'[key].contract == contract ensures t'[key].eventName == w.names(t'[key].topic0) {
      FirstWriteWins(t, rows, key);
    }
  }

  lemma StepKeepsNames(w: World, contract: Address, s: Sys, l: Label)
    requires WellSized(s) && NamesInv(w, contract, s)
    requires l.Start? ==> NamedScopes(w, contract, l.scopes)
    ensures NamesInv(w, contract, Step(w.env, s, l))
  {
    hide Process, ReadItem, RecordStep, InsertRows, NamedTable, NamedScopes, InitialAcc;
    if l.Read? && s.phase.Reading? && s.phase.pos < |s.phase.stream| && s.phase.stream[s.phase.pos].Block? {
      var scopes, f := s.phase.scopes, s.phase.stream[s.phase.pos].facts;
      var events := EventsOf(Process(w.env, scopes, f));
      forall i | 0 <= i < |events|
        ensures events[i].contract == contract ==> events[i].eventName == w.names(events[i].topic0)
      {
        EventNamed(w, contract, scopes, f, events[i]);
      }
      InsertNamed(w, contract, s.db.events, ToRows(events));
    } else if l.Record? {
      RecordKeepsEvents(w.env, s, l.commit);
    }
  }

  lemma RecordKeepsEvents(env: Env, s: Sys, commit: Commit)
    requires WellSized(s)
    ensures Step(env, s, Record(commit)).db.events == s.db.events
    ensures Step(env, s, Record(commit)).phase.Reading? ==> Step(env, s, Record(commit)).phase == s.phase
  {
    hide GapVerdict;
  }

  lemma {:induction false} HistoryKeepsNames(w: World, contract: Address, labels: seq<Label>)
    requires NamedHistory(w, contract, labels)
    ensures NamesInv(w, contract, Exec(w.env, Sys(Tables(map[], {}, {}), Idle), labels))
  {
    hide Step, NamedScopes;
    if labels != [] {
      hide NamesInv;
      var front, last := labels[..|labels| - 1], labels[|labels| - 1];
      assert labels == front + [last];
      HistoryKeepsNames(w, contract, front);
      StepKeepsNames(w, contract, Exec(w.env, Sys(Tables(map[], {}, {}), Idle), front), last);
    }
  }

  // ── What a query asks for ──────────────────────────────────────────────────

  /** The topics a query asks for, among those given. */
  function Asked(names: B256 -> string, topics: set<B256>, q: EventQuery): set<B256> {
    set t | t in topics && (q.topic0.Some? ==> t == q.topic0.value)
            && (q.eventName.Some? ==> names(t) == q.eventName.value)
  }

  /** A query for a contract and a block range, neither capped nor paginated. */
  predicate PlainRange(q: EventQuery) {
    && q.contract.Some? && q.fromBlock.Some? && q.toBlock.Some? && q.toBlock.value < TWO63
    && q.limit == 0 && q.offset == 0
  }

  function AlwaysAsked(w: World, q: EventQuery): set<B256>
    requires PlainRange(q)
  {
    Asked(w.names, w.always(q.contract.value), q)
  }

  function EverAsked(w: World, q: EventQuery): set<B256>
    requires PlainRange(q)
  {
    Asked(w.names, w.ever(q.contract.value), q)
  }

  /** The chain's answer to the query, for given topics. */
  function AnswerFor(w: World, topics: set<B256>, q: EventQuery): seq<RawLog>
    requires PlainRange(q)
  {
    ChainAnswer(w, topics, q.contract.value, q.fromBlock.value, q.toBlock.value)
  }

  /** A query by event name needs names that belong to their topics. */
  ghost predicate NamesFit(w: World, labels: seq<Label>, q: EventQuery)
    requires PlainRange(q)
  {
    q.eventName.Some? ==> NamedHistory(w, q.contract.value, labels)
  }

  /** What a table must be for the query to be answered from the chain. */
  ghost predicate Queryable(w: World, t: Table, q: EventQuery)
    requires PlainRange(q)
  {
    && SoundTable(w, t) && q.fromBlock.value < TWO63
    && (q.eventName.Some? ==> NamedTable(w, q.contract.value, t))
  }

  ghost predicate CompleteFor(w: World, t: Table, q: EventQuery)
    requires PlainRange(q)
  {
    forall n | q.fromBlock.value <= n <= q.toBlock.value :: CompleteAt(w, t, q.contract.value, n)
  }

  /** Every row of an answer is a log some run was configured for. */
  lemma RowOnChain(w: World, t: Table, q: EventQuery, row: Row)
    requires PlainRange(q) && Queryable(w, t, q)
    requires KeyOf(row) in t && t[KeyOf(row)] == row && Selected(q, row)
    ensures 0 <= row.blockNumber && 0 <= row.logIndex
    ensures q.fromBlock.value <= row.blockNumber <= q.toBlock.value
    ensures OnChain(w, EverAsked(w, q), q.contract.value, row.blockNumber, row.logIndex, Raw(row))
  {
    hide Flat;
    assert SoundRow(w, KeyOf(row), t[KeyOf(row)]);
  }

  /** Every log all runs were configured for, in a complete block, is in the answer. */
  lemma ChainLogSelected(w: World, t: Table, q: EventQuery, rows: seq<Row>, n: U64, k: nat, raw: RawLog)
    requires PlainRange(q) && Queryable(w, t, q) && IsSelect(t, q, rows)
    requires q.fromBlock.value <= n <= q.toBlock.value && CompleteAt(w, t, q.contract.value, n)
    requires OnChain(w, AlwaysAsked(w, q), q.contract.value, n, k, raw)
    ensures exists i :: 0 <= i < |rows| && Raw(rows[i]) == raw
  {
    hide Flat;
    var key := KeyAt(w, n, k);
    assert key in t;
    assert SoundRow(w, key, t[key]);
    assert t[key] in rows;
    var i :| 0 <= i < |rows| && rows[i] == t[key];
    assert Raw(rows[i]) == raw;
  }

  lemma AnsweredRange(w: World, db: Tables, contract: Address, from: U64, to: U64)
    requires SoundCoverage(w, db) && to < TWO63 && IsRangeCovered(db.coverage, contract, from, to)
    ensures from < TWO63
    ensures forall n | from <= n <= to :: CompleteAt(w, db.events, contract, n)
  {
    hide CompleteAt;
    var r :| r in db.coverage && r.contract == contract && RangeAnswers(r, from, to);
    assert SoundRange(w, db.events, r);
    RangeAnswersIff(contract, r.from, r.to, from, to);
  }

  /** Uncapped and unpaginated, the answer is the whole SELECT. */
  lemma WholeSelect(q: EventQuery, rows: seq<Row>)
    requires q.limit == 0 && q.offset == 0 && |rows| < TWO63
    ensures Limited(q, rows) == if rows == [] then Empty else Results(rows)
  {
    assert rows[0..] == rows;
  }

  predicate Answers(o: Outcome) {
    o.Results? || o.Empty?
  }

  lemma SelectComplete(w: World, t: Table, q: EventQuery, rows: seq<Row>, raw: RawLog)
    requires PlainRange(q) && Queryable(w, t, q) && IsSelect(t, q, rows) && CompleteFor(w, t, q)
    requires raw in AnswerFor(w, AlwaysAsked(w, q), q)
    ensures raw in RawAll(rows)
  {
    hide Queryable, CompleteAt, OnChain, ChainAnswer, IsSelect, AlwaysAsked, Raw;
    var c, from, to, topics := q.contract.value, q.fromBlock.value, q.toBlock.value, AlwaysAsked(w, q);
    ChainAnswerMembers(w, topics, c, from, to, raw);
    var n: U64, k: nat :| from <= n <= to && OnChain(w, topics, c, n, k, raw);
    ChainLogSelected(w, t, q, rows, n, k, raw);
    var i :| 0 <= i < |rows| && Raw(rows[i]) == raw;
    assert RawAll(rows)[i] == raw;
  }

  lemma SelectSound(w: World, t: Table, q: EventQuery, rows: seq<Row>, raw: RawLog)
    requires PlainRange(q) && Queryable(w, t, q) && IsSelect(t, q, rows)
    requires raw in RawAll(rows)
    ensures raw in AnswerFor(w, EverAsked(w, q), q)
  {
    hide Queryable, OnChain, ChainAnswer, IsSelect, EverAsked, Raw;
    var c, from, to, topics := q.contract.value, q.fromBlock.value, q.toBlock.value, EverAsked(w, q);
    var i :| 0 <= i < |rows| && RawAll(rows)[i] == raw;
    SelectedRow(t, q, rows, i);
    RowOnChain(w, t, q, rows[i]);
    ChainAnswerMembers(w, topics, c, from, to, raw);
    assert OnChain(w, topics, c, rows[i].blockNumber, rows[i].logIndex, raw);
  }

  lemma SelectedRow(t: Table, q: EventQuery, rows: seq<Row>, i: nat)
    requires IsSelect(t, q, rows) && i < |rows|
    ensures KeyOf(rows[i]) in t && t[KeyOf(rows[i])] == rows[i] && Selected(q, rows[i])
  {
    assert rows[i] in rows;
  }

  /** A SELECT over a complete range is the chain's answer, in block and log order,
      when the topics asked for among `always` and among `ever` are the same. */
  lemma SelectIsChain(w: World, t: Table, q: EventQuery, rows: seq<Row>)
    requires PlainRange(q) && Queryable(w, t, q) && IsSelect(t, q, rows) && CompleteFor(w, t, q)
    requires AlwaysAsked(w, q) == EverAsked(w, q)
    ensures RawAll(rows) == AnswerFor(w, EverAsked(w, q), q)
  {
    hide CompleteFor, SoundTable, ChainAnswer, IsSelect, AlwaysAsked, EverAsked;
    var expected := AnswerFor(w, EverAsked(w, q), q);
    ChainAnswerStrict(w, EverAsked(w, q), q.contract.value, q.fromBlock.value, q.toBlock.value);
    SoundTableUnique(w, t);
    SelectStrict(t, q, rows);
    RawKeepsOrder(rows);
    forall raw ensures raw in RawAll(rows) <==> raw in expected {
      if raw in expected {
        SelectComplete(w, t, q, rows, raw);
      }
      if raw in RawAll(rows) {
        SelectSound(w, t, q, rows, raw);
      }
    }
    StrictUnique(RawBefore, RawAll(rows), expected);
  }

  lemma RawKeepsOrder(rows: seq<Row>)
    requires Strict(Before, rows)
    ensures Strict(RawBefore, RawAll(rows))
  {
  }

  // ── Queries over histories ─────────────────────────────────────────────────

  lemma HistoryQueryable(w: World, labels: seq<Label>, q: EventQuery)
    requires HonestChain(w) && GoodHistory(w, labels) && PlainRange(q) && NamesFit(w, labels, q)
    requires q.fromBlock.value < TWO63
    ensures var db := Exec(w.env, Sys(Tables(map[], {}, {}), Idle), labels).db;
            Queryable(w, db.events, q) && SoundCoverage(w, db)
  {
    hide Exec, HonestChain, GoodHistory, SoundTable, SoundCoverage, NamedTable, NamedHistory;
    HistoryKeepsInv(w, labels);
    if q.eventName.Some? {
      HistoryKeepsNames(w, q.contract.value, labels);
    }
  }

  /** Safety for any event sets: at every state of every history, a range query
      that is answered returns every log all runs were configured for, and
      nothing but logs some run was configured for. */
  lemma AnswersAreBounded(w: World, labels: seq<Label>, q: EventQuery, rows: seq<Row>, raw: RawLog)
    requires HonestChain(w) && GoodHistory(w, labels) && PlainRange(q) && |rows| < TWO63
    requires NamesFit(w, labels, q)
    requires var db := Exec(w.env, Sys(Tables(map[], {}, {}), Idle), labels).db;
             IsSelect(db.events, q, rows) && Answers(QueryEvents(db, q, rows))
    ensures var db := Exec(w.env, Sys(Tables(map[], {}, {}), Idle), labels).db;
            var answer := RawAll(RowsOf(QueryEvents(db, q, rows)));
            && (raw in AnswerFor(w, AlwaysAsked(w, q), q) ==> raw in answer)
            && (raw in answer ==> raw in AnswerFor(w, EverAsked(w, q), q))
  {
    hide Exec, HonestChain, GoodHistory, Queryable, SoundCoverage, CompleteAt, ChainAnswer, IsSelect, RawAll,
         IsRangeCovered, Limited, AlwaysAsked, EverAsked, NamesFit, Inv;
    var s := Exec(w.env, Sys(Tables(map[], {}, {}), Idle), labels);
    HistoryCovers(w, labels);
    AnsweredRange(w, s.db, q.contract.value, q.fromBlock.value, q.toBlock.value);
    HistoryQueryable(w, labels, q);
    WholeSelect(q, rows);
    if raw in AnswerFor(w, AlwaysAsked(w, q), q) {
      SelectComplete(w, s.db.events, q, rows, raw);
    }
    if raw in RawAll(rows) {
      SelectSound(w, s.db.events, q, rows, raw);
    }
  }

  lemma HistoryCovers(w: World, labels: seq<Label>)
    requires HonestChain(w) && GoodHistory(w, labels)
    ensures SoundCoverage(w, Exec(w.env, Sys(Tables(map[], {}, {}), Idle), labels).db)
  {
    hide Exec, HonestChain, GoodHistory, SoundTable, SoundCoverage;
    HistoryKeepsInv(w, labels);
  }

  /** A SELECT at a state whose coverage holds the range is the chain's answer. */
  lemma CoveredSelect(w: World, labels: seq<Label>, q: EventQuery, rows: seq<Row>)
    requires HonestChain(w) && GoodHistory(w, labels) && PlainRange(q)
    requires NamesFit(w, labels, q) && AlwaysAsked(w, q) == EverAsked(w, q)
    requires var db := Exec(w.env, Sys(Tables(map[], {}, {}), Idle), labels).db;
             && IsSelect(db.events, q, rows)
             && IsRangeCovered(db.coverage, q.contract.value, q.fromBlock.value, q.toBlock.value)
    ensures RawAll(rows) == AnswerFor(w, EverAsked(w, q), q)
  {
    hide Exec, HonestChain, GoodHistory, Queryable, SoundCoverage, CompleteAt, AnswerFor, IsSelect, RawAll,
         IsRangeCovered, AlwaysAsked, EverAsked, NamesFit;
    var db := Exec(w.env, Sys(Tables(map[], {}, {}), Idle), labels).db;
    HistoryCovers(w, labels);
    AnsweredRange(w, db, q.contract.value, q.fromBlock.value, q.toBlock.value);
    HistoryQueryable(w, labels, q);
    SelectIsChain(w, db.events, q, rows);
  }

  /** The promise of coverage: when all runs agree on which of the topics asked for
      they decode, a range query that is answered at any state of any history,
      mid-run and after crashes included, returns exactly the chain's matching logs
      of the range, each once, in block and log order; otherwise it refuses. */
  lemma CoveredAnswersAreExact(w: World, labels: seq<Label>, q: EventQuery, rows: seq<Row>)
    requires HonestChain(w) && GoodHistory(w, labels) && PlainRange(q) && |rows| < TWO63
    requires NamesFit(w, labels, q) && AlwaysAsked(w, q) == EverAsked(w, q)
    requires IsSelect(Exec(w.env, Sys(Tables(map[], {}, {}), Idle), labels).db.events, q, rows)
    ensures var o := QueryEvents(Exec(w.env, Sys(Tables(map[], {}, {}), Idle), labels).db, q, rows);
            || o == NotIndexed
            || o == MissingCoverage(q.contract.value, q.fromBlock.value, q.toBlock.value)
            || (Answers(o) && RawAll(RowsOf(o)) == AnswerFor(w, EverAsked(w, q), q))
  {
    hide Exec, HonestChain, GoodHistory, AnswerFor, IsSelect, RawAll, IsRangeCovered, AlwaysAsked, EverAsked, NamesFit;
    hide Limited;
    var db := Exec(w.env, Sys(Tables(map[], {}, {}), Idle), labels).db;
    WholeSelect(q, rows);
    if IsRangeCovered(db.coverage, q.contract.value, q.fromBlock.value, q.toBlock.value) {
      CoveredSelect(w, labels, q, rows);
    }
  }

  // ── Limits and offsets ─────────────────────────────────────────────────────

  /** The query without its limit and offset. */
  function Whole(q: EventQuery): EventQuery {
    q.(limit := 0, offset := 0)
  }

  lemma SelectIgnoresLimit(t: Table, q: EventQuery, rows: seq<Row>)
    ensures IsSelect(t, q, rows) <==> IsSelect(t, Whole(q), rows)
  {
    assert forall row :: Selected(q, row) == Selected(Whole(q), row);
  }

  lemma RawWindow(rows: seq<Row>, limit: U64, offset: U64)
    ensures RawAll(Window(rows, limit, offset)) == Window(RawAll(rows), limit, offset)
    ensures Left(RawAll(rows), offset) == Left(rows, offset)
  {
  }

  /** What a range query with any limit and offset answers at any state of a history:
      refused for the two stated reasons, and otherwise the window of the chain's
      answer. With the limit 10000 an answer that is cut short says so: it is `Capped`
      exactly when more than 10000 logs were left, and carries the first 10000 of them;
      with any other limit nothing is ever `Capped`. */
  lemma EveryLimitIsExact(w: World, labels: seq<Label>, q: EventQuery, rows: seq<Row>)
    requires HonestChain(w) && GoodHistory(w, labels) && PlainRange(Whole(q)) && |rows| < TWO63
    requires NamesFit(w, labels, Whole(q)) && AlwaysAsked(w, Whole(q)) == EverAsked(w, Whole(q))
    requires IsSelect(Exec(w.env, Sys(Tables(map[], {}, {}), Idle), labels).db.events, q, rows)
    ensures var db := Exec(w.env, Sys(Tables(map[], {}, {}), Idle), labels).db;
            var c, from, to := q.contract.value, q.fromBlock.value, q.toBlock.value;
            var expected := AnswerFor(w, EverAsked(w, Whole(q)), Whole(q));
            var window := Window(expected, q.limit, q.offset);
            match QueryEvents(db, q, rows)
            case NotIndexed => c !in db.contracts
            case MissingCoverage(_, _, _) => c in db.contracts && !IsRangeCovered(db.coverage, c, from, to)
            case Capped(first, cap) =>
              q.limit == 10_000 && Left(expected, q.offset) > 10_000 && RawAll(first) == window && cap == 10_000
            case Results(all) =>
              RawAll(all) == window && window != [] && !(q.limit == 10_000 && Left(expected, q.offset) > 10_000)
            case Empty => window == []
  {
    hide Exec, HonestChain, GoodHistory, AnswerFor, IsSelect, RawAll, AlwaysAsked, EverAsked, NamesFit, IsRangeCovered;
    hide Limited, Window, Left, QueryEvents;
    var db := Exec(w.env, Sys(Tables(map[], {}, {}), Idle), labels).db;
    SelectIgnoresLimit(db.events, q, rows);
    RefusedIff(db, q, rows);
    AnsweredWindow(db, q, rows);
    RawWindow(rows, q.limit, q.offset);
    RawEmpty(Window(rows, q.limit, q.offset));
    if IsRangeCovered(db.coverage, q.contract.value, q.fromBlock.value, q.toBlock.value) {
      CoveredSelect(w, labels, Whole(q), rows);
    }
  }

  lemma RawEmpty(rows: seq<Row>)
    ensures RawAll(rows) == [] <==> rows == []
  {
  }

  // ── A changed event set ────────────────────────────────────────────────────

  /** A run over one block, for one scope, with every write applied. */
  function OneBlockRun(s: Scope, f: Facts): seq<Label> {
    [SaveAbi(s.contract), Start([s], [Block(f)]), Read(Applied), EndOfStream, Record(Applied), Record(Applied)]
  }

  lemma ExecSix(env: Env, s0: Sys, l0: Label, l1: Label, l2: Label, l3: Label, l4: Label, l5: Label)
    requires WellSized(s0)
    ensures Exec(env, s0, [l0, l1, l2, l3, l4, l5]) ==
            Step(env, Step(env, Step(env, Step(env, Step(env, Step(env, s0, l0), l1), l2), l3), l4), l5)
  {
    hide Exec, Step;
    ExecNone(env, s0);
    ExecNext(env, s0, [], l0);
    ExecNext(env, s0, [l0], l1);
    ExecNext(env, s0, [l0, l1], l2);
    ExecNext(env, s0, [l0, l1, l2], l3);
    ExecNext(env, s0, [l0, l1, l2, l3], l4);
    ExecNext(env, s0, [l0, l1, l2, l3, l4], l5);
    assert [] + [l0] == [l0] && [l0] + [l1] == [l0, l1] && [l0, l1] + [l2] == [l0, l1, l2];
    assert [l0, l1, l2] + [l3] == [l0, l1, l2, l3] && [l0, l1, l2, l3] + [l4] == [l0, l1, l2, l3, l4];
    assert [l0, l1, l2, l3, l4] + [l5] == [l0, l1, l2, l3, l4, l5];
  }

  lemma QuietBlock(env: Env, s: Scope, f: Facts)
    requires ContainsBlock(s, f.blockNumber) && !Blooms.Matches(env.keccak, s.scanner, f.header.bloom)
    ensures Process(env, [s], f) == NoBloomMatch
  {
    hide Blooms.Matches, Verifies, DecodeAll;
    assert [s][..0] == [];
    assert InRange([s], f.blockNumber) == [] + [s] == [s];
    assert BloomHits(env.keccak, [s], f.header.bloom) == [] + [] == [];
  }

  lemma ReadQuietBlock(env: Env, s: Scope, f: Facts)
    requires s.from == s.to == f.blockNumber && Process(env, [s], f) == NoBloomMatch
    ensures ReadItem(env, [s], InitialAcc(1), Block(f), Applied)
            == Acc([[Interval(s.from, s.from)]], [None], false, false, 0)
    ensures StoreItem(env, [s], map[], Block(f), Applied) == map[]
  {
    hide Process;
    NoRows(map[]);
    var n, initial := f.blockNumber, InitialAcc(1);
    var acc := AfterBlock([s], initial, n, None);
    assert Pushed(s, initial.present[0], n) == [Interval(n, n)];
    assert acc.present == [[Interval(n, n)]];
    assert acc.ineligible == [None];
    assert ReadItem(env, [s], initial, Block(f), Applied) == AfterStore(acc, [], Applied);
  }

  lemma OneBlockRunRecords(env: Env, s: Scope, f: Facts)
    requires s.from == s.to == f.blockNumber < TWO63
    requires !Blooms.Matches(env.keccak, s.scanner, f.header.bloom)
    ensures Exec(env, Sys(Tables(map[], {}, {}), Idle), OneBlockRun(s, f)).db
            == Tables(map[], {CoveredRange(s.contract, s.from, s.to)}, {s.contract})
  {
    hide Exec, Blooms.Matches, Process, GapVerdict;
    var init := Sys(Tables(map[], {}, {}), Idle);
    ExecSix(env, init, SaveAbi(s.contract), Start([s], [Block(f)]), Read(Applied), EndOfStream,
            Record(Applied), Record(Applied));
    QuietBlock(env, s, f);
    ReadQuietBlock(env, s, f);
    hide ReadItem, StoreItem, InitialAcc;
    var acc := Acc([[Interval(s.from, s.from)]], [None], false, false, 0);
    var db := Tables(map[], {}, {s.contract});
    var reading := Step(env, Step(env, init, SaveAbi(s.contract)), Start([s], [Block(f)]));
    assert reading == Sys(db, Reading([s], [Block(f)], 0, InitialAcc(1)));
    assert Step(env, reading, Read(Applied)) == Sys(db, Reading([s], [Block(f)], 1, acc));
    RecordQuietScope(env, s, f, db, acc);
  }

  lemma RecordQuietScope(env: Env, s: Scope, f: Facts, db: Tables, acc: Acc)
    requires s.from == s.to < TWO63 && db.coverage == {}
    requires acc == Acc([[Interval(s.from, s.from)]], [None], false, false, 0)
    ensures var start := Sys(db, Reading([s], [Block(f)], 1, acc));
            Step(env, Step(env, Step(env, start, EndOfStream), Record(Applied)), Record(Applied)).db
            == db.(coverage := {CoveredRange(s.contract, s.from, s.to)})
  {
    hide GapVerdict;
  }

  /** An answer speaks of the topics the runs looked for. After a run whose scope does
      not look for a topic, a query for that topic over the covered block is answered
      `Empty`, also when the chain has such a log. */
  lemma UnconfiguredTopicLooksEmpty(w: World, s: Scope, f: Facts, k: nat, q: EventQuery)
    requires HonestFacts(w, f) && s.from == s.to == f.blockNumber < TWO63
    requires !Blooms.Matches(w.env.keccak, s.scanner, f.header.bloom)
    requires k < |Flat(w, f.blockNumber)| && Flat(w, f.blockNumber)[k].log.address == s.contract
    requires Flat(w, f.blockNumber)[k].log.topics != []
    requires PlainRange(q) && q.contract.value == s.contract
    requires q.fromBlock.value == q.toBlock.value == f.blockNumber
    requires q.topic0 == Some(Flat(w, f.blockNumber)[k].log.topics[0])
    ensures var db := Exec(w.env, Sys(Tables(map[], {}, {}), Idle), OneBlockRun(s, f)).db;
            && IsSelect(db.events, q, []) && QueryEvents(db, q, []) == Empty
            && RawAt(w, f.blockNumber, k)
               in ChainAnswer(w, {q.topic0.value}, s.contract, f.blockNumber, f.blockNumber)
  {
    hide Exec, Blooms.Matches, ChainAnswer, Flat, HonestFacts;
    OneBlockRunRecords(w.env, s, f);
    var db := Exec(w.env, Sys(Tables(map[], {}, {}), Idle), OneBlockRun(s, f)).db;
    var r := CoveredRange(s.contract, s.from, s.to);
    assert r in db.coverage && RangeAnswers(r, f.blockNumber, f.blockNumber);
    WholeSelect(q, []);
    var raw := RawAt(w, f.blockNumber, k);
    assert OnChain(w, {q.topic0.value}, s.contract, f.blockNumber, k, raw);
    ChainAnswerMembers(w, {q.topic0.value}, s.contract, f.blockNumber, f.blockNumber, raw);
  }
}
