/** What earns coverage and keeps it exact: honest archives, successful writes, and
    scopes whose events come from one saved resolution. */
module Earned {
  import opened Types
  import opened Abi
  import opened AbiResolution
  import opened History
  import opened Pipeline
  import opened Promise
  import opened Reports
  import opened Runs
  import opened Storage
  import opened Sync
  import Source

  // ── An honest archive fails no block ───────────────────────────────────────

  /** Every log the scope looks for decodes under its event's definition. */
  ghost predicate FieldsDecode(env: Env, s: Scope, flat: seq<FlatLog>) {
    forall k | 0 <= k < |flat| && IsMatch(s.decoder, flat[k].log) :: LogDecodes(env, s.decoder, flat[k].log)
  }

  predicate LogDecodes(env: Env, d: Decoder, log: Log)
    requires IsMatch(d, log)
  {
    env.fields(d.events[log.topics[0]], log.topics, log.data)
  }

  /** Every log of the block decodes for every scope that contains the block. */
  ghost predicate BlockDecodes(env: Env, scopes: seq<Scope>, n: U64, flat: seq<FlatLog>) {
    forall s | s in scopes && ContainsBlock(s, n) :: FieldsDecode(env, s, flat)
  }

  /** A scope's events of a block all decode exactly when its logs do. */
  lemma ScopeDecodesIff(env: Env, s: Scope, f: Facts)
    ensures (forall e | e in Decode(env, s, f) :: !e.decodeFailed) <==> FieldsDecode(env, s, FlatLogs(f.receipts))
  {
    hide FlatLogs, Extract, IsMatch;
    var flat := FlatLogs(f.receipts);
    forall e | e in Decode(env, s, f)
      ensures exists k :: 0 <= k < |flat| && IsMatch(s.decoder, flat[k].log)
                          && e.decodeFailed == !LogDecodes(env, s.decoder, flat[k].log)
    {
      ExtractSound(env.fields, s.decoder, Context(f), flat, e);
      var k :| 0 <= k < |flat| && IsMatch(s.decoder, flat[k].log)
               && e == EventAt(env.fields, s.decoder, Context(f), flat[k], k);
      assert e.decodeFailed == !LogDecodes(env, s.decoder, flat[k].log);
    }
    forall k | 0 <= k < |flat| && IsMatch(s.decoder, flat[k].log)
      ensures exists e :: e in Decode(env, s, f) && e.decodeFailed == !LogDecodes(env, s.decoder, flat[k].log)
    {
      ExtractComplete(env.fields, s.decoder, Context(f), flat, k);
      var e := EventAt(env.fields, s.decoder, Context(f), flat[k], k);
      assert e in Decode(env, s, f);
    }
  }

  lemma AnyErrorIff(env: Env, scopes: seq<Scope>, f: Facts)
    ensures AnyDecodeError(DecodeAll(env, InRange(scopes, f.blockNumber), f))
            <==> !BlockDecodes(env, scopes, f.blockNumber, FlatLogs(f.receipts))
  {
    hide Decode, DecodeAll, InRange, FieldsDecode, ContainsBlock;
    var inRange := InRange(scopes, f.blockNumber);
    var events := DecodeAll(env, inRange, f);
    forall s ensures s in inRange <==> s in scopes && ContainsBlock(s, f.blockNumber) {
      InRangeMembers(scopes, f.blockNumber, s);
    }
    forall e ensures e in events <==> exists s :: s in inRange && e in Decode(env, s, f) {
      DecodeAllMembers(env, inRange, f, e);
    }
    forall s ensures (forall e | e in Decode(env, s, f) :: !e.decodeFailed)
                     <==> FieldsDecode(env, s, FlatLogs(f.receipts)) {
      ScopeDecodesIff(env, s, f);
    }
    assert AnyDecodeError(events) <==> exists e | e in events :: e.decodeFailed;
  }

  /** A block of an honest archive with its genuine receipts fails exactly when some
      log that a containing scope looks for does not decode. */
  lemma GenuineBlockFailsIff(w: World, scopes: seq<Scope>, f: Facts)
    requires HonestBlock(w, f.blockNumber) && HonestFacts(w, f) && f.receipts == w.receipts(f.blockNumber)
    requires GoodScopes(w, scopes)
    ensures FailureOf(Process(w.env, scopes, f)) == None
            <==> BlockDecodes(w.env, scopes, f.blockNumber, Flat(w, f.blockNumber))
  {
    hide Process, BlockDecodes, Verifies, Prepared, HoldsFlat, FlatLogs;
    GenuineReceipts(w, f);
    forall s | s in scopes ensures Prepared(s) {
      var i :| 0 <= i < |scopes| && scopes[i] == s;
      assert GoodScope(w, scopes[i]);
    }
    BloomHolds(w, f);
    BloomChangesNothing(w.env, scopes, f);
    AnyErrorIff(w.env, scopes, f);
  }

  lemma BloomHolds(w: World, f: Facts)
    requires HonestBlock(w, f.blockNumber) && HonestFacts(w, f) && f.receipts == w.receipts(f.blockNumber)
    ensures HoldsFlat(w.env.keccak, f.header.bloom, FlatLogs(f.receipts))
  {
    hide HoldsFlat, FlatLogs;
  }

  /** Honest headers, and the receipts of the chain. */
  ghost predicate GenuineStream(w: World, stream: seq<Item>) {
    && HonestStream(w, stream)
    && forall k | 0 <= k < |stream| && stream[k].Block? ::
         stream[k].facts.receipts == w.receipts(stream[k].facts.blockNumber)
  }

  /** Every log of every block of the scope decodes for every scope with that block. */
  ghost predicate ScopeBlocksDecode(w: World, r: Run, s: Scope) {
    forall k | 0 <= k < |r.stream| && InScope(s, r.stream[k]) ::
      BlockDecodes(w.env, r.scopes, r.stream[k].facts.blockNumber, Flat(w, r.stream[k].facts.blockNumber))
  }

  lemma GenuineRunFailsIff(w: World, r: Run, s: Scope)
    requires HonestChain(w) && GoodScopes(w, r.scopes) && GenuineStream(w, r.stream) && r.env == w.env
    ensures BlockFails(r, s) <==> !ScopeBlocksDecode(w, r, s)
  {
    hide Process, BlockDecodes, HonestBlock, HonestFacts, GoodScopes, InScope, Flat;
    forall k | 0 <= k < |r.stream| && r.stream[k].Block?
      ensures var f := r.stream[k].facts;
              FailureOf(Process(w.env, r.scopes, f)) == None
              <==> BlockDecodes(w.env, r.scopes, f.blockNumber, Flat(w, f.blockNumber))
    {
      var f := r.stream[k].facts;
      assert HonestBlock(w, f.blockNumber);
      GenuineBlockFailsIff(w, r.scopes, f);
    }
    forall k | 0 <= k < |r.stream| && InScope(s, r.stream[k]) ensures r.stream[k].Block? {
      InScopeIsBlock(s, r.stream[k]);
    }
  }

  lemma InScopeIsBlock(s: Scope, item: Item)
    requires InScope(s, item)
    ensures item.Block?
  {
  }

  /** When an archive earns coverage, from chain, files and writes alone: over clean
      ascending files with honest headers and genuine receipts, a scope is covered
      exactly when all logs looked for in its blocks decode, no store that was needed
      failed, the write of its coverage succeeded, and the files hold its range. */
  lemma HonestArchiveIsCovered(w: World, r: Run, db: Tables, i: nat, open: Source.Opener,
                               files: seq<Source.SourceFile>, requests: seq<Source.Request>)
    requires HonestChain(w) && GoodScopes(w, r.scopes) && GenuineStream(w, r.stream) && r.env == w.env
    requires i < |r.scopes| && r.scopes[i].from <= r.scopes[i].to
    requires r.stream == Source.Blocks(open, Source.Select(files, requests))
    requires Source.Request(r.scopes[i].from, r.scopes[i].to) in requests
    requires Source.Ascending(files) && forall f | f in files :: Source.CleanFile(open, f)
    ensures var p, s := RunResult(r, db).phase, r.scopes[i];
            && i < |p.verdicts|
            && (p.verdicts[i] == Covered <==>
                  && ScopeBlocksDecode(w, r, s) && !StoreFails(r, |r.stream|) && r.covers(i, 0).Applied?
                  && forall n | s.from <= n <= s.to :: n in Source.Numbers(files))
  {
    hide RunResult, BlockFails, ScopeBlocksDecode, StoreFails, GenuineStream, HonestChain;
    hide Source.Numbers, Source.Blocks, Source.Select, Source.Ascending, Source.CleanFile;
    assert GoodScope(w, r.scopes[i]);
    GoodScopeBound(w, r.scopes[i]);
    GenuineRunFailsIff(w, r, r.scopes[i]);
    Source.CoveredIffFilesHoldRange(r, db, i, open, files, requests);
  }

  // ── One saved resolution per contract ──────────────────────────────────────

  /** A contract's preparation past the cache, with the cache before it. */
  datatype Saved = Saved(cache: Cache, contract: Contract, outside: Outside)

  /** It found events, saved them, and gave a scope. */
  ghost predicate FoundAndSaved(sigs: Signatures, r: Saved) {
    var cfg := r.contract.cfg;
    && PastCache(r.cache, cfg, r.outside) && FreshEvents(cfg, r.outside).Some? && !r.outside.save.RolledBack?
    && FreshEvents(cfg, r.outside).value != []
    && PrepareOne(sigs, r.cache, r.contract, r.outside).0.Some?
  }

  function FirstScope(sigs: Signatures, r: Saved): Option<Scope> {
    PrepareOne(sigs, r.cache, r.contract, r.outside).0
  }

  /** A later preparation of the same contract for the same names, in any other run,
      after any resolutions in between. */
  ghost predicate PreparedLater(sigs: Signatures, r: Saved, s: Scope) {
    exists between, later, o :: PreparedBy(sigs, r, s, between, later, o)
  }

  ghost predicate PreparedBy(sigs: Signatures, r: Saved, s: Scope, between: seq<AbiResolution.Request>, later: Contract,
                             o: Outside)
  {
    && Loads(between) && SameQuestion(r.contract.cfg, later.cfg) && !o.loadFails
    && PrepareOne(sigs, CacheAfter(PrepareOne(sigs, r.cache, r.contract, r.outside).1, between), later, o).0 == Some(s)
  }

  /** The scope comes from its contract's saved resolution, at once or later. */
  ghost predicate ResolvedScope(sigs: Signatures, saved: Address -> Saved, s: Scope) {
    var r := saved(s.contract);
    && FoundAndSaved(sigs, r) && r.contract.cfg.address == s.contract && s.to < TWO63
    && (FirstScope(sigs, r) == Some(s) || PreparedLater(sigs, r, s))
  }

  /** The decoder every run uses for the contract. */
  function SavedDecoder(sigs: Signatures, saved: Address -> Saved, contract: Address): Option<Decoder> {
    match FirstScope(sigs, saved(contract))
    case Some(s) => Some(s.decoder)
    case None => None
  }

  /** Whatever its run, a resolved scope has the decoder of the saved resolution. */
  lemma ResolvedDecoder(sigs: Signatures, saved: Address -> Saved, s: Scope)
    requires ResolvedScope(sigs, saved, s)
    ensures Prepared(s) && SavedDecoder(sigs, saved, s.contract) == Some(s.decoder)
  {
    hide Resolve, PrepareOne, PastCache, FreshEvents, Loads, Prepared;
    var r := saved(s.contract);
    ScopeTopics(sigs, r.cache, r.contract, r.outside);
    if FirstScope(sigs, r) != Some(s) {
      var between, later, o :| PreparedBy(sigs, r, s, between, later, o);
      LaterScopesDecodeTheSame(sigs, r.cache, r.contract, r.outside, between, later, o);
      ScopeTopics(sigs, CacheAfter(PrepareOne(sigs, r.cache, r.contract, r.outside).1, between), later, o);
    }
  }

  /** The topics the saved resolution decodes; none without one. */
  function SavedTopics(sigs: Signatures, saved: Address -> Saved, contract: Address): set<B256> {
    var d := SavedDecoder(sigs, saved, contract);
    if d.Some? then d.value.events.Keys else {}
  }

  /** `always` and `ever` are what the saved resolutions decode. */
  ghost predicate SavedWorld(w: World, sigs: Signatures, saved: Address -> Saved) {
    forall c :: w.always(c) == w.ever(c) == SavedTopics(sigs, saved, c)
  }

  lemma LaterScopeIsGood(w: World, sigs: Signatures, saved: Address -> Saved, s: Scope)
    requires SavedWorld(w, sigs, saved) && ResolvedScope(sigs, saved, s)
    ensures GoodScope(w, s)
  {
    hide FoundAndSaved, FirstScope, PreparedLater, SavedDecoder, Prepared;
    ResolvedDecoder(sigs, saved, s);
  }

  /** All runs of the history read honest archives with resolved scopes. */
  ghost predicate ResolvedHistory(w: World, sigs: Signatures, saved: Address -> Saved, labels: seq<Label>) {
    forall l | l in labels && l.Start? ::
      HonestStream(w, l.stream) && forall s | s in l.scopes :: ResolvedScope(sigs, saved, s)
  }

  lemma ResolvedHistoryIsGood(w: World, sigs: Signatures, saved: Address -> Saved, labels: seq<Label>)
    requires SavedWorld(w, sigs, saved) && ResolvedHistory(w, sigs, saved, labels)
    ensures GoodHistory(w, labels)
  {
    hide SavedWorld, ResolvedScope, GoodScope, HonestStream;
    forall i | 0 <= i < |labels| && labels[i].Start?
      ensures GoodScopes(w, labels[i].scopes) && HonestStream(w, labels[i].stream)
    {
      var l := labels[i];
      assert l in labels;
      forall j | 0 <= j < |l.scopes| ensures GoodScope(w, l.scopes[j]) {
        LaterScopeIsGood(w, sigs, saved, l.scopes[j]);
      }
    }
  }

  /** The names a query by event name relies on are those of the saved decoder. */
  ghost predicate SavedNames(w: World, sigs: Signatures, saved: Address -> Saved, contract: Address) {
    var d := SavedDecoder(sigs, saved, contract);
    d.Some? ==> forall t | t in d.value.events :: d.value.events[t].name == w.names(t)
  }

  lemma ResolvedHistoryIsNamed(w: World, sigs: Signatures, saved: Address -> Saved, labels: seq<Label>,
                               contract: Address)
    requires ResolvedHistory(w, sigs, saved, labels) && SavedNames(w, sigs, saved, contract)
    ensures NamedHistory(w, contract, labels)
  {
    hide SavedDecoder, FoundAndSaved, PreparedLater, FirstScope, HonestStream;
    forall l, s | l in labels && l.Start? && s in l.scopes ensures NamedScope(w, contract, s) {
      ResolvedDecoder(sigs, saved, s);
      PreparedContract(s);
    }
  }

  lemma PreparedContract(s: Scope)
    requires Prepared(s)
    ensures s.decoder.contract == s.contract
  {
    var topics :| PreparedFrom(s, topics);
  }

  /** The promise from the cache up: when every contract's scopes come from one saved
      resolution, in whatever runs and whatever files and fetchers said later, a range
      query at any state of the history is refused or answered with exactly the
      chain's logs of the topics that resolution decodes. */
  lemma ResolvedAnswersAreExact(w: World, sigs: Signatures, saved: Address -> Saved, labels: seq<Label>, q: EventQuery,
                                rows: seq<Row>)
    requires HonestChain(w) && SavedWorld(w, sigs, saved) && ResolvedHistory(w, sigs, saved, labels)
    requires PlainRange(q) && |rows| < TWO63
    requires q.eventName.Some? ==> SavedNames(w, sigs, saved, q.contract.value)
    requires IsSelect(Exec(w.env, Promise.Start(), labels).db.events, q, rows)
    ensures var o := QueryEvents(Exec(w.env, Promise.Start(), labels).db, q, rows);
            var topics := Asked(w.names, SavedTopics(sigs, saved, q.contract.value), q);
            || o == NotIndexed
            || o == MissingCoverage(q.contract.value, q.fromBlock.value, q.toBlock.value)
            || (Answers(o) && RawAll(RowsOf(o)) == AnswerFor(w, topics, q))
  {
    hide Exec, HonestChain, ResolvedHistory, IsSelect, AnswerFor, SavedTopics, SavedNames, GoodHistory, NamedHistory;
    hide IsRangeCovered, Limited, RawAll;
    ResolvedHistoryIsGood(w, sigs, saved, labels);
    if q.eventName.Some? {
      ResolvedHistoryIsNamed(w, sigs, saved, labels, q.contract.value);
    }
    CoveredAnswersAreExact(w, labels, q, rows);
  }
}
