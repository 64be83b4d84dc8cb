/** A configured run from end to end: event resolution, scope preparation, file
    selection, the run loop and the report. */
module Runs {
  import opened Types
  import opened Abi
  import opened AbiResolution
  import opened Pipeline
  import opened Reports
  import opened Source
  import opened Storage
  import opened Sync
  import Blooms

  /** A configured contract. */
  datatype Contract = Contract(cfg: ContractConfig, name: Option<string>, from: U64, to: Option<U64>)

  /** How signatures hash to topics, and which event definitions compile. */
  datatype Signatures = Signatures(topic0: TopicHash, compiles: EventAbi -> bool)

  predicate AllCompile(sigs: Signatures, es: seq<EventAbi>) {
    forall i | 0 <= i < |es| :: sigs.compiles(es[i])
  }

  // ── Preparing scopes ───────────────────────────────────────────────────────

  /** The scope of a contract, if its events resolve and compile and its range has
      an end, and the ABI cache afterwards. */
  function PrepareOne(sigs: Signatures, cache: Cache, c: Contract, o: Outside): (Option<Scope>, Cache) {
    var (events, cache') := Resolve(cache, c.cfg, o);
    if events.Ok? && AllCompile(sigs, events.value) && c.to.Some? then
      (Some(MakeScope(sigs.topic0, c.cfg.address, c.from, c.to.value, events.value)), cache')
    else (None, cache')
  }

  method NewScope(sigs: Signatures, store: AbiStore, c: Contract, o: Outside) returns (s: Option<Scope>)
    modifies store
    ensures (s, store.texts) == PrepareOne(sigs, old(store.texts), c, o)
  {
    hide Resolve;
    var events := ResolveEvents(store, c.cfg, o);
    if events.Err? {
      return None;
    }
    var scanner := Blooms.NewScanner(Topics(sigs.topic0, events.value), c.cfg.address);
    var decoder := NewDecoder(sigs.topic0, sigs.compiles, events.value, c.cfg.address);
    if decoder.None? || c.to.None? {
      return None;
    }
    return Some(Scope(c.cfg.address, c.from, c.to.value, scanner, decoder.value));
  }

  /** The cache after preparing all contracts in order; `outside(i)` is what happens
      during the i-th resolution. */
  function CacheAfterAll(sigs: Signatures, cache: Cache, cs: seq<Contract>, outside: nat -> Outside): Cache {
    if cs == [] then cache
    else
      var n := |cs| - 1;
      PrepareOne(sigs, CacheAfterAll(sigs, cache, cs[..n], outside), cs[n], outside(n)).1
  }

  function ConfiguredOf(sigs: Signatures, cache: Cache, cs: seq<Contract>, outside: nat -> Outside):
    (r: seq<Configured>)
    ensures |r| == |cs|
    ensures forall i | 0 <= i < |r| :: PreparedAtAddress(r[i])
  {
    if cs == [] then []
    else
      var n := |cs| - 1;
      var before := CacheAfterAll(sigs, cache, cs[..n], outside);
      ConfiguredOf(sigs, cache, cs[..n], outside)
      + [Configured(cs[n].cfg.address, cs[n].name, PrepareOne(sigs, before, cs[n], outside(n)).0)]
  }

  lemma PrefixConfigured(sigs: Signatures, cache: Cache, cs: seq<Contract>, outside: nat -> Outside, i: nat)
    requires i < |cs|
    ensures var before := CacheAfterAll(sigs, cache, cs[..i], outside);
            && ConfiguredOf(sigs, cache, cs[..i + 1], outside)
               == ConfiguredOf(sigs, cache, cs[..i], outside)
                  + [Configured(cs[i].cfg.address, cs[i].name, PrepareOne(sigs, before, cs[i], outside(i)).0)]
            && CacheAfterAll(sigs, cache, cs[..i + 1], outside) == PrepareOne(sigs, before, cs[i], outside(i)).1
  {
    hide PrepareOne;
    assert cs[..i + 1][..i] == cs[..i];
  }

  /** Each contract is prepared in its turn, with the cache the ones before it left. */
  lemma {:induction false} ConfiguredIs(sigs: Signatures, cache: Cache, cs: seq<Contract>, outside: nat -> Outside,
                                        i: nat)
    requires i < |cs|
    ensures var c := ConfiguredOf(sigs, cache, cs, outside)[i];
            && c.address == cs[i].cfg.address && c.name == cs[i].name
            && c.prepared == PrepareOne(sigs, CacheAfterAll(sigs, cache, cs[..i], outside), cs[i], outside(i)).0
  {
    hide PrepareOne, CacheAfterAll;
    var n := |cs| - 1;
    if i < n {
      ConfiguredIs(sigs, cache, cs[..n], outside, i);
      assert cs[..n][..i] == cs[..i];
    }
  }

  /** A scope exists exactly when the events resolve, all compile, and an end is configured. */
  lemma PreparedIff(sigs: Signatures, cache: Cache, c: Contract, o: Outside)
    ensures var (events, after) := Resolve(cache, c.cfg, o);
            && PrepareOne(sigs, cache, c, o).1 == after
            && (PrepareOne(sigs, cache, c, o).0.Some? <==>
                  events.Ok? && c.to.Some? && forall e | e in events.value :: sigs.compiles(e))
  {
    hide Resolve;
    var events := Resolve(cache, c.cfg, o).0;
    if events.Ok? {
      assert (forall e | e in events.value :: sigs.compiles(e)) <==> AllCompile(sigs, events.value);
    }
  }

  /** Scopes and preparation failures, in configuration order. The one contract of
      a single-contract run fails the run instead. */
  method PrepareScopes(sigs: Signatures, store: AbiStore, cs: seq<Contract>, outside: nat -> Outside)
    returns (r: Result<(seq<Scope>, seq<(ScopeLabel, Reason)>), Reason>)
    modifies store
    ensures store.texts == CacheAfterAll(sigs, old(store.texts), cs, outside)
    ensures var all := ConfiguredOf(sigs, old(store.texts), cs, outside);
            r == if |cs| == 1 && all[0].prepared.None? then Err(PreparationFailed)
                 else Ok((PreparedOf(all), FailedOf(all)))
  {
    hide PrepareOne, CacheAfterAll, ConfiguredOf, PreparedOf, FailedOf, NameOf;
    ghost var cache := store.texts;
    var scopes: seq<Scope> := [];
    var failed: seq<(ScopeLabel, Reason)> := [];
    NothingPrepared(sigs, cache, outside);
    assert cs[..0] == [];
    for i := 0 to |cs|
      invariant store.texts == CacheAfterAll(sigs, cache, cs[..i], outside)
      invariant scopes == PreparedOf(ConfiguredOf(sigs, cache, cs[..i], outside))
      invariant failed == FailedOf(ConfiguredOf(sigs, cache, cs[..i], outside))
      invariant |cs| == 1 && i == 1 ==> ConfiguredOf(sigs, cache, cs[..i], outside)[0].prepared.Some?
    {
      PrefixConfigured(sigs, cache, cs, outside, i);
      var scope := NewScope(sigs, store, cs[i], outside(i));
      ghost var front := ConfiguredOf(sigs, cache, cs[..i], outside);
      ConfiguredNext(front, Configured(cs[i].cfg.address, cs[i].name, scope));
      if scope.Some? {
        scopes := scopes + [scope.value];
      } else {
        if |cs| == 1 {
          assert cs[..1] == cs;
          return Err(PreparationFailed);
        }
        failed := failed + [(NameOf(Configured(cs[i].cfg.address, cs[i].name, None)), PreparationFailed)];
      }
    }
    assert cs[..|cs|] == cs;
    return Ok((scopes, failed));
  }

  lemma NothingPrepared(sigs: Signatures, cache: Cache, outside: nat -> Outside)
    ensures CacheAfterAll(sigs, cache, [], outside) == cache
    ensures ConfiguredOf(sigs, cache, [], outside) == [] && PreparedOf([]) == [] && FailedOf([]) == []
  {
  }

  // ── The run ────────────────────────────────────────────────────────────────

  function RequestsOf(scopes: seq<Scope>): seq<Source.Request> {
    seq(|scopes|, i requires 0 <= i < |scopes| => Source.Request(scopes[i].from, scopes[i].to))
  }

  /** The stream of the files selected for the scopes. */
  function StreamFor(open: Opener, files: seq<SourceFile>, scopes: seq<Scope>): seq<Item> {
    Blocks(open, Select(files, RequestsOf(scopes)))
  }

  /** Receipt lists are indexed by machine words. */
  ghost predicate Indexable(open: Opener) {
    forall path | open(path).Some? :: ShortLists(open(path).value)
  }

  ghost predicate ShortLists(items: seq<Item>) {
    forall i | 0 <= i < |items| && items[i].Block? :: |items[i].facts.receipts| < TWO64
  }

  lemma {:induction false} BlocksShort(open: Opener, files: seq<SourceFile>)
    requires Indexable(open)
    ensures ShortLists(Blocks(open, files))
  {
    if files != [] {
      BlocksShort(open, files[..|files| - 1]);
      var found := open(files[|files| - 1].path);
      assert found.Some? ==> ShortLists(found.value);
    }
  }

  /** The run over the files selected for the scopes prepared from a configuration. */
  function RunOver(env: Env, open: Opener, files: seq<SourceFile>, all: seq<Configured>, stores: nat -> Commit,
                   covers: (nat, nat) -> Commit): Run
  {
    Run(env, PreparedOf(all), StreamFor(open, files, PreparedOf(all)), stores, covers)
  }

  /** One pass over the selected files for all prepared scopes. Whenever a report is
      returned, every configured contract is in it exactly once, as covered or as
      incomplete; tables and report are those of the run, with its own write outcomes. */
  method RunEra1Scopes(env: Env, sigs: Signatures, store: AbiStore, cs: seq<Contract>, outside: nat -> Outside,
                       files: seq<SourceFile>, open: Opener, db: Db, stores: nat -> Commit,
                       covers: (nat, nat) -> Commit)
    returns (r: Result<SyncReport, Reason>)
    requires Indexable(open)
    modifies store, db
    ensures store.texts == CacheAfterAll(sigs, old(store.texts), cs, outside)
    ensures var all := ConfiguredOf(sigs, old(store.texts), cs, outside);
            var result := RunResult(RunOver(env, open, files, all, stores, covers), old(db.Contents()));
            && (r.Err? <==> |cs| == 1 && all[0].prepared.None?)
            && (r.Ok? ==> multiset(r.value.covered) + multiset(Names(r.value.incomplete)) == multiset(AllNames(all)))
            && (r.Ok? && PreparedOf(all) != [] ==>
                  var report := ReportOf(result.phase);
                  db.Contents() == result.db
                  && r.value == report.(incomplete := report.incomplete + FailedOf(all)))
            && (r.Err? || PreparedOf(all) == [] ==> db.Contents() == old(db.Contents()))
  {
    hide CoveredOf, IncompleteOf, PreparedOf, FailedOf, AllNames, Blocks, Select, CacheAfterAll, ConfiguredOf;
    hide StoreAll, CoverAll, VerdictOf, FinalAcc;
    ghost var all := ConfiguredOf(sigs, store.texts, cs, outside);
    var prepared := PrepareScopes(sigs, store, cs, outside);
    if prepared.Err? {
      return Err(prepared.error);
    }
    EachContractOnce(all);
    var (scopes, failures) := prepared.value;
    if scopes == [] {
      assert ScopeNames(scopes) == [];
      return Ok(SyncReport(0, [], failures));
    }
    var selected := Select(files, RequestsOf(scopes));
    BlocksShort(open, selected);
    var run := Run(env, scopes, Blocks(open, selected), stores, covers);
    ghost var verdicts := RunResult(run, db.Contents()).phase.verdicts;
    var report := RunPreparedScopes(run, db);
    EachScopeOnce(scopes, verdicts);
    assert ScopeNames(scopes)[..|scopes|] == ScopeNames(scopes);
    assert Names(report.incomplete + failures) == Names(report.incomplete) + Names(failures);
    return Ok(report.(incomplete := report.incomplete + failures));
  }

  /** A scope has a block in the file. */
  ghost predicate NeededBy(f: SourceFile, s: Scope) {
    exists r | r in f.ranges :: ShareBlock(r, s.from, s.to)
  }

  ghost predicate ForwardScopes(scopes: seq<Scope>) {
    forall i | 0 <= i < |scopes| :: scopes[i].from <= scopes[i].to
  }

  lemma RequestIsScope(scopes: seq<Scope>, f: SourceFile)
    ensures (exists r, q | r in f.ranges && q in RequestsOf(scopes) :: ShareBlock(r, q.from, q.to))
            <==> exists i :: 0 <= i < |scopes| && NeededBy(f, scopes[i])
  {
    hide ShareBlock;
    if r, q :| r in f.ranges && q in RequestsOf(scopes) && ShareBlock(r, q.from, q.to) {
      var i :| 0 <= i < |RequestsOf(scopes)| && RequestsOf(scopes)[i] == q;
      assert NeededBy(f, scopes[i]);
    }
    if i :| 0 <= i < |scopes| && NeededBy(f, scopes[i]) {
      assert RequestsOf(scopes)[i] in RequestsOf(scopes);
    }
  }

  /** A run reads exactly the scanned files in which one of its scopes has a block, and
      a file that it reads and that cannot be opened or read to its end withholds
      coverage from every scope, as a source failure unless a block of the scope failed. */
  lemma RunSourceFailureIff(env: Env, open: Opener, files: seq<SourceFile>, all: seq<Configured>,
                            stores: nat -> Commit, covers: (nat, nat) -> Commit, db: Tables, i: nat)
    requires i < |PreparedOf(all)| && ForwardScopes(PreparedOf(all)) && forall f | f in files :: Forward(f)
    ensures var r, scopes := RunOver(env, open, files, all, stores, covers), PreparedOf(all);
            var p := RunResult(r, db).phase;
            var bad := exists f, k :: f in files && 0 <= k < |scopes| && NeededBy(f, scopes[k]) && Unreadable(open, f);
            && i < |p.verdicts|
            && (bad ==> p.verdicts[i].Incomplete?)
            && (p.verdicts[i] == Incomplete(SourceFailure) <==> bad && !BlockFails(r, scopes[i]))
  {
    hide RunResult, PreparedOf, Blocks, Select, Wanted, NeededBy, ShareBlock, Unreadable, BlockFails;
    var r, scopes := RunOver(env, open, files, all, stores, covers), PreparedOf(all);
    var requests := RequestsOf(scopes);
    SourceFailureIff(r, db, i, open, files, requests);
    assert ForwardRequests(requests);
    forall f | f in files ensures Wanted(f, requests) <==> exists k :: 0 <= k < |scopes| && NeededBy(f, scopes[k]) {
      SelectMembers(files, requests, f);
      SelectedIff(files, requests, f);
      RequestIsScope(scopes, f);
    }
  }

  /** End to end over a configuration: the prepared scopes are covered exactly when the
      directory holds all their blocks and nothing failed. */
  lemma RunCoveredIff(env: Env, open: Opener, files: seq<SourceFile>, all: seq<Configured>, stores: nat -> Commit,
                      covers: (nat, nat) -> Commit, db: Tables, i: nat)
    requires i < |PreparedOf(all)| && PreparedOf(all)[i].from <= PreparedOf(all)[i].to < U64_MAX
    requires Ascending(files) && forall f | f in files :: CleanFile(open, f)
    ensures var r := RunOver(env, open, files, all, stores, covers);
            var p, s := RunResult(r, db).phase, PreparedOf(all)[i];
            && i < |p.verdicts|
            && (p.verdicts[i] == Covered <==>
                  && !BlockFails(r, s) && !StoreFails(r, |r.stream|) && covers(i, 0).Applied?
                  && forall n | s.from <= n <= s.to :: n in Numbers(files))
  {
    hide RunResult, PreparedOf, Blocks, Select, BlockFails, StoreFails, Numbers, Ascending, CleanFile;
    var r, scopes := RunOver(env, open, files, all, stores, covers), PreparedOf(all);
    assert RequestsOf(scopes)[i] == Source.Request(scopes[i].from, scopes[i].to);
    CoveredIffFilesHoldRange(r, db, i, open, files, RequestsOf(scopes));
  }

  // ── One event set in all runs ──────────────────────────────────────────────

  lemma ScopeTopics(sigs: Signatures, cache: Cache, c: Contract, o: Outside)
    requires PrepareOne(sigs, cache, c, o).0.Some?
    ensures var s, events := PrepareOne(sigs, cache, c, o).0.value, Resolve(cache, c.cfg, o).0;
            && Prepared(s) && s.contract == c.cfg.address && s.from == c.from && Some(s.to) == c.to
            && events.Ok? && s.decoder.events == EventMap(sigs.topic0, events.value)
  {
    hide Resolve;
    MakeScopePrepared(sigs.topic0, c.cfg.address, c.from, c.to.value, Resolve(cache, c.cfg, o).0.value);
  }

  /** Where the one event set comes from: once a resolution found events and saved
      them, every later run with the same wanted names prepares a scope of the same
      topics, whatever other contracts were resolved in between and whatever its own
      override file and fetcher would say. */
  lemma LaterScopesDecodeTheSame(sigs: Signatures, cache: Cache, c: Contract, o: Outside,
                                 between: seq<AbiResolution.Request>, later: Contract, o': Outside)
    requires PastCache(cache, c.cfg, o) && FreshEvents(c.cfg, o).Some? && !o.save.RolledBack?
    requires FreshEvents(c.cfg, o).value != []
    requires Loads(between) && SameQuestion(c.cfg, later.cfg) && !o'.loadFails
    requires PrepareOne(sigs, cache, c, o).0.Some?
    ensures var cache' := CacheAfter(PrepareOne(sigs, cache, c, o).1, between);
            var r := PrepareOne(sigs, cache', later, o');
            && r.1 == cache'
            && (r.0.Some? <==> later.to.Some?)
            && (r.0.Some? ==> r.0.value.decoder == PrepareOne(sigs, cache, c, o).0.value.decoder)
  {
    hide Resolve, FreshEvents, PastCache, EventMap, AllCompile;
    CacheAnswersAlwaysIff(cache, c.cfg, o);
    var saved, answer := Resolve(cache, c.cfg, o).1, Resolve(cache, c.cfg, o).0;
    assert AnswersFromCache(CacheAfter(saved, between), c.cfg, answer);
    var question := AbiResolution.Request(later.cfg, o');
    assert Resolve(CacheAfter(saved, between), question.cfg, question.outside) == (answer, CacheAfter(saved, between));
  }
}
