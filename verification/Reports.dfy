/** What a finished run reports: one verdict per scope, and for which reason. */
module Reports {
  import opened Types
  import opened Present
  import opened Storage
  import opened Pipeline
  import opened Sync
  import Blooms

  // ── What the run has seen ──────────────────────────────────────────────────

  predicate InScope(s: Scope, item: Item) {
    item.Block? && ContainsBlock(s, item.facts.blockNumber)
  }

  /** The in-scope blocks among the first `pos` items, in arrival order. */
  function BlocksSeen(s: Scope, stream: seq<Item>, pos: nat): seq<U64>
    requires pos <= |stream|
  {
    if pos == 0 then []
    else
      BlocksSeen(s, stream, pos - 1)
      + if InScope(s, stream[pos - 1]) then [stream[pos - 1].facts.blockNumber] else []
  }

  /** The first failure among the in-scope blocks of the first `pos` items. */
  function FirstFailure(env: Env, scopes: seq<Scope>, s: Scope, stream: seq<Item>, pos: nat): Option<Reason>
    requires pos <= |stream|
  {
    if pos == 0 then None
    else
      var before := FirstFailure(env, scopes, s, stream, pos - 1);
      if before.None? && InScope(s, stream[pos - 1]) then FailureOf(Process(env, scopes, stream[pos - 1].facts))
      else before
  }

  ghost predicate ReadErrorSeen(stream: seq<Item>, pos: nat)
    requires pos <= |stream|
  {
    exists i | 0 <= i < pos :: stream[i].ReadError?
  }

  ghost predicate FailingBlock(env: Env, scopes: seq<Scope>, s: Scope, item: Item) {
    InScope(s, item) && FailureOf(Process(env, scopes, item.facts)).Some?
  }

  lemma {:induction false} FirstFailureIff(env: Env, scopes: seq<Scope>, s: Scope, stream: seq<Item>, pos: nat)
    requires pos <= |stream|
    ensures FirstFailure(env, scopes, s, stream, pos).Some? <==>
            exists i :: 0 <= i < pos && FailingBlock(env, scopes, s, stream[i])
    ensures FirstFailure(env, scopes, s, stream, pos).Some? ==>
            FirstFailure(env, scopes, s, stream, pos).value in {VerifyFailure, DecodeFailure}
  {
    hide Process;
    if pos > 0 {
      FirstFailureIff(env, scopes, s, stream, pos - 1);
      if FailingBlock(env, scopes, s, stream[pos - 1]) {
        assert 0 <= pos - 1 < pos;
      }
    }
  }

  // ── Invariant of a run ─────────────────────────────────────────────────────

  ghost predicate AccInv(env: Env, scopes: seq<Scope>, stream: seq<Item>, pos: nat, acc: Acc)
    requires pos <= |stream|
  {
    && Sized(scopes, acc)
    && (acc.sourceFailed <==> ReadErrorSeen(stream, pos))
    && (forall i | 0 <= i < |scopes| :: acc.present[i] == PushAll(BlocksSeen(scopes[i], stream, pos)))
    && (forall i | 0 <= i < |scopes| :: acc.ineligible[i] == FirstFailure(env, scopes, scopes[i], stream, pos))
  }

  ghost predicate Recorded(coverage: set<CoveredRange>, s: Scope, present: seq<Interval>, k: nat)
    requires k <= |present|
  {
    forall j | 0 <= j < k :: CoveredRange(s.contract, AsI64(present[j].start), AsI64(present[j].end)) in coverage
  }

  ghost predicate VerdictOk(coverage: set<CoveredRange>, s: Scope, acc: Acc, i: nat, v: Verdict)
    requires i < |acc.ineligible| == |acc.present|
  {
    if Withheld(acc, i).Some? then v == Incomplete(Withheld(acc, i).value)
    else
      || v == Incomplete(CoverageWriteFailed)
      || (v == GapVerdict(s, acc.present[i]) && Recorded(coverage, s, acc.present[i], |acc.present[i]|))
  }

  ghost predicate RecordingInv(coverage: set<CoveredRange>, scopes: seq<Scope>, acc: Acc, verdicts: seq<Verdict>,
                               written: nat)
  {
    && Sized(scopes, acc) && |verdicts| <= |scopes|
    && (forall i | 0 <= i < |verdicts| :: VerdictOk(coverage, scopes[i], acc, i, verdicts[i]))
    && (|verdicts| < |scopes| ==>
          var idx := |verdicts|;
          written <= |acc.present[idx]| && Recorded(coverage, scopes[idx], acc.present[idx], written))
  }

  ghost predicate ReportInv(env: Env, s: Sys) {
    match s.phase
    case Idle => true
    case Reading(scopes, stream, pos, acc) => pos <= |stream| && AccInv(env, scopes, stream, pos, acc)
    case Recording(scopes, stream, acc, verdicts, written) =>
      AccInv(env, scopes, stream, |stream|, acc) && RecordingInv(s.db.coverage, scopes, acc, verdicts, written)
  }

  lemma ReadKeepsAcc(env: Env, scopes: seq<Scope>, stream: seq<Item>, pos: nat, acc: Acc, commit: Commit)
    requires pos < |stream| && AccInv(env, scopes, stream, pos, acc)
    ensures AccInv(env, scopes, stream, pos + 1, ReadItem(env, scopes, acc, stream[pos], commit))
  {
    hide Process, PushBlock;
    var acc' := ReadItem(env, scopes, acc, stream[pos], commit);
    forall i | 0 <= i < |scopes| ensures acc'.present[i] == PushAll(BlocksSeen(scopes[i], stream, pos + 1)) {
      var before := BlocksSeen(scopes[i], stream, pos);
      if InScope(scopes[i], stream[pos]) {
        assert (before + [stream[pos].facts.blockNumber])[..|before|] == before;
      } else {
        assert before + [] == before;
      }
    }
    assert ReadErrorSeen(stream, pos + 1) <==> ReadErrorSeen(stream, pos) || stream[pos].ReadError?;
  }

  lemma RecordKeepsReport(env: Env, s: Sys, commit: Commit)
    requires ReportInv(env, s) && s.phase.Recording? && |s.phase.verdicts| < |s.phase.scopes|
    ensures ReportInv(env, Step(env, s, Record(commit)))
  {
    hide AccInv, GapVerdict, Withheld;
    var p := s.phase;
    var idx := |p.verdicts|;
    var s' := Step(env, s, Record(commit));
    assert s.db.coverage <= s'.db.coverage;
    assert Recorded(s'.db.coverage, p.scopes[idx], p.acc.present[idx], p.written);
    forall i | 0 <= i < |p.verdicts| ensures VerdictOk(s'.db.coverage, p.scopes[i], p.acc, i, p.verdicts[i]) {
      assert VerdictOk(s.db.coverage, p.scopes[i], p.acc, i, p.verdicts[i]);
    }
  }

  lemma StartAcc(env: Env, scopes: seq<Scope>, stream: seq<Item>)
    ensures AccInv(env, scopes, stream, 0, InitialAcc(|scopes|))
  {
    assert !ReadErrorSeen(stream, 0);
  }

  lemma StepKeepsReport(env: Env, s: Sys, l: Label)
    requires WellSized(s) && ReportInv(env, s)
    ensures ReportInv(env, Step(env, s, l))
  {
    hide RecordStep, ReadItem, StoreItem, AccInv, InitialAcc, VerdictOk, Recorded;
    match l
    case Start(scopes, stream) =>
      StartAcc(env, scopes, stream);
    case Read(commit) =>
      if s.phase.Reading? && s.phase.pos < |s.phase.stream| {
        ReadKeepsAcc(env, s.phase.scopes, s.phase.stream, s.phase.pos, s.phase.acc, commit);
      }
    case EndOfStream =>
      EndRecording(env, s);
    case Record(commit) =>
      if s.phase.Recording? && |s.phase.verdicts| < |s.phase.scopes| {
        RecordKeepsReport(env, s, commit);
      }
    case _ =>
  }

  lemma EndRecording(env: Env, s: Sys)
    requires WellSized(s) && ReportInv(env, s)
    ensures ReportInv(env, Step(env, s, EndOfStream))
  {
    hide FirstFailure, BlocksSeen, ReadErrorSeen;
  }

  lemma {:induction false} ExecKeepsReport(env: Env, db: Tables, labels: seq<Label>)
    ensures ReportInv(env, Exec(env, Sys(db, Idle), labels))
  {
    hide Step;
    if labels != [] {
      hide ReportInv;
      var front := labels[..|labels| - 1];
      ExecKeepsReport(env, db, front);
      StepKeepsReport(env, Exec(env, Sys(db, Idle), front), labels[|labels| - 1]);
    }
  }

  // ── Verdicts ───────────────────────────────────────────────────────────────

  /** The run must store events of its k-th item. */
  ghost predicate StoreNeeded(r: Run, k: nat)
    requires k < |r.stream|
  {
    r.stream[k].Block? && EventsOf(Process(r.env, r.scopes, r.stream[k].facts)) != []
  }

  /** Some store among the first `n` items was needed and did not succeed. */
  ghost predicate StoreFails(r: Run, n: nat)
    requires n <= |r.stream|
  {
    exists k :: 0 <= k < n && StoreNeeded(r, k) && !r.stores(k).Applied?
  }

  /** Some block in the scope's range failed verification or decoding. */
  ghost predicate BlockFails(r: Run, s: Scope) {
    exists k :: 0 <= k < |r.stream| && FailingBlock(r.env, r.scopes, s, r.stream[k])
  }

  /** The events of the first `n` items whose store succeeded. */
  function StoredEvents(r: Run, n: nat): nat
    requires n <= |r.stream|
  {
    if n == 0 then 0
    else
      var item := r.stream[n - 1];
      StoredEvents(r, n - 1)
      + if item.Block? && r.stores(n - 1).Applied? then |EventsOf(Process(r.env, r.scopes, item.facts))| else 0
  }

  lemma StoreFailsNext(r: Run, n: nat)
    requires n < |r.stream|
    ensures StoreFails(r, n + 1) <==> StoreFails(r, n) || (StoreNeeded(r, n) && !r.stores(n).Applied?)
  {
    hide StoreNeeded;
  }

  lemma ReadStores(r: Run, n: nat)
    requires n < |r.stream|
    ensures var before, after := ReadAll(r, n), ReadAll(r, n + 1);
            && (after.storeFailed <==> before.storeFailed || (StoreNeeded(r, n) && !r.stores(n).Applied?))
            && after.total - before.total == StoredEvents(r, n + 1) - StoredEvents(r, n)
  {
    hide Process, PushBlock;
  }

  /** What a run has accumulated after `n` items says exactly what happened: read
      errors, failed stores, stored events, blocks seen and first failures. */
  lemma {:induction false} ReadAllIs(r: Run, n: nat)
    requires n <= |r.stream|
    ensures AccInv(r.env, r.scopes, r.stream, n, ReadAll(r, n))
    ensures ReadAll(r, n).storeFailed <==> StoreFails(r, n)
    ensures ReadAll(r, n).total == StoredEvents(r, n)
  {
    hide AccInv, StoreFails, StoreNeeded, ReadItem, ReadAll, StoredEvents, InitialAcc;
    if n == 0 {
      StartAcc(r.env, r.scopes, r.stream);
      NoStoreYet(r);
    } else {
      ReadAllNext(r, n - 1);
      ReadAllIs(r, n - 1);
      ReadKeepsAcc(r.env, r.scopes, r.stream, n - 1, ReadAll(r, n - 1), r.stores(n - 1));
      ReadStores(r, n - 1);
      StoreFailsNext(r, n - 1);
    }
  }

  lemma NoStoreYet(r: Run)
    ensures ReadAll(r, 0) == InitialAcc(|r.scopes|)
    ensures !StoreFails(r, 0) && !ReadAll(r, 0).storeFailed && ReadAll(r, 0).total == StoredEvents(r, 0)
  {
  }

  lemma ReadAllNext(r: Run, n: nat)
    requires n < |r.stream|
    ensures ReadAll(r, n + 1) == ReadItem(r.env, r.scopes, ReadAll(r, n), r.stream[n], r.stores(n))
  {
    hide ReadItem;
  }

  /** The blocks of a scope's range the run read, as intervals. */
  function Seen(r: Run, s: Scope): seq<Interval> {
    PushAll(BlocksSeen(s, r.stream, |r.stream|))
  }

  /** The verdict of a scope, read off the items and the outcomes of the writes alone. */
  ghost function ExpectedVerdict(r: Run, i: nat): Verdict
    requires i < |r.scopes|
  {
    var s := r.scopes[i];
    var failure := FirstFailure(r.env, r.scopes, s, r.stream, |r.stream|);
    if failure.Some? then Incomplete(failure.value)
    else if ReadErrorSeen(r.stream, |r.stream|) then Incomplete(SourceFailure)
    else if StoreFails(r, |r.stream|) then Incomplete(StoreFailure)
    else if !WritesApply(r, i, |Seen(r, s)|) then Incomplete(CoverageWriteFailed)
    else GapVerdict(s, Seen(r, s))
  }

  lemma VerdictExact(r: Run, db: Tables, i: nat)
    requires i < |r.scopes|
    ensures var p := RunResult(r, db).phase;
            && |p.verdicts| == |r.scopes| && p.verdicts[i] == ExpectedVerdict(r, i)
            && p.acc.present[i] == Seen(r, r.scopes[i])
            && p.acc.total == StoredEvents(r, |r.stream|)
  {
    hide ReadAll, FirstFailure, StoreFails, ReadErrorSeen, StoreAll, CoverAll, GapVerdict, BlocksSeen, PushAll;
    ReadAllIs(r, |r.stream|);
    VerdictsLength(r, FinalAcc(r), |r.scopes|);
  }

  /** A read error, or a store that was needed and failed, withholds coverage from
      every scope. */
  lemma RunFailureWithholdsAll(r: Run, db: Tables, i: nat)
    requires i < |r.scopes|
    requires ReadErrorSeen(r.stream, |r.stream|) || StoreFails(r, |r.stream|)
    ensures var p := RunResult(r, db).phase; i < |p.verdicts| && p.verdicts[i].Incomplete?
  {
    hide RunResult, FirstFailure, StoreFails, ReadErrorSeen;
    VerdictExact(r, db, i);
  }

  /** A failing block withholds coverage from exactly the scopes that contain it,
      and the reason reported is the scope's first failure. */
  lemma BlockFailureWithholdsExactly(r: Run, db: Tables, i: nat)
    requires i < |r.scopes|
    ensures var p, s := RunResult(r, db).phase, r.scopes[i];
            && i < |p.verdicts|
            && (BlockFails(r, s) <==> p.verdicts[i] in {Incomplete(VerifyFailure), Incomplete(DecodeFailure)})
            && (BlockFails(r, s) ==>
                  Some(p.verdicts[i].reason) == FirstFailure(r.env, r.scopes, s, r.stream, |r.stream|))
  {
    hide RunResult, FirstFailure, StoreFails, ReadErrorSeen, FailingBlock, GapsFrom;
    VerdictExact(r, db, i);
    FirstFailureIff(r.env, r.scopes, r.scopes[i], r.stream, |r.stream|);
  }

  // ── Reasons ────────────────────────────────────────────────────────────────

  /** The scope contains the block and its bloom test passes. */
  ghost predicate Hit(env: Env, s: Scope, f: Facts) {
    ContainsBlock(s, f.blockNumber) && Blooms.Matches(env.keccak, s.scanner, f.header.bloom)
  }

  /** Receipts were needed, and are not those the header commits to. */
  ghost predicate ReceiptsRejected(env: Env, scopes: seq<Scope>, f: Facts) {
    (exists s | s in scopes :: Hit(env, s, f)) && !Verifies(env, f)
  }

  /** The receipts are the committed ones, and some event does not decode. */
  ghost predicate EventUndecoded(env: Env, scopes: seq<Scope>, f: Facts) {
    Verifies(env, f) && exists s, e | s in scopes && Hit(env, s, f) && e in Decode(env, s, f) :: e.decodeFailed
  }

  lemma HitsAre(env: Env, scopes: seq<Scope>, f: Facts, s: Scope)
    ensures s in BloomHits(env.keccak, InRange(scopes, f.blockNumber), f.header.bloom)
            <==> s in scopes && Hit(env, s, f)
  {
    hide Blooms.Matches, ContainsBlock, InRange, BloomHits;
    InRangeMembers(scopes, f.blockNumber, s);
    HitsMembers(env.keccak, InRange(scopes, f.blockNumber), f.header.bloom, s);
  }

  lemma HitEventsAre(env: Env, scopes: seq<Scope>, f: Facts)
    ensures var hits := BloomHits(env.keccak, InRange(scopes, f.blockNumber), f.header.bloom);
            AnyDecodeError(DecodeAll(env, hits, f))
            <==> exists s, e | s in scopes && Hit(env, s, f) && e in Decode(env, s, f) :: e.decodeFailed
  {
    hide Decode, DecodeAll, InRange, BloomHits, Hit;
    var hits := BloomHits(env.keccak, InRange(scopes, f.blockNumber), f.header.bloom);
    var events := DecodeAll(env, hits, f);
    forall s ensures s in hits <==> s in scopes && Hit(env, s, f) {
      HitsAre(env, scopes, f, s);
    }
    forall e ensures e in events <==> exists s :: s in hits && e in Decode(env, s, f) {
      DecodeAllMembers(env, hits, f, e);
    }
    assert AnyDecodeError(events) <==> exists e | e in events :: e.decodeFailed;
  }

  lemma NoHits(env: Env, scopes: seq<Scope>, f: Facts)
    ensures var inRange := InRange(scopes, f.blockNumber);
            && (BloomHits(env.keccak, inRange, f.header.bloom) == [] <==> forall s | s in scopes :: !Hit(env, s, f))
            && (inRange == [] ==> BloomHits(env.keccak, inRange, f.header.bloom) == [])
  {
    hide InRange, Hit;
    var hits := BloomHits(env.keccak, InRange(scopes, f.blockNumber), f.header.bloom);
    forall s ensures s in hits <==> s in scopes && Hit(env, s, f) {
      HitsAre(env, scopes, f, s);
    }
    assert hits != [] ==> hits[0] in hits;
  }

  /** A block is reported as failed for the reason it failed. */
  lemma FailureReason(env: Env, scopes: seq<Scope>, f: Facts)
    ensures FailureOf(Process(env, scopes, f)) == Some(VerifyFailure) <==> ReceiptsRejected(env, scopes, f)
    ensures FailureOf(Process(env, scopes, f)) == Some(DecodeFailure) <==> EventUndecoded(env, scopes, f)
    ensures FailureOf(Process(env, scopes, f)).Some? ==>
              FailureOf(Process(env, scopes, f)).value in {VerifyFailure, DecodeFailure}
  {
    hide Verifies, Decode, DecodeAll, InRange, BloomHits, Hit;
    NoHits(env, scopes, f);
    HitEventsAre(env, scopes, f);
  }

  /** What becomes of a block, case by case. */
  lemma OutcomeIs(env: Env, scopes: seq<Scope>, f: Facts)
    ensures match Process(env, scopes, f)
            case OutsideRange => forall s | s in scopes :: !ContainsBlock(s, f.blockNumber)
            case NoBloomMatch =>
              (exists s | s in scopes :: ContainsBlock(s, f.blockNumber)) && forall s | s in scopes :: !Hit(env, s, f)
            case VerifyFailed => ReceiptsRejected(env, scopes, f)
            case DecodeFailed(_) => EventUndecoded(env, scopes, f)
            case Evaluated(_) =>
              (exists s | s in scopes :: Hit(env, s, f)) && Verifies(env, f) && !EventUndecoded(env, scopes, f)
  {
    hide Verifies, Decode, DecodeAll, InRange, BloomHits, Hit;
    NoHits(env, scopes, f);
    HitEventsAre(env, scopes, f);
    var inRange := InRange(scopes, f.blockNumber);
    forall s ensures s in inRange <==> s in scopes && ContainsBlock(s, f.blockNumber) {
      InRangeMembers(scopes, f.blockNumber, s);
    }
    assert inRange != [] ==> inRange[0] in inRange;
  }

  ghost predicate BlockRejected(r: Run, k: nat)
    requires k < |r.stream|
  {
    r.stream[k].Block? && ReceiptsRejected(r.env, r.scopes, r.stream[k].facts)
  }

  ghost predicate BlockUndecoded(r: Run, k: nat)
    requires k < |r.stream|
  {
    r.stream[k].Block? && EventUndecoded(r.env, r.scopes, r.stream[k].facts)
  }

  /** The k-th item is a block of the scope's range that fails. */
  ghost predicate FailsAt(r: Run, s: Scope, k: nat)
    requires k < |r.stream|
  {
    InScope(s, r.stream[k]) && (BlockRejected(r, k) || BlockUndecoded(r, k))
  }

  /** The k-th item is the first of those. */
  ghost predicate FirstFails(r: Run, s: Scope, k: nat) {
    k < |r.stream| && FailsAt(r, s, k) && forall j | 0 <= j < k :: !FailsAt(r, s, j)
  }

  lemma FailsAtIff(r: Run, s: Scope, k: nat)
    requires k < |r.stream|
    ensures FailsAt(r, s, k) <==> FailingBlock(r.env, r.scopes, s, r.stream[k])
    ensures FailsAt(r, s, k) ==>
              FailureOf(Process(r.env, r.scopes, r.stream[k].facts))
              == Some(if BlockRejected(r, k) then VerifyFailure else DecodeFailure)
  {
    hide Process, ReceiptsRejected, EventUndecoded, FailureOf;
    if r.stream[k].Block? {
      FailureReason(r.env, r.scopes, r.stream[k].facts);
    }
  }

  lemma {:induction false} FirstFailureReason(r: Run, s: Scope, n: nat)
    requires n <= |r.stream|
    ensures var failure := FirstFailure(r.env, r.scopes, s, r.stream, n);
            if failure.None? then forall k | 0 <= k < n :: !FailsAt(r, s, k)
            else exists k: nat :: k < n && FirstFails(r, s, k)
                                  && failure.value == if BlockRejected(r, k) then VerifyFailure else DecodeFailure
  {
    hide Process, FailsAt, BlockRejected, FailureOf;
    if n > 0 {
      FirstFailureReason(r, s, n - 1);
      FailsAtIff(r, s, n - 1);
      if FirstFailure(r.env, r.scopes, s, r.stream, n - 1).None? && FailsAt(r, s, n - 1) {
        assert FirstFails(r, s, n - 1);
      }
    }
  }

  lemma NotBoth(env: Env, scopes: seq<Scope>, f: Facts)
    ensures !(ReceiptsRejected(env, scopes, f) && EventUndecoded(env, scopes, f))
  {
  }

  lemma FailureShown(r: Run, db: Tables, i: nat)
    requires i < |r.scopes|
    ensures var p := RunResult(r, db).phase;
            var failure := FirstFailure(r.env, r.scopes, r.scopes[i], r.stream, |r.stream|);
            && i < |p.verdicts|
            && if failure.Some? then p.verdicts[i] == Incomplete(failure.value)
               else p.verdicts[i] !in {Incomplete(VerifyFailure), Incomplete(DecodeFailure)}
  {
    hide RunResult, FirstFailure, StoreFails, ReadErrorSeen, GapsFrom, Seen, WritesApply;
    VerdictExact(r, db, i);
  }

  /** The reason a scope is reported with when a block of its range failed: that its
      first failing block had receipts that are not the committed ones, or that it had
      an event that does not decode. */
  lemma ReasonExact(r: Run, db: Tables, i: nat)
    requires i < |r.scopes|
    ensures var p, s := RunResult(r, db).phase, r.scopes[i];
            && i < |p.verdicts|
            && (p.verdicts[i] == Incomplete(VerifyFailure)
                <==> exists k :: FirstFails(r, s, k) && BlockRejected(r, k))
            && (p.verdicts[i] == Incomplete(DecodeFailure)
                <==> exists k :: FirstFails(r, s, k) && BlockUndecoded(r, k))
  {
    hide RunResult, FirstFailure, FailsAt, BlockRejected, BlockUndecoded;
    FailureShown(r, db, i);
    FirstFailureReason(r, r.scopes[i], |r.stream|);
    forall k | FirstFails(r, r.scopes[i], k) ensures BlockUndecoded(r, k) <==> !BlockRejected(r, k) {
      OneReason(r, r.scopes[i], k);
    }
  }

  lemma OneReason(r: Run, s: Scope, k: nat)
    requires FirstFails(r, s, k)
    ensures BlockUndecoded(r, k) <==> !BlockRejected(r, k)
  {
    hide ReceiptsRejected, EventUndecoded;
    NotBoth(r.env, r.scopes, r.stream[k].facts);
  }

  /** The other reasons: a needed store that failed, when no block of the scope failed and
      everything was read; a failed write of one of its intervals, when nothing else
      failed; missing blocks last of all. */
  lemma OtherReasonsExact(r: Run, db: Tables, i: nat)
    requires i < |r.scopes|
    ensures var p, s, n := RunResult(r, db).phase, r.scopes[i], |r.stream|;
            var clean := !BlockFails(r, s) && !ReadErrorSeen(r.stream, n);
            var written := forall k | 0 <= k < |Seen(r, s)| :: r.covers(i, k).Applied?;
            && i < |p.verdicts|
            && (p.verdicts[i] == Incomplete(SourceFailure) <==> !BlockFails(r, s) && ReadErrorSeen(r.stream, n))
            && (p.verdicts[i] == Incomplete(StoreFailure) <==> clean && StoreFails(r, n))
            && (p.verdicts[i] == Incomplete(CoverageWriteFailed) <==> clean && !StoreFails(r, n) && !written)
            && (p.verdicts[i].Covered? || p.verdicts[i].reason.NoSourceData? <==>
                  clean && !StoreFails(r, n) && written)
  {
    hide RunResult, FirstFailure, StoreFails, ReadErrorSeen, FailingBlock, GapsFrom, Seen;
    VerdictExact(r, db, i);
    FirstFailureIff(r.env, r.scopes, r.scopes[i], r.stream, |r.stream|);
  }

  // ── The first gap ──────────────────────────────────────────────────────────

  ghost predicate BlockSeen(r: Run, s: Scope, n: int) {
    n in BlocksSeen(s, r.stream, |r.stream|)
  }

  lemma FirstGapIs(s: Scope, present: seq<Interval>)
    requires Separated(present) && Within(present, s.from, s.to) && s.from <= s.to < U64_MAX
    ensures match GapVerdict(s, present)
            case Incomplete(NoSourceData(from, to)) =>
              && s.from <= from <= to <= s.to
              && (forall n | s.from <= n < from :: InAny(present, n))
              && (forall n | from <= n <= to :: !InAny(present, n))
              && (to == s.to || InAny(present, to + 1))
            case Incomplete(_) => false
            case Covered => true
  {
    hide GapsFrom, Separated;
    PartitionIff(s.from, s.to, present);
    var gaps := GapsFrom(s.from, s.to, present);
    if gaps != [] {
      var gap := gaps[0];
      GapsMaximal(s.from, s.to, present, gap);
      BeforeFirst(gaps);
      forall n | gap.start <= n <= gap.end ensures InAny(gaps, n) {
        assert In(gaps[0], n);
      }
    }
  }

  lemma BeforeFirst(gaps: seq<Interval>)
    requires gaps != [] && Separated(gaps)
    ensures gaps[0].start <= gaps[0].end && forall n | n < gaps[0].start :: !InAny(gaps, n)
  {
  }

  lemma GapReported(r: Run, db: Tables, i: nat)
    requires i < |r.scopes|
    ensures var p := RunResult(r, db).phase;
            && i < |p.verdicts|
            && (p.verdicts[i].Incomplete? && p.verdicts[i].reason.NoSourceData? ==>
                  p.verdicts[i] == GapVerdict(r.scopes[i], Seen(r, r.scopes[i])))
  {
    hide RunResult, FirstFailure, StoreFails, ReadErrorSeen, FailingBlock, GapVerdict, Seen, WritesApply;
    VerdictExact(r, db, i);
    FirstFailureIff(r.env, r.scopes, r.scopes[i], r.stream, |r.stream|);
  }

  /** A missing sub-range that is reported is the first: all blocks before it arrived,
      none of it did, and it cannot be extended. */
  lemma MissingRangeIsFirst(r: Run, db: Tables, i: nat)
    requires i < |r.scopes| && r.scopes[i].from <= r.scopes[i].to < U64_MAX
    requires NonDescending(BlocksSeen(r.scopes[i], r.stream, |r.stream|))
    ensures var p, s := RunResult(r, db).phase, r.scopes[i];
            && i < |p.verdicts|
            && match p.verdicts[i]
               case Incomplete(NoSourceData(from, to)) =>
                 && s.from <= from <= to <= s.to
                 && (forall n | s.from <= n < from :: BlockSeen(r, s, n))
                 && (forall n | from <= n <= to :: !BlockSeen(r, s, n))
                 && (to == s.to || BlockSeen(r, s, to + 1))
               case _ => true
  {
    hide StoreAll, CoverAll, FinalAcc, Verdicts, Separated, Within, BlocksSeen, NonDescending, PushAll, InAny,
         GapVerdict;
    var s := r.scopes[i];
    var blocks, present := BlocksSeen(s, r.stream, |r.stream|), Seen(r, s);
    GapReported(r, db, i);
    PresentShapeOf(s, r.stream);
    forall n ensures InAny(present, n) <==> n in blocks {
      PresentExact(blocks, n);
    }
    FirstGapIs(s, present);
    var v := RunResult(r, db).phase.verdicts[i];
    if v.Incomplete? && v.reason.NoSourceData? {
      assert v == GapVerdict(s, present);
    }
  }

  // ── What a run records ─────────────────────────────────────────────────────

  /** The scope's k-th interval was written: no failure withholds its coverage, the
      writes before succeeded, and this one was not rolled back. */
  ghost predicate WrittenInterval(r: Run, acc: Acc, i: nat, k: nat)
    requires Sized(r.scopes, acc) && i < |r.scopes|
  {
    Withheld(acc, i).None? && k < |acc.present[i]| && WritesApply(r, i, k) && !r.covers(i, k).RolledBack?
  }

  lemma {:induction false} WriteFromIs(r: Run, acc: Acc, coverage: set<CoveredRange>, i: nat, k: nat, c: CoveredRange)
    requires Sized(r.scopes, acc) && i < |r.scopes| && k <= |acc.present[i]|
    requires Withheld(acc, i).None? && WritesApply(r, i, k)
    ensures c in WriteFrom(r, coverage, i, acc.present[i], k) <==>
            c in coverage
            || exists j :: k <= j < |acc.present[i]| && WrittenInterval(r, acc, i, j)
                           && c == RangeFor(r.scopes[i], acc.present[i][j])
    decreases |acc.present[i]| - k
  {
    hide Withheld, RangeFor;
    var present := acc.present[i];
    if k < |present| {
      var after := if r.covers(i, k).RolledBack? then coverage else coverage + {RangeFor(r.scopes[i], present[k])};
      assert WrittenInterval(r, acc, i, k) <==> !r.covers(i, k).RolledBack?;
      if r.covers(i, k).Applied? {
        WriteFromIs(r, acc, after, i, k + 1, c);
      } else {
        assert forall j | k < j :: !WritesApply(r, i, j) by {
          forall j | k < j ensures !WritesApply(r, i, j) {
            assert !r.covers(i, k).Applied?;
          }
        }
      }
    }
  }

  lemma {:induction false} CoverAllIs(r: Run, acc: Acc, coverage: set<CoveredRange>, n: nat, c: CoveredRange)
    requires Sized(r.scopes, acc) && n <= |r.scopes|
    ensures c in CoverAll(r, acc, coverage, n) <==>
            c in coverage
            || exists i, k :: 0 <= i < n && 0 <= k && WrittenInterval(r, acc, i, k)
                              && c == RangeFor(r.scopes[i], acc.present[i][k])
  {
    hide Withheld, RangeFor, WriteFrom, WritesApply;
    if n > 0 {
      CoverAllIs(r, acc, coverage, n - 1, c);
      if Withheld(acc, n - 1).None? {
        assert WritesApply(r, n - 1, 0) by { NoWriteYet(r, n - 1); }
        WriteFromIs(r, acc, CoverAll(r, acc, coverage, n - 1), n - 1, 0, c);
      }
    }
  }

  lemma NoWriteYet(r: Run, i: nat)
    ensures WritesApply(r, i, 0)
  {
  }

  /** The coverage a run adds: exactly the intervals that were written, as the bounds of
      their first and last block under the scope's contract; rows and contracts apart,
      nothing else changes. */
  lemma CoverageExact(r: Run, db: Tables, c: CoveredRange)
    ensures c in RunResult(r, db).db.coverage <==>
            c in db.coverage
            || exists i, k :: 0 <= i < |r.scopes| && 0 <= k && WrittenInterval(r, FinalAcc(r), i, k)
                              && c == CoveredRange(r.scopes[i].contract, AsI64(FinalAcc(r).present[i][k].start),
                                                   AsI64(FinalAcc(r).present[i][k].end))
  {
    hide Withheld, CoverAll, WritesApply, FinalAcc, StoreAll, VerdictOf, AsI64;
    CoverAllIs(r, FinalAcc(r), db.coverage, |r.scopes|, c);
  }

  // ── What a report lists ────────────────────────────────────────────────────

  /** A report lists as covered exactly the scopes with a covered verdict. */
  lemma {:induction false} CoveredLists(scopes: seq<Scope>, verdicts: seq<Verdict>, name: ScopeLabel)
    requires |verdicts| <= |scopes|
    ensures name in CoveredOf(scopes, verdicts) <==>
            exists i :: 0 <= i < |verdicts| && verdicts[i] == Covered && name == ByAddress(scopes[i].contract)
  {
    if verdicts != [] {
      var n := |verdicts| - 1;
      var before := CoveredOf(scopes, verdicts[..n]);
      CoveredLists(scopes, verdicts[..n], name);
      assert name in CoveredOf(scopes, verdicts) <==>
             name in before || (verdicts[n] == Covered && name == ByAddress(scopes[n].contract));
      assert forall i | 0 <= i < n :: verdicts[..n][i] == verdicts[i];
    }
  }

  /** And as incomplete, with its reason, exactly the scopes with such a verdict. */
  lemma {:induction false} IncompleteLists(scopes: seq<Scope>, verdicts: seq<Verdict>, name: ScopeLabel,
                                           reason: Reason)
    requires |verdicts| <= |scopes|
    ensures (name, reason) in IncompleteOf(scopes, verdicts) <==>
            exists i :: 0 <= i < |verdicts| && verdicts[i] == Incomplete(reason)
                        && name == ByAddress(scopes[i].contract)
  {
    if verdicts != [] {
      var n := |verdicts| - 1;
      var before := IncompleteOf(scopes, verdicts[..n]);
      IncompleteLists(scopes, verdicts[..n], name, reason);
      assert (name, reason) in IncompleteOf(scopes, verdicts) <==>
             (name, reason) in before
             || (verdicts[n] == Incomplete(reason) && name == ByAddress(scopes[n].contract));
      assert forall i | 0 <= i < n :: verdicts[..n][i] == verdicts[i];
    }
  }

  lemma {:induction false} SeenInRange(s: Scope, stream: seq<Item>, pos: nat)
    requires pos <= |stream|
    ensures forall i | 0 <= i < |BlocksSeen(s, stream, pos)| :: ContainsBlock(s, BlocksSeen(s, stream, pos)[i])
  {
    if pos > 0 {
      SeenInRange(s, stream, pos - 1);
    }
  }

  lemma {:induction false} PushAllWithin(blocks: seq<U64>, from: U64, to: U64)
    requires to < U64_MAX
    requires forall i | 0 <= i < |blocks| :: from <= blocks[i] <= to
    ensures Within(PushAll(blocks), from, to)
  {
    if blocks != [] {
      PushAllWithin(blocks[..|blocks| - 1], from, to);
    }
  }

  /** What a scope read, whatever the arrival order, is separated and in range. */
  lemma PresentShapeOf(s: Scope, stream: seq<Item>)
    requires s.to < U64_MAX
    ensures var present := PushAll(BlocksSeen(s, stream, |stream|));
            Separated(present) && Within(present, s.from, s.to)
  {
    hide Separated;
    var blocks := BlocksSeen(s, stream, |stream|);
    SeenInRange(s, stream, |stream|);
    assert forall i | 0 <= i < |blocks| :: s.from <= blocks[i] <= s.to;
    PresentSeparated(blocks);
    PushAllWithin(blocks, s.from, s.to);
  }

  /** A scope reported as covered has exactly its own range recorded, so every
      request inside the scope is answered afterwards. */
  lemma CoveredScopeIsRecorded(env: Env, db: Tables, labels: seq<Label>, i: nat, from: U64, to: U64)
    requires var p := Exec(env, Sys(db, Idle), labels).phase;
             && Reported(p) && i < |p.scopes| && p.verdicts[i] == Covered
             && p.scopes[i].from <= from <= to <= p.scopes[i].to < TWO63
    ensures var s := Exec(env, Sys(db, Idle), labels);
            var scope := s.phase.scopes[i];
            && s.phase.acc.present[i] == [Interval(scope.from, scope.to)]
            && CoveredRange(scope.contract, scope.from, scope.to) in s.db.coverage
            && IsRangeCovered(s.db.coverage, scope.contract, from, to)
  {
    hide Exec, GapsFrom, Separated, Within, BlocksSeen, FirstFailure;
    ExecKeepsReport(env, db, labels);
    var s := Exec(env, Sys(db, Idle), labels);
    var p := s.phase;
    var scope, present := p.scopes[i], p.acc.present[i];
    assert VerdictOk(s.db.coverage, scope, p.acc, i, p.verdicts[i]);
    PresentShapeOf(scope, p.stream);
    NoGapsIff(scope.from, scope.to, present);
    var r := CoveredRange(scope.contract, scope.from, scope.to);
    assert CoveredRange(scope.contract, AsI64(present[0].start), AsI64(present[0].end)) in s.db.coverage;
    assert RangeAnswers(r, from, to);
  }

  /** A scope whose blocks arrived in order is covered exactly when no block of its
      range failed, nothing failed to be read, every store that was needed succeeded,
      all its blocks arrived, and the write of its one interval succeeded. */
  lemma CoveredIffAllArrived(r: Run, db: Tables, i: nat)
    requires i < |r.scopes| && r.scopes[i].from <= r.scopes[i].to < U64_MAX
    requires NonDescending(BlocksSeen(r.scopes[i], r.stream, |r.stream|))
    ensures var p, s := RunResult(r, db).phase, r.scopes[i];
            && i < |p.verdicts|
            && (p.verdicts[i] == Covered <==>
                  && !BlockFails(r, s) && !ReadErrorSeen(r.stream, |r.stream|) && !StoreFails(r, |r.stream|)
                  && r.covers(i, 0).Applied?
                  && forall n | s.from <= n <= s.to :: n in BlocksSeen(s, r.stream, |r.stream|))
  {
    hide RunResult, Separated, Within, BlocksSeen, FirstFailure, NonDescending, PushAll, InAny, StoreFails;
    hide ReadErrorSeen;
    hide GapVerdict, FailingBlock, WritesApply, BlockFails;
    var s := r.scopes[i];
    var blocks, present := BlocksSeen(s, r.stream, |r.stream|), Seen(r, s);
    VerdictExact(r, db, i);
    BlockFailsIff(r, s);
    PresentShapeOf(s, r.stream);
    forall n ensures InAny(present, n) <==> n in blocks {
      PresentExact(blocks, n);
    }
    GapsCover(s, present);
    OneIntervalWhenCovered(s, present);
    OneWrite(r, i);
    GapVerdictKinds(s, present);
  }

  lemma BlockFailsIff(r: Run, s: Scope)
    ensures BlockFails(r, s) <==> FirstFailure(r.env, r.scopes, s, r.stream, |r.stream|).Some?
  {
    hide FirstFailure, FailingBlock;
    FirstFailureIff(r.env, r.scopes, s, r.stream, |r.stream|);
  }

  lemma OneWrite(r: Run, i: nat)
    ensures WritesApply(r, i, 1) <==> r.covers(i, 0).Applied?
  {
  }

  lemma GapVerdictKinds(s: Scope, present: seq<Interval>)
    ensures GapVerdict(s, present) == Covered || GapVerdict(s, present).reason.NoSourceData?
  {
  }

  lemma OneIntervalWhenCovered(s: Scope, present: seq<Interval>)
    requires Separated(present) && Within(present, s.from, s.to) && s.from <= s.to < U64_MAX
    ensures GapVerdict(s, present) == Covered ==> |present| == 1
  {
    hide GapsFrom, Separated, Within;
    NoGapsIff(s.from, s.to, present);
  }

  // ── Every report is a run's ────────────────────────────────────────────────

  lemma {:induction false} ReadAllSame(r: Run, r': Run, n: nat)
    requires r'.env == r.env && r'.scopes == r.scopes && r'.stream == r.stream && n <= |r.stream|
    requires forall k | 0 <= k < n :: r'.stores(k) == r.stores(k)
    ensures ReadAll(r', n) == ReadAll(r, n)
  {
    hide ReadItem;
    if n > 0 {
      ReadAllSame(r, r', n - 1);
    }
  }

  /** The phase is one of the run `r`, whose outcomes are those of the labels. */
  ghost predicate PhaseOf(r: Run, labels: seq<Label>, p: Phase) {
    match p
    case Idle => true
    case Reading(scopes, stream, pos, acc) =>
      && r.scopes == scopes && r.stream == stream && pos <= |stream| && acc == ReadAll(r, pos)
      && StoresFrom(r, labels, pos)
    case Recording(scopes, stream, acc, verdicts, written) =>
      && r.scopes == scopes && r.stream == stream && acc == FinalAcc(r) && StoresFrom(r, labels, |stream|)
      && |verdicts| <= |scopes| && verdicts == Verdicts(r, acc, |verdicts|) && CoversFrom(r, labels)
      && (|verdicts| < |scopes| ==> written <= |acc.present[|verdicts|]| && WritesApply(r, |verdicts|, written))
  }

  ghost predicate StoresFrom(r: Run, labels: seq<Label>, n: nat) {
    forall k | 0 <= k < n :: Read(r.stores(k)) in labels
  }

  /** A coverage write that fails in the run failed in the history. */
  ghost predicate CoversFrom(r: Run, labels: seq<Label>) {
    forall i: nat, k: nat :: r.covers(i, k).Applied? || Record(r.covers(i, k)) in labels
  }

  lemma PhaseKept(r: Run, labels: seq<Label>, l: Label, p: Phase)
    requires PhaseOf(r, labels, p)
    ensures PhaseOf(r, labels + [l], p)
  {
    hide ReadAll, Verdicts, WritesApply;
  }

  lemma ReadIsRun(r: Run, s: Sys, labels: seq<Label>, commit: Commit) returns (r': Run)
    requires PhaseOf(r, labels, s.phase) && s.phase.Reading? && s.phase.pos < |s.phase.stream|
    requires WellSized(s)
    ensures r'.env == r.env && PhaseOf(r', labels + [Read(commit)], Step(r.env, s, Read(commit)).phase)
  {
    hide ReadItem, StoreItem, InitialAcc;
    var pos := s.phase.pos;
    r' := r.(stores := (k: nat) => if k == pos then commit else r.stores(k));
    ReadAllSame(r, r', pos);
    assert ReadAll(r', pos + 1) == ReadItem(r.env, r.scopes, ReadAll(r', pos), r.stream[pos], r'.stores(pos));
  }

  lemma EndIsRun(r: Run, s: Sys, labels: seq<Label>) returns (r': Run)
    requires PhaseOf(r, labels, s.phase) && s.phase.Reading? && s.phase.pos == |s.phase.stream|
    requires WellSized(s)
    ensures r'.env == r.env && PhaseOf(r', labels + [EndOfStream], Step(r.env, s, EndOfStream).phase)
  {
    hide ReadItem, InitialAcc;
    r' := r.(covers := (i, k) => Applied);
    ReadAllSame(r, r', |r.stream|);
    assert Verdicts(r', FinalAcc(r'), 0) == [];
  }

  lemma {:induction false} VerdictsSame(r: Run, r': Run, acc: Acc, n: nat)
    requires r'.scopes == r.scopes && Sized(r.scopes, acc) && n <= |r.scopes|
    requires forall i: nat, k: nat | i < n :: r'.covers(i, k) == r.covers(i, k)
    ensures Verdicts(r', acc, n) == Verdicts(r, acc, n)
  {
    hide GapVerdict, Withheld;
    forall i | 0 <= i < n ensures VerdictOf(r', acc, i) == VerdictOf(r, acc, i) {
      assert WritesApply(r', i, |acc.present[i]|) == WritesApply(r, i, |acc.present[i]|);
    }
  }

  lemma RecordIsRun(r: Run, s: Sys, labels: seq<Label>, commit: Commit) returns (r': Run)
    requires PhaseOf(r, labels, s.phase) && s.phase.Recording? && |s.phase.verdicts| < |s.phase.scopes|
    requires WellSized(s)
    ensures r'.env == r.env && PhaseOf(r', labels + [Record(commit)], Step(r.env, s, Record(commit)).phase)
  {
    hide ReadAll, GapVerdict, Withheld;
    var p := s.phase;
    var idx, written := |p.verdicts|, p.written;
    if Withheld(p.acc, idx) == None && written < |p.acc.present[idx]| {
      r' := r.(covers := (i: nat, k: nat) => if i == idx && k == written then commit else r.covers(i, k));
      ReadAllSame(r, r', |r.stream|);
      VerdictsSame(r, r', p.acc, idx);
      assert r'.covers(idx, written) == commit;
    } else {
      r' := r;
    }
    VerdictsNext(r', p.acc, idx);
  }

  /** Every state of every history is one of a run: each report is the report of a
      run over the same items, whose failed writes are those of the history. */
  lemma {:induction false} ExecIsRun(env: Env, db: Tables, labels: seq<Label>) returns (r: Run)
    ensures r.env == env && PhaseOf(r, labels, Exec(env, Sys(db, Idle), labels).phase)
  {
    hide Step, PhaseOf;
    var start := Sys(db, Idle);
    if labels == [] {
      r := Run(env, [], [], k => Applied, (i, k) => Applied);
      IdleIsRun(r, labels);
    } else {
      var front, l := labels[..|labels| - 1], labels[|labels| - 1];
      var before := ExecIsRun(env, db, front);
      assert labels == front + [l];
      r := StepIsRun(before, Exec(env, start, front), front, l);
    }
  }

  lemma IdleIsRun(r: Run, labels: seq<Label>)
    ensures PhaseOf(r, labels, Idle)
  {
  }

  lemma StepIsRun(r: Run, s: Sys, labels: seq<Label>, l: Label) returns (r': Run)
    requires PhaseOf(r, labels, s.phase) && WellSized(s)
    ensures r'.env == r.env && PhaseOf(r', labels + [l], Step(r.env, s, l).phase)
  {
    hide PhaseOf, RecordStep, ReadItem, StoreItem, InitialAcc;
    r' := r;
    PhaseKept(r, labels, l, s.phase);
    IdleIsRun(r, labels + [l]);
    match l
    case Start(scopes, stream) =>
      if s.phase.Idle? {
        r' := Run(r.env, scopes, stream, r.stores, r.covers);
        StartIsRun(r', labels + [l]);
      }
    case Read(commit) =>
      if s.phase.Reading? && s.phase.pos < |s.phase.stream| {
        r' := ReadIsRun(r, s, labels, commit);
      }
    case EndOfStream =>
      if s.phase.Reading? && s.phase.pos == |s.phase.stream| {
        r' := EndIsRun(r, s, labels);
      }
    case Record(commit) =>
      if s.phase.Recording? && |s.phase.verdicts| < |s.phase.scopes| {
        r' := RecordIsRun(r, s, labels, commit);
      }
    case _ =>
  }

  lemma StartIsRun(r: Run, labels: seq<Label>)
    ensures PhaseOf(r, labels, Reading(r.scopes, r.stream, 0, InitialAcc(|r.scopes|)))
  {
    hide InitialAcc;
  }

  /** A history in which every write is applied reports no failed write. */
  lemma AppliedWritesNeverFail(env: Env, db: Tables, labels: seq<Label>, i: nat)
    requires forall l | l in labels :: (l.Read? || l.Record?) ==> l.commit.Applied?
    requires var p := Exec(env, Sys(db, Idle), labels).phase; Reported(p) && i < |p.scopes|
    ensures var p := Exec(env, Sys(db, Idle), labels).phase;
            p.verdicts[i] !in {Incomplete(StoreFailure), Incomplete(CoverageWriteFailed)}
  {
    hide Exec, ReadErrorSeen, StoreNeeded, FirstFailure, ReadAll, GapsFrom;
    var r := ExecIsRun(env, db, labels);
    var p := Exec(env, Sys(db, Idle), labels).phase;
    assert p.verdicts[i] == VerdictOf(r, FinalAcc(r), i);
    ReadAllIs(r, |r.stream|);
    assert !StoreFails(r, |r.stream|);
    FirstFailureIff(env, r.scopes, r.scopes[i], r.stream, |r.stream|);
    assert WritesApply(r, i, |p.acc.present[i]|);
  }

  lemma GapsCover(s: Scope, present: seq<Interval>)
    requires Separated(present) && Within(present, s.from, s.to) && s.from <= s.to < U64_MAX
    ensures GapVerdict(s, present) == Covered <==> forall n | s.from <= n <= s.to :: InAny(present, n)
  {
    hide GapsFrom, Separated;
    PartitionIff(s.from, s.to, present);
    var gaps := GapsFrom(s.from, s.to, present);
    if gaps == [] {
      forall n | s.from <= n <= s.to ensures InAny(present, n) {
        assert !InAny(gaps, n);
      }
    } else {
      FirstGapInside(gaps, s.from, s.to);
    }
  }

  lemma FirstGapInside(gaps: seq<Interval>, from: U64, to: U64)
    requires gaps != [] && Separated(gaps) && Within(gaps, from, to)
    ensures from <= gaps[0].start <= to && InAny(gaps, gaps[0].start)
  {
    assert In(gaps[0], gaps[0].start);
  }

  // ── Every contract once ────────────────────────────────────────────────────

  function Names(incomplete: seq<(ScopeLabel, Reason)>): seq<ScopeLabel> {
    seq(|incomplete|, i requires 0 <= i < |incomplete| => incomplete[i].0)
  }

  function ScopeNames(scopes: seq<Scope>): seq<ScopeLabel> {
    seq(|scopes|, i requires 0 <= i < |scopes| => ByAddress(scopes[i].contract))
  }

  lemma NamesNext(incomplete: seq<(ScopeLabel, Reason)>, entry: (ScopeLabel, Reason))
    ensures Names(incomplete + [entry]) == Names(incomplete) + [entry.0]
  {
  }

  lemma OneMore(a: seq<ScopeLabel>, b: seq<ScopeLabel>, all: seq<ScopeLabel>, x: ScopeLabel)
    requires multiset(a) + multiset(b) == multiset(all)
    ensures multiset(a + [x]) + multiset(b) == multiset(all + [x])
    ensures multiset(a) + multiset(b + [x]) == multiset(all + [x])
  {
  }

  lemma {:induction false} EachScopeOnce(scopes: seq<Scope>, verdicts: seq<Verdict>)
    requires |verdicts| <= |scopes|
    ensures multiset(CoveredOf(scopes, verdicts)) + multiset(Names(IncompleteOf(scopes, verdicts)))
            == multiset(ScopeNames(scopes)[..|verdicts|])
  {
    hide CoveredOf, IncompleteOf, Names, ScopeNames;
    if verdicts == [] {
      NoVerdicts(scopes);
      NoNames();
      assert ScopeNames(scopes)[..0] == [];
    } else {
      var n := |verdicts| - 1;
      var front, v := verdicts[..n], verdicts[n];
      EachScopeOnce(scopes, front);
      assert verdicts == front + [v];
      CoveredNext(scopes, front, v);
      ScopeNamesAt(scopes, n);
      var covered, incomplete := CoveredOf(scopes, front), IncompleteOf(scopes, front);
      var name := ByAddress(scopes[n].contract);
      assert covered + [] == covered && incomplete + [] == incomplete;
      OneMore(covered, Names(incomplete), ScopeNames(scopes)[..n], name);
      if v.Incomplete? {
        NamesNext(incomplete, (name, v.reason));
      }
    }
  }

  lemma NoNames()
    ensures Names([]) == []
  {
  }

  lemma ScopeNamesAt(scopes: seq<Scope>, n: nat)
    requires n < |scopes|
    ensures |ScopeNames(scopes)| == |scopes|
    ensures ScopeNames(scopes)[..n + 1] == ScopeNames(scopes)[..n] + [ByAddress(scopes[n].contract)]
  {
  }

  /** A configured contract, and the scope it was prepared into, if any. */
  datatype Configured = Configured(address: Address, name: Option<string>, prepared: Option<Scope>)

  predicate PreparedAtAddress(c: Configured) {
    c.prepared.Some? ==> c.prepared.value.contract == c.address
  }

  /** A contract that could not be prepared is reported under its configured name. */
  function NameOf(c: Configured): ScopeLabel {
    if c.prepared.Some? || c.name.None? then ByAddress(c.address) else ByName(c.name.value)
  }

  function AllNames(cs: seq<Configured>): seq<ScopeLabel> {
    seq(|cs|, i requires 0 <= i < |cs| => NameOf(cs[i]))
  }

  function PreparedOf(cs: seq<Configured>): seq<Scope> {
    if cs == [] then []
    else
      var last := cs[|cs| - 1];
      PreparedOf(cs[..|cs| - 1]) + if last.prepared.Some? then [last.prepared.value] else []
  }

  function FailedOf(cs: seq<Configured>): seq<(ScopeLabel, Reason)> {
    if cs == [] then []
    else
      var last := cs[|cs| - 1];
      FailedOf(cs[..|cs| - 1]) + if last.prepared.None? then [(NameOf(last), PreparationFailed)] else []
  }

  lemma ConfiguredNext(front: seq<Configured>, last: Configured)
    ensures PreparedOf(front + [last]) == PreparedOf(front) + if last.prepared.Some? then [last.prepared.value] else []
    ensures FailedOf(front + [last])
            == FailedOf(front) + if last.prepared.None? then [(NameOf(last), PreparationFailed)] else []
  {
    assert (front + [last])[..|front|] == front;
  }

  lemma {:induction false} EachContractOnce(cs: seq<Configured>)
    requires forall i | 0 <= i < |cs| :: PreparedAtAddress(cs[i])
    ensures multiset(ScopeNames(PreparedOf(cs))) + multiset(Names(FailedOf(cs))) == multiset(AllNames(cs))
  {
    if cs != [] {
      hide Names, NameOf, PreparedOf, FailedOf;
      var front, last := cs[..|cs| - 1], cs[|cs| - 1];
      EachContractOnce(front);
      assert cs == front + [last];
      ConfiguredNext(front, last);
      var prepared, failed := PreparedOf(front), FailedOf(front);
      assert AllNames(cs) == AllNames(front) + [NameOf(last)];
      assert prepared + [] == prepared && failed + [] == failed;
      OneMore(ScopeNames(prepared), Names(failed), AllNames(front), NameOf(last));
      if last.prepared.Some? {
        PreparedName(last);
        assert ScopeNames(prepared + [last.prepared.value]) == ScopeNames(prepared) + [NameOf(last)];
      } else {
        NamesNext(failed, (NameOf(last), PreparationFailed));
      }
    }
  }

  /** A contract that could not be prepared is listed as such, under its name if it has one. */
  lemma {:induction false} FailedLists(cs: seq<Configured>, listed: ScopeLabel, reason: Reason)
    ensures (listed, reason) in FailedOf(cs) <==>
            && reason == PreparationFailed
            && exists i :: 0 <= i < |cs| && cs[i].prepared.None?
                           && listed == match cs[i].name
                                       case Some(name) => ByName(name)
                                       case None => ByAddress(cs[i].address)
  {
    if cs != [] {
      var n := |cs| - 1;
      var before := FailedOf(cs[..n]);
      FailedLists(cs[..n], listed, reason);
      assert (listed, reason) in FailedOf(cs) <==>
             (listed, reason) in before
             || (reason == PreparationFailed && cs[n].prepared.None? && listed == NameOf(cs[n]));
      assert forall i | 0 <= i < n :: cs[..n][i] == cs[i];
    }
  }

  lemma PreparedName(c: Configured)
    requires c.prepared.Some? && PreparedAtAddress(c)
    ensures NameOf(c) == ByAddress(c.prepared.value.contract)
  {
  }
}
