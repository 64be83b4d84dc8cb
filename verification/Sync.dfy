/** One indexing run as a small-step machine, and the run loop that follows it. */
module Sync {
  import opened Types
  import opened Abi
  import opened Present
  import opened Storage
  import opened Pipeline

  datatype Reason =
    | PreparationFailed
    | SourceFailure
    | VerifyFailure
    | DecodeFailure
    | StoreFailure
    | CoverageWriteFailed
    | NoSourceData(fromBlock: U64, toBlock: U64)

  /** One item of the block stream: a block's facts, or a read error. */
  datatype Item = Block(facts: Facts) | ReadError

  /** What a run accumulates while it reads. */
  datatype Acc = Acc(
    present: seq<seq<Interval>>,
    ineligible: seq<Option<Reason>>,
    sourceFailed: bool,
    storeFailed: bool,
    total: nat)

  datatype Verdict = Covered | Incomplete(reason: Reason)

  datatype Phase =
    | Idle
    | Reading(scopes: seq<Scope>, stream: seq<Item>, pos: nat, acc: Acc)
    | Recording(scopes: seq<Scope>, stream: seq<Item>, acc: Acc, verdicts: seq<Verdict>, written: nat)

  datatype Sys = Sys(db: Tables, phase: Phase)

  datatype Label =
    | Start(scopes: seq<Scope>, stream: seq<Item>)
    | Read(commit: Commit)
    | EndOfStream
    | Record(commit: Commit)
    | Finish
    | Crash
    | SaveAbi(contract: Address)

  // ── Reading ────────────────────────────────────────────────────────────────

  function FailureOf(o: BlockOutcome): Option<Reason> {
    match o
    case VerifyFailed => Some(VerifyFailure)
    case DecodeFailed(_) => Some(DecodeFailure)
    case _ => None
  }

  function InitialAcc(n: nat): Acc {
    Acc(seq(n, _ => []), seq(n, _ => None), false, false, 0)
  }

  predicate Sized(scopes: seq<Scope>, acc: Acc) {
    |acc.present| == |acc.ineligible| == |scopes|
  }

  function Pushed(s: Scope, ivs: seq<Interval>, n: U64): seq<Interval> {
    if ContainsBlock(s, n) then PushBlock(ivs, n) else ivs
  }

  /** The first failure of a scope is kept. */
  function Marked(s: Scope, reason: Option<Reason>, n: U64, failure: Option<Reason>): Option<Reason> {
    if ContainsBlock(s, n) && reason == None then failure else reason
  }

  function AfterBlock(scopes: seq<Scope>, acc: Acc, n: U64, failure: Option<Reason>): Acc
    requires Sized(scopes, acc)
  {
    acc.(present := seq(|scopes|, i requires 0 <= i < |scopes| => Pushed(scopes[i], acc.present[i], n)),
         ineligible := seq(|scopes|, i requires 0 <= i < |scopes| => Marked(scopes[i], acc.ineligible[i], n, failure)))
  }

  function AfterStore(acc: Acc, events: seq<DecodedEvent>, commit: Commit): Acc {
    if events == [] then acc
    else if commit.Applied? then acc.(total := acc.total + |events|)
    else acc.(storeFailed := true)
  }

  function ReadItem(env: Env, scopes: seq<Scope>, acc: Acc, item: Item, commit: Commit): Acc
    requires Sized(scopes, acc)
  {
    match item
    case ReadError => acc.(sourceFailed := true)
    case Block(f) =>
      var o := Process(env, scopes, f);
      AfterStore(AfterBlock(scopes, acc, f.blockNumber, FailureOf(o)), EventsOf(o), commit)
  }

  function StoreItem(env: Env, scopes: seq<Scope>, t: Table, item: Item, commit: Commit): Table {
    if item.ReadError? || commit.RolledBack? then t
    else InsertRows(t, ToRows(EventsOf(Process(env, scopes, item.facts))))
  }

  // ── Recording ──────────────────────────────────────────────────────────────

  function RunFailure(acc: Acc): Option<Reason> {
    if acc.sourceFailed then Some(SourceFailure)
    else if acc.storeFailed then Some(StoreFailure)
    else None
  }

  function Withheld(acc: Acc, idx: nat): Option<Reason>
    requires idx < |acc.ineligible|
  {
    if acc.ineligible[idx].Some? then acc.ineligible[idx] else RunFailure(acc)
  }

  function GapVerdict(s: Scope, present: seq<Interval>): Verdict {
    var gaps := GapsFrom(s.from, s.to, present);
    if gaps == [] then Covered else Incomplete(NoSourceData(gaps[0].start, gaps[0].end))
  }

  function RecordStep(db: Tables, p: Phase, commit: Commit): Sys
    requires p.Recording? && Sized(p.scopes, p.acc) && |p.verdicts| < |p.scopes|
  {
    var idx := |p.verdicts|;
    var s, present := p.scopes[idx], p.acc.present[idx];
    var withheld := Withheld(p.acc, idx);
    if withheld.Some? then
      Sys(db, p.(verdicts := p.verdicts + [Incomplete(withheld.value)], written := 0))
    else if p.written < |present| then
      var iv := present[p.written];
      var db' := if commit.RolledBack? then db
                 else db.(coverage := db.coverage + {CoveredRange(s.contract, AsI64(iv.start), AsI64(iv.end))});
      if commit.Applied? then Sys(db', p.(written := p.written + 1))
      else Sys(db', p.(verdicts := p.verdicts + [Incomplete(CoverageWriteFailed)], written := 0))
    else
      Sys(db, p.(verdicts := p.verdicts + [GapVerdict(s, present)], written := 0))
  }

  /** Every scope has its verdict: the run is ready to report. */
  predicate Reported(p: Phase) {
    p.Recording? && |p.verdicts| == |p.scopes|
  }

  // ── The machine ────────────────────────────────────────────────────────────

  predicate WellSized(s: Sys) {
    s.phase.Idle? || Sized(s.phase.scopes, s.phase.acc)
  }

  /** One step; a step that is not possible in the current phase does nothing. */
  function Step(env: Env, s: Sys, l: Label): (s': Sys)
    requires WellSized(s)
    ensures WellSized(s')
  {
    var p := s.phase;
    match l
    case Start(scopes, stream) =>
      if p.Idle? then Sys(s.db, Reading(scopes, stream, 0, InitialAcc(|scopes|))) else s
    case Read(commit) =>
      if p.Reading? && p.pos < |p.stream| then
        var item := p.stream[p.pos];
        Sys(s.db.(events := StoreItem(env, p.scopes, s.db.events, item, commit)),
            p.(pos := p.pos + 1, acc := ReadItem(env, p.scopes, p.acc, item, commit)))
      else s
    case EndOfStream =>
      if p.Reading? && p.pos == |p.stream| then Sys(s.db, Recording(p.scopes, p.stream, p.acc, [], 0)) else s
    case Record(commit) =>
      if p.Recording? && |p.verdicts| < |p.scopes| then RecordStep(s.db, p, commit) else s
    case Finish => if Reported(p) then Sys(s.db, Idle) else s
    case Crash => Sys(s.db, Idle)
    case SaveAbi(contract) => Sys(s.db.(contracts := s.db.contracts + {contract}), p)
  }

  function Exec(env: Env, s: Sys, labels: seq<Label>): (s': Sys)
    requires WellSized(s)
    ensures WellSized(s')
  {
    if labels == [] then s
    else Step(env, Exec(env, s, labels[..|labels| - 1]), labels[|labels| - 1])
  }

  lemma ExecNext(env: Env, s: Sys, labels: seq<Label>, l: Label)
    requires WellSized(s)
    ensures Exec(env, s, labels + [l]) == Step(env, Exec(env, s, labels), l)
  {
    assert (labels + [l])[..|labels|] == labels;
  }

  lemma {:induction false} ExecAppend(env: Env, s: Sys, a: seq<Label>, b: seq<Label>)
    requires WellSized(s)
    ensures Exec(env, s, a + b) == Exec(env, Exec(env, s, a), b)
  {
    hide Step, WellSized;
    if b == [] {
      assert a + b == a;
    } else {
      var n := |b| - 1;
      assert (a + b)[..|a + b| - 1] == a + b[..n];
      ExecAppend(env, s, a, b[..n]);
    }
  }

  // ── Reports ────────────────────────────────────────────────────────────────

  /** How a report names a scope: by address, or by its configured name when it
      could not be prepared. */
  datatype ScopeLabel = ByAddress(address: Address) | ByName(name: string)

  datatype SyncReport = SyncReport(total: nat, covered: seq<ScopeLabel>, incomplete: seq<(ScopeLabel, Reason)>)

  function CoveredOf(scopes: seq<Scope>, verdicts: seq<Verdict>): seq<ScopeLabel>
    requires |verdicts| <= |scopes|
  {
    if verdicts == [] then []
    else
      var n := |verdicts| - 1;
      CoveredOf(scopes, verdicts[..n]) + if verdicts[n].Covered? then [ByAddress(scopes[n].contract)] else []
  }

  function IncompleteOf(scopes: seq<Scope>, verdicts: seq<Verdict>): seq<(ScopeLabel, Reason)>
    requires |verdicts| <= |scopes|
  {
    if verdicts == [] then []
    else
      var n := |verdicts| - 1;
      IncompleteOf(scopes, verdicts[..n])
      + if verdicts[n].Incomplete? then [(ByAddress(scopes[n].contract), verdicts[n].reason)] else []
  }

  function ReportOf(p: Phase): SyncReport
    requires Reported(p)
  {
    SyncReport(p.acc.total, CoveredOf(p.scopes, p.verdicts), IncompleteOf(p.scopes, p.verdicts))
  }

  lemma CoveredNext(scopes: seq<Scope>, verdicts: seq<Verdict>, v: Verdict)
    requires |verdicts| < |scopes|
    ensures CoveredOf(scopes, verdicts + [v])
            == CoveredOf(scopes, verdicts) + if v.Covered? then [ByAddress(scopes[|verdicts|].contract)] else []
    ensures IncompleteOf(scopes, verdicts + [v])
            == IncompleteOf(scopes, verdicts)
               + if v.Incomplete? then [(ByAddress(scopes[|verdicts|].contract), v.reason)] else []
  {
    assert (verdicts + [v])[..|verdicts|] == verdicts;
  }

  // ── One run in closed form ─────────────────────────────────────────────────

  /** One run: what it reads, for which scopes, and how its writes end. `stores(k)`
      is how the store of the k-th item's events ends, `covers(i, k)` how the write
      of the i-th scope's k-th interval ends. */
  datatype Run = Run(
    env: Env,
    scopes: seq<Scope>,
    stream: seq<Item>,
    stores: nat -> Commit,
    covers: (nat, nat) -> Commit)

  /** What is accumulated after `n` items. */
  function ReadAll(r: Run, n: nat): (acc: Acc)
    requires n <= |r.stream|
    ensures Sized(r.scopes, acc)
  {
    if n == 0 then InitialAcc(|r.scopes|)
    else ReadItem(r.env, r.scopes, ReadAll(r, n - 1), r.stream[n - 1], r.stores(n - 1))
  }

  function FinalAcc(r: Run): (acc: Acc)
    ensures Sized(r.scopes, acc)
  {
    ReadAll(r, |r.stream|)
  }

  function StoreAll(r: Run, t: Table, n: nat): Table
    requires n <= |r.stream|
  {
    if n == 0 then t
    else StoreItem(r.env, r.scopes, StoreAll(r, t, n - 1), r.stream[n - 1], r.stores(n - 1))
  }

  function RangeFor(s: Scope, iv: Interval): CoveredRange {
    CoveredRange(s.contract, AsI64(iv.start), AsI64(iv.end))
  }

  /** Coverage after writing a scope's intervals from the k-th on, up to the first
      write that reports an error. */
  function WriteFrom(r: Run, coverage: set<CoveredRange>, i: nat, present: seq<Interval>, k: nat): set<CoveredRange>
    requires i < |r.scopes|
    decreases |present| - k
  {
    if k >= |present| then coverage
    else
      var commit := r.covers(i, k);
      var after := if commit.RolledBack? then coverage else coverage + {RangeFor(r.scopes[i], present[k])};
      if commit.Applied? then WriteFrom(r, after, i, present, k + 1) else after
  }

  /** The first `n` interval writes of a scope succeed. */
  predicate WritesApply(r: Run, i: nat, n: nat) {
    forall k | 0 <= k < n :: r.covers(i, k).Applied?
  }

  function VerdictOf(r: Run, acc: Acc, i: nat): Verdict
    requires Sized(r.scopes, acc) && i < |r.scopes|
  {
    if Withheld(acc, i).Some? then Incomplete(Withheld(acc, i).value)
    else if !WritesApply(r, i, |acc.present[i]|) then Incomplete(CoverageWriteFailed)
    else GapVerdict(r.scopes[i], acc.present[i])
  }

  function Verdicts(r: Run, acc: Acc, n: nat): seq<Verdict>
    requires Sized(r.scopes, acc) && n <= |r.scopes|
  {
    seq(n, i requires 0 <= i < n => VerdictOf(r, acc, i))
  }

  function CoverAll(r: Run, acc: Acc, coverage: set<CoveredRange>, n: nat): set<CoveredRange>
    requires Sized(r.scopes, acc) && n <= |r.scopes|
  {
    if n == 0 then coverage
    else
      var before := CoverAll(r, acc, coverage, n - 1);
      if Withheld(acc, n - 1).Some? then before else WriteFrom(r, before, n - 1, acc.present[n - 1], 0)
  }

  function RecordedPhase(r: Run, n: nat): Phase
    requires n <= |r.scopes|
  {
    Recording(r.scopes, r.stream, FinalAcc(r), Verdicts(r, FinalAcc(r), n), 0)
  }

  /** Tables and phase at the end of the run. */
  function RunResult(r: Run, db: Tables): Sys {
    Sys(Tables(StoreAll(r, db.events, |r.stream|), CoverAll(r, FinalAcc(r), db.coverage, |r.scopes|), db.contracts),
        RecordedPhase(r, |r.scopes|))
  }

  // ── The run's steps ────────────────────────────────────────────────────────

  function ReadLabels(r: Run, n: nat): seq<Label> {
    seq(n, k requires 0 <= k < n => Read(r.stores(k)))
  }

  /** The writes of a scope from the k-th of its `n` intervals on; after the last
      one that succeeds, the step that decides the verdict. */
  function WriteLabels(r: Run, i: nat, k: nat, n: nat): seq<Label>
    decreases n - k
  {
    if k >= n then [Record(Applied)]
    else if r.covers(i, k).Applied? then [Record(Applied)] + WriteLabels(r, i, k + 1, n)
    else [Record(r.covers(i, k))]
  }

  function ScopeLabels(r: Run, acc: Acc, i: nat): seq<Label>
    requires i < |acc.present| == |acc.ineligible|
  {
    if Withheld(acc, i).Some? then [Record(Applied)] else WriteLabels(r, i, 0, |acc.present[i]|)
  }

  function RecordLabels(r: Run, acc: Acc, n: nat): seq<Label>
    requires n <= |acc.present| == |acc.ineligible|
  {
    if n == 0 then [] else RecordLabels(r, acc, n - 1) + ScopeLabels(r, acc, n - 1)
  }

  /** The machine's steps during the run, with the outcomes of its writes. */
  function RunLabels(r: Run): seq<Label> {
    [Start(r.scopes, r.stream)] + ReadLabels(r, |r.stream|) + [EndOfStream]
    + RecordLabels(r, FinalAcc(r), |r.scopes|)
  }

  lemma {:induction false} ReadsExec(r: Run, db: Tables, n: nat)
    requires n <= |r.stream|
    ensures Exec(r.env, Sys(db, Reading(r.scopes, r.stream, 0, InitialAcc(|r.scopes|))), ReadLabels(r, n))
            == Sys(db.(events := StoreAll(r, db.events, n)), Reading(r.scopes, r.stream, n, ReadAll(r, n)))
  {
    hide Exec, ReadItem, StoreItem, InitialAcc;
    var start := Sys(db, Reading(r.scopes, r.stream, 0, InitialAcc(|r.scopes|)));
    assert Sized(r.scopes, InitialAcc(|r.scopes|)) by { assert ReadAll(r, 0) == InitialAcc(|r.scopes|); }
    if n == 0 {
      ExecNone(r.env, start);
      assert ReadLabels(r, 0) == [];
    } else {
      ReadsExec(r, db, n - 1);
      assert ReadLabels(r, n) == ReadLabels(r, n - 1) + [Read(r.stores(n - 1))];
      ExecNext(r.env, start, ReadLabels(r, n - 1), Read(r.stores(n - 1)));
    }
  }

  /** Writing one scope's intervals and deciding its verdict. */
  lemma {:induction false} WritesExec(r: Run, db: Tables, acc: Acc, verdicts: seq<Verdict>, k: nat)
    requires Sized(r.scopes, acc) && |verdicts| < |r.scopes|
    requires Withheld(acc, |verdicts|) == None && k <= |acc.present[|verdicts|]|
    requires WritesApply(r, |verdicts|, k)
    ensures var i := |verdicts|;
            var present := acc.present[i];
            Exec(r.env, Sys(db, Recording(r.scopes, r.stream, acc, verdicts, k)), WriteLabels(r, i, k, |present|))
            == Sys(db.(coverage := WriteFrom(r, db.coverage, i, present, k)),
                   Recording(r.scopes, r.stream, acc, verdicts + [VerdictOf(r, acc, i)], 0))
    decreases |acc.present[|verdicts|]| - k
  {
    hide Exec, GapVerdict, Withheld;
    var i := |verdicts|;
    var present, s := acc.present[i], Sys(db, Recording(r.scopes, r.stream, acc, verdicts, k));
    if k == |present| {
      ExecOne(r.env, s, Record(Applied));
    } else {
      var l := Record(r.covers(i, k));
      ExecOne(r.env, s, l);
      if r.covers(i, k).Applied? {
        var db' := db.(coverage := db.coverage + {RangeFor(r.scopes[i], present[k])});
        assert Step(r.env, s, l) == Sys(db', Recording(r.scopes, r.stream, acc, verdicts, k + 1));
        WritesExec(r, db', acc, verdicts, k + 1);
        ExecAppend(r.env, s, [l], WriteLabels(r, i, k + 1, |present|));
      }
    }
  }

  lemma ExecOne(env: Env, s: Sys, l: Label)
    requires WellSized(s)
    ensures Exec(env, s, [l]) == Step(env, s, l)
  {
    hide Step;
    ExecNone(env, s);
    ExecNext(env, s, [], l);
    assert [] + [l] == [l];
  }

  lemma VerdictsNext(r: Run, acc: Acc, n: nat)
    requires Sized(r.scopes, acc) && n < |r.scopes|
    ensures Verdicts(r, acc, n + 1) == Verdicts(r, acc, n) + [VerdictOf(r, acc, n)]
  {
  }

  lemma {:induction false} RecordsExec(r: Run, db: Tables, acc: Acc, n: nat)
    requires Sized(r.scopes, acc) && n <= |r.scopes|
    ensures Exec(r.env, Sys(db, Recording(r.scopes, r.stream, acc, [], 0)), RecordLabels(r, acc, n))
            == Sys(db.(coverage := CoverAll(r, acc, db.coverage, n)),
                   Recording(r.scopes, r.stream, acc, Verdicts(r, acc, n), 0))
  {
    hide Exec, VerdictOf, WriteLabels, WriteFrom, Step;
    var start := Sys(db, Recording(r.scopes, r.stream, acc, [], 0));
    if n == 0 {
      ExecNone(r.env, start);
      assert Verdicts(r, acc, 0) == [];
    } else {
      RecordsExec(r, db, acc, n - 1);
      var before := Verdicts(r, acc, n - 1);
      var mid := db.(coverage := CoverAll(r, acc, db.coverage, n - 1));
      ExecAppend(r.env, start, RecordLabels(r, acc, n - 1), ScopeLabels(r, acc, n - 1));
      VerdictsNext(r, acc, n - 1);
      if Withheld(acc, n - 1).Some? {
        WithheldStep(r, mid, acc, before);
      } else {
        WritesExec(r, mid, acc, before, 0);
      }
    }
  }

  lemma WithheldStep(r: Run, db: Tables, acc: Acc, verdicts: seq<Verdict>)
    requires Sized(r.scopes, acc) && |verdicts| < |r.scopes| && Withheld(acc, |verdicts|).Some?
    ensures Exec(r.env, Sys(db, Recording(r.scopes, r.stream, acc, verdicts, 0)), [Record(Applied)])
            == Sys(db, Recording(r.scopes, r.stream, acc, verdicts + [VerdictOf(r, acc, |verdicts|)], 0))
  {
    hide Exec, Withheld;
    ExecOne(r.env, Sys(db, Recording(r.scopes, r.stream, acc, verdicts, 0)), Record(Applied));
  }

  /** The closed form is what the machine computes along the run's steps. */
  lemma RunIsExec(r: Run, db: Tables)
    ensures Exec(r.env, Sys(db, Idle), RunLabels(r)) == RunResult(r, db)
  {
    hide Exec, ReadAll, StoreAll, CoverAll, Verdicts, ReadLabels, RecordLabels, InitialAcc, FinalAcc;
    var idle, acc := Sys(db, Idle), FinalAcc(r);
    var start, middle := [Start(r.scopes, r.stream)], ReadLabels(r, |r.stream|);
    var records := RecordLabels(r, acc, |r.scopes|);
    var db' := db.(events := StoreAll(r, db.events, |r.stream|));
    ExecOne(r.env, idle, start[0]);
    ExecAppend(r.env, idle, start, middle);
    ReadsExec(r, db, |r.stream|);
    assert acc == ReadAll(r, |r.stream|) by { FinalAccIs(r); }
    ExecNext(r.env, idle, start + middle, EndOfStream);
    ExecAppend(r.env, idle, start + middle + [EndOfStream], records);
    RecordsExec(r, db', acc, |r.scopes|);
  }

  lemma FinalAccIs(r: Run)
    ensures FinalAcc(r) == ReadAll(r, |r.stream|)
  {
  }

  /** One start, then no other start. */
  ghost predicate OneStart(labels: seq<Label>, scopes: seq<Scope>, stream: seq<Item>) {
    labels != [] && labels[0] == Start(scopes, stream) && forall i | 1 <= i < |labels| :: !labels[i].Start?
  }

  ghost predicate OnlyRecords(labels: seq<Label>) {
    forall i | 0 <= i < |labels| :: labels[i].Record?
  }

  lemma {:induction false} WriteLabelsRecord(r: Run, i: nat, k: nat, n: nat)
    ensures OnlyRecords(WriteLabels(r, i, k, n))
    decreases n - k
  {
    if k < n && r.covers(i, k).Applied? {
      WriteLabelsRecord(r, i, k + 1, n);
    }
  }

  lemma {:induction false} RecordLabelsRecord(r: Run, acc: Acc, n: nat)
    requires n <= |acc.present| == |acc.ineligible|
    ensures OnlyRecords(RecordLabels(r, acc, n))
  {
    if n > 0 {
      RecordLabelsRecord(r, acc, n - 1);
      WriteLabelsRecord(r, n - 1, 0, |acc.present[n - 1]|);
    }
  }

  lemma RunStartsOnce(r: Run)
    ensures OneStart(RunLabels(r), r.scopes, r.stream)
  {
    hide RecordLabels, FinalAcc;
    RecordLabelsRecord(r, FinalAcc(r), |r.scopes|);
  }

  // ── The run loop ───────────────────────────────────────────────────────────

  /** Updates every scope that contains the block, in place. */
  method MarkScopes(scopes: seq<Scope>, scopePresent: array<seq<Interval>>, scopeIneligible: array<Option<Reason>>,
                    block: U64, failure: Option<Reason>, ghost acc: Acc)
    requires scopePresent.Length == scopeIneligible.Length == |scopes|
    requires acc.present == scopePresent[..] && acc.ineligible == scopeIneligible[..]
    modifies scopePresent, scopeIneligible
    ensures scopePresent[..] == AfterBlock(scopes, acc, block, failure).present
    ensures scopeIneligible[..] == AfterBlock(scopes, acc, block, failure).ineligible
  {
    hide PushBlock;
    for idx := 0 to |scopes|
      invariant forall i | 0 <= i < idx :: scopePresent[i] == Pushed(scopes[i], acc.present[i], block)
      invariant forall i | 0 <= i < idx :: scopeIneligible[i] == Marked(scopes[i], acc.ineligible[i], block, failure)
      invariant forall i | idx <= i < |scopes| :: scopePresent[i] == acc.present[i]
      invariant forall i | idx <= i < |scopes| :: scopeIneligible[i] == acc.ineligible[i]
    {
      if ContainsBlock(scopes[idx], block) {
        PushPresentBlock(scopePresent, idx, block);
        if failure.Some? && scopeIneligible[idx] == None {
          scopeIneligible[idx] := failure;
        }
      }
    }
  }

  lemma ExecNone(env: Env, s: Sys)
    requires WellSized(s)
    ensures Exec(env, s, []) == s
  {
  }

  lemma RowsNonempty(events: seq<DecodedEvent>)
    ensures ToRows(events) == [] <==> events == []
  {
  }

  lemma NoRows(t: Table)
    ensures InsertRows(t, ToRows([])) == t
  {
    assert ToRows([]) == [];
  }

  /** The recording half of the run loop. */
  method RecordScopes(run: Run, acc: Acc, db: Db)
    returns (covered: seq<ScopeLabel>, incomplete: seq<(ScopeLabel, Reason)>)
    requires Sized(run.scopes, acc)
    modifies db
    ensures db.events == old(db.events) && db.contracts == old(db.contracts)
    ensures db.coverage == CoverAll(run, acc, old(db.coverage), |run.scopes|)
    ensures covered == CoveredOf(run.scopes, Verdicts(run, acc, |run.scopes|))
    ensures incomplete == IncompleteOf(run.scopes, Verdicts(run, acc, |run.scopes|))
  {
    hide GapsFrom, CoveredOf, IncompleteOf, Verdicts;
    covered, incomplete := [], [];
    NoVerdicts(run.scopes);
    assert Verdicts(run, acc, 0) == [] by { VerdictsLength(run, acc, 0); }
    var runFailure := RunFailure(acc);
    for idx := 0 to |run.scopes|
      invariant db.events == old(db.events) && db.contracts == old(db.contracts)
      invariant db.coverage == CoverAll(run, acc, old(db.coverage), idx)
      invariant |Verdicts(run, acc, idx)| == idx
      invariant covered == CoveredOf(run.scopes, Verdicts(run, acc, idx))
      invariant incomplete == IncompleteOf(run.scopes, Verdicts(run, acc, idx))
    {
      var scope := run.scopes[idx];
      VerdictsLength(run, acc, idx + 1);
      VerdictsNext(run, acc, idx);
      CoveredNext(run.scopes, Verdicts(run, acc, idx), VerdictOf(run, acc, idx));
      var reason := if acc.ineligible[idx].Some? then acc.ineligible[idx] else runFailure;
      if reason.Some? {
        incomplete := incomplete + [(ByAddress(scope.contract), reason.value)];
        continue;
      }

      var present := acc.present[idx];
      var writeFailed := false;
      ghost var before := db.coverage;
      var k := 0;
      while k < |present| && !writeFailed
        invariant db.events == old(db.events) && db.contracts == old(db.contracts)
        invariant 0 <= k <= |present| && WritesApply(run, idx, k)
        invariant writeFailed ==> k < |present| && !run.covers(idx, k).Applied?
        invariant WriteFrom(run, before, idx, present, 0)
                  == if writeFailed then db.coverage else WriteFrom(run, db.coverage, idx, present, k)
        invariant incomplete == IncompleteOf(run.scopes, Verdicts(run, acc, idx))
                                + if writeFailed then [(ByAddress(scope.contract), CoverageWriteFailed)] else []
        decreases |present| - k, !writeFailed
      {
        var ok := db.RecordCoveredRange(scope.contract, present[k].start, present[k].end, run.covers(idx, k));
        if ok {
          k := k + 1;
        } else {
          incomplete := incomplete + [(ByAddress(scope.contract), CoverageWriteFailed)];
          writeFailed := true;
        }
      }
      if writeFailed {
        continue;
      }

      var missing := MissingSubranges(scope.from, scope.to, present);
      if missing == [] {
        covered := covered + [ByAddress(scope.contract)];
      } else {
        incomplete := incomplete + [(ByAddress(scope.contract), NoSourceData(missing[0].start, missing[0].end))];
      }
    }
  }

  lemma VerdictsLength(r: Run, acc: Acc, n: nat)
    requires Sized(r.scopes, acc) && n <= |r.scopes|
    ensures |Verdicts(r, acc, n)| == n
  {
    hide VerdictOf;
  }

  lemma NoVerdicts(scopes: seq<Scope>)
    ensures CoveredOf(scopes, []) == [] && IncompleteOf(scopes, []) == []
  {
  }

  /** The run loop leaves the tables and gives the report of the closed form: every
      store and every coverage write is made, in order, with its own outcome. */
  method RunPreparedScopes(run: Run, db: Db) returns (report: SyncReport)
    requires forall i | 0 <= i < |run.stream| && run.stream[i].Block? :: |run.stream[i].facts.receipts| < TWO64
    modifies db
    ensures db.Contents() == RunResult(run, old(db.Contents())).db
    ensures report == ReportOf(RunResult(run, old(db.Contents())).phase)
  {
    hide Process, CoveredOf, IncompleteOf, VerdictOf, CoverAll, InsertRows, PushBlock, GapsFrom, Pushed, Marked;
    var scopes, stream := run.scopes, run.stream;
    var totalEvents: nat := 0;
    var hadSourceFailure, hadStoreFailure := false, false;
    var scopeIneligible := new Option<Reason>[|scopes|](_ => None);
    var scopePresent := new seq<Interval>[|scopes|](_ => []);
    assert scopeIneligible[..] == InitialAcc(|scopes|).ineligible;
    assert scopePresent[..] == InitialAcc(|scopes|).present;

    for pos := 0 to |stream|
      invariant fresh(scopePresent) && fresh(scopeIneligible)
      invariant db.coverage == old(db.coverage) && db.contracts == old(db.contracts)
      invariant db.events == StoreAll(run, old(db.events), pos)
      invariant ReadAll(run, pos)
                == Acc(scopePresent[..], scopeIneligible[..], hadSourceFailure, hadStoreFailure, totalEvents)
    {
      ghost var acc := ReadAll(run, pos);
      match stream[pos] {
        case ReadError =>
          hadSourceFailure := true;
        case Block(facts) =>
          var outcome := ProcessBlock(run.env, scopes, facts);
          MarkScopes(scopes, scopePresent, scopeIneligible, facts.blockNumber, FailureOf(outcome), acc);
          var stored := StoreBlock(db, EventsOf(outcome), run.stores(pos));
          if stored {
            totalEvents := totalEvents + |EventsOf(outcome)|;
          } else {
            hadStoreFailure := true;
          }
      }
    }

    var acc := Acc(scopePresent[..], scopeIneligible[..], hadSourceFailure, hadStoreFailure, totalEvents);
    VerdictsLength(run, acc, |scopes|);
    var covered, incomplete := RecordScopes(run, acc, db);
    report := SyncReport(totalEvents, covered, incomplete);
  }

  /** The sink is called only when the block has events. */
  method StoreBlock(db: Db, events: seq<DecodedEvent>, commit: Commit) returns (ok: bool)
    modifies db
    ensures ok <==> events == [] || commit.Applied?
    ensures db.coverage == old(db.coverage) && db.contracts == old(db.contracts)
    ensures db.events == if commit.RolledBack? then old(db.events) else InsertRows(old(db.events), ToRows(events))
  {
    hide InsertRows, ToRows;
    NoRows(db.events);
    if events == [] {
      return true;
    }
    RowsNonempty(events);
    ok := db.InsertEvents(ToRows(events), commit);
  }
}
