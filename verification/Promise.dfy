/** The promise end to end: once a run reports a scope as covered, every later
    query inside the scope is answered with exactly the chain's logs. */
module Promise {
  import opened Types
  import opened Storage
  import opened Pipeline
  import opened Sync
  import opened History
  import Reports

  function Start(): Sys {
    Sys(Tables(map[], {}, {}), Idle)
  }

  // ── Histories in parts ─────────────────────────────────────────────────────

  /** Coverage and contracts are never taken back. */
  ghost predicate Grown(before: Tables, after: Tables) {
    before.coverage <= after.coverage && before.contracts <= after.contracts && before.events.Keys <= after.events.Keys
  }

  lemma {:induction false} InsertGrows(t: Table, rows: seq<Row>)
    ensures t.Keys <= InsertRows(t, rows).Keys
  {
    if rows != [] {
      InsertGrows(t, rows[..|rows| - 1]);
    }
  }

  lemma StepGrows(env: Env, s: Sys, l: Label)
    requires WellSized(s)
    ensures Grown(s.db, Step(env, s, l).db)
  {
    hide Process, ReadItem, GapVerdict, InsertRows;
    if l.Read? && s.phase.Reading? && s.phase.pos < |s.phase.stream| && s.phase.stream[s.phase.pos].Block? {
      InsertGrows(s.db.events, ToRows(EventsOf(Process(env, s.phase.scopes, s.phase.stream[s.phase.pos].facts))));
    }
  }

  lemma {:induction false} TablesGrow(env: Env, s: Sys, labels: seq<Label>)
    requires WellSized(s)
    ensures Grown(s.db, Exec(env, s, labels).db)
  {
    hide Step, WellSized;
    if labels != [] {
      var front := labels[..|labels| - 1];
      TablesGrow(env, s, front);
      StepGrows(env, Exec(env, s, front), labels[|labels| - 1]);
    }
  }

  /** The steps the run loop makes extend a good history to a good history. */
  lemma RunExtendsHistory(w: World, before: seq<Label>, run: seq<Label>, scopes: seq<Scope>, stream: seq<Item>)
    requires GoodHistory(w, before) && OneStart(run, scopes, stream)
    requires GoodScopes(w, scopes) && HonestStream(w, stream)
    ensures GoodHistory(w, before + run)
  {
    hide GoodScopes, HonestStream;
    var labels := before + run;
    forall i | 0 <= i < |labels| && labels[i].Start?
      ensures GoodScopes(w, labels[i].scopes) && HonestStream(w, labels[i].stream)
    {
      if i < |before| {
        assert labels[i] == before[i];
      } else {
        assert labels[i] == run[i - |before|];
      }
    }
  }

  /** A history may go on without losing what is known of its parts. */
  lemma NamesFitPrefix(w: World, labels: seq<Label>, later: seq<Label>, q: EventQuery)
    requires PlainRange(q) && NamesFit(w, labels + later, q)
    ensures NamesFit(w, labels, q)
  {
    hide NamedScopes;
  }

  lemma GoodPrefix(w: World, labels: seq<Label>, later: seq<Label>)
    requires GoodHistory(w, labels + later)
    ensures GoodHistory(w, labels)
  {
    hide GoodScopes, HonestStream;
    assert forall i | 0 <= i < |labels| :: (labels + later)[i] == labels[i];
  }

  // ── Covered means answered ─────────────────────────────────────────────────

  /** A plain range query inside scope `i` of a run that reports it covered. */
  ghost predicate InsideCovered(p: Phase, i: nat, q: EventQuery) {
    && Reported(p) && i < |p.scopes| && p.verdicts[i] == Covered
    && PlainRange(q) && q.contract.value == p.scopes[i].contract
    && p.scopes[i].from <= q.fromBlock.value <= q.toBlock.value <= p.scopes[i].to < TWO63
  }

  ghost predicate Exact(w: World, q: EventQuery, o: Outcome)
    requires PlainRange(q)
  {
    Answers(o) && RawAll(RowsOf(o)) == AnswerFor(w, EverAsked(w, q), q)
  }

  /** Once a run reports a scope as covered, every query inside it is answered with
      exactly the chain's logs, then and ever after: whatever runs, failures and
      crashes follow, the answer is never refused and never changes. */
  lemma CoveredScopeStaysExact(w: World, labels: seq<Label>, later: seq<Label>, i: nat, q: EventQuery, rows: seq<Row>)
    requires HonestChain(w) && GoodHistory(w, labels + later)
    requires InsideCovered(Exec(w.env, Start(), labels).phase, i, q)
    requires q.contract.value in Exec(w.env, Start(), labels).db.contracts
    requires NamesFit(w, labels + later, q) && AlwaysAsked(w, q) == EverAsked(w, q)
    requires |rows| < TWO63 && IsSelect(Exec(w.env, Start(), labels + later).db.events, q, rows)
    ensures Exact(w, q, QueryEvents(Exec(w.env, Start(), labels + later).db, q, rows))
  {
    hide Exec, HonestChain, GoodHistory, IsSelect, ChainAnswer, AlwaysAsked, EverAsked, RawAll, Limited, NamesFit;
    var c, from, to := q.contract.value, q.fromBlock.value, q.toBlock.value;
    var s, s' := Exec(w.env, Start(), labels), Exec(w.env, Start(), labels + later);
    Reports.CoveredScopeIsRecorded(w.env, Start().db, labels, i, from, to);
    ExecAppend(w.env, Start(), labels, later);
    TablesGrow(w.env, s, later);
    StillCovered(s.db.coverage, s'.db.coverage, c, from, to);
    CoveredAnswersAreExact(w, labels + later, q, rows);
    WholeSelect(q, rows);
  }

  lemma StillCovered(before: set<CoveredRange>, after: set<CoveredRange>, contract: Address, from: U64, to: U64)
    requires before <= after && IsRangeCovered(before, contract, from, to)
    ensures IsRangeCovered(after, contract, from, to)
  {
    var r :| r in before && r.contract == contract && RangeAnswers(r, from, to);
    assert r in after;
  }

  // ── Reads while a run goes on ──────────────────────────────────────────────

  /** The outcome of a query whose three reads happened one after another: the
      contract table, the coverage table, and the SELECT that gave `rows`. */
  function QueryAcross(contracts: set<Address>, coverage: set<CoveredRange>, q: EventQuery, rows: seq<Row>): Outcome {
    QueryEvents(Tables(map[], coverage, contracts), q, rows)
  }

  predicate CoversQuery(coverage: set<CoveredRange>, q: EventQuery)
    requires PlainRange(q)
  {
    IsRangeCovered(coverage, q.contract.value, q.fromBlock.value, q.toBlock.value)
  }

  lemma SelectLater(w: World, labels: seq<Label>, later: seq<Label>, q: EventQuery, rows: seq<Row>)
    requires HonestChain(w) && GoodHistory(w, labels + later) && PlainRange(q)
    requires NamesFit(w, labels + later, q) && AlwaysAsked(w, q) == EverAsked(w, q)
    requires CoversQuery(Exec(w.env, Start(), labels).db.coverage, q)
    requires IsSelect(Exec(w.env, Start(), labels + later).db.events, q, rows)
    ensures RawAll(rows) == AnswerFor(w, EverAsked(w, q), q)
  {
    hide Exec, HonestChain, GoodHistory, IsSelect, AnswerFor, AlwaysAsked, EverAsked, RawAll, NamesFit, IsRangeCovered;
    var s, s' := Exec(w.env, Start(), labels), Exec(w.env, Start(), labels + later);
    ExecAppend(w.env, Start(), labels, later);
    TablesGrow(w.env, s, later);
    StillCovered(s.db.coverage, s'.db.coverage, q.contract.value, q.fromBlock.value, q.toBlock.value);
    CoveredSelect(w, labels + later, q, rows);
  }

  /** A query reads the contracts, then the coverage, then the rows, and a run may go
      on in between: it is still refused or answered with exactly the chain's logs. */
  lemma AnswersAcrossSteps(w: World, labels: seq<Label>, mid: seq<Label>, later: seq<Label>, q: EventQuery,
                           rows: seq<Row>)
    requires HonestChain(w) && GoodHistory(w, labels + mid + later) && PlainRange(q) && |rows| < TWO63
    requires NamesFit(w, labels + mid + later, q) && AlwaysAsked(w, q) == EverAsked(w, q)
    requires IsSelect(Exec(w.env, Start(), labels + mid + later).db.events, q, rows)
    ensures var contracts := Exec(w.env, Start(), labels).db.contracts;
            var coverage := Exec(w.env, Start(), labels + mid).db.coverage;
            var o := QueryAcross(contracts, coverage, q, rows);
            || o == NotIndexed
            || o == MissingCoverage(q.contract.value, q.fromBlock.value, q.toBlock.value)
            || Exact(w, q, o)
  {
    hide Exec, HonestChain, GoodHistory, IsSelect, AnswerFor, AlwaysAsked, EverAsked, RawAll, NamesFit, IsRangeCovered;
    WholeSelect(q, rows);
    if CoversQuery(Exec(w.env, Start(), labels + mid).db.coverage, q) {
      SelectLater(w, labels + mid, later, q, rows);
    }
  }

  // ── Pages ──────────────────────────────────────────────────────────────────

  lemma RawSlice(rows: seq<Row>, a: nat, b: nat)
    requires a <= b <= |rows|
    ensures RawAll(rows[a..b]) == RawAll(rows)[a..b] && |RawAll(rows)| == |rows|
  {
  }

  lemma RawConcat(a: seq<Row>, b: seq<Row>)
    ensures RawAll(a + b) == RawAll(a) + RawAll(b)
  {
  }

  lemma TwoRawCuts(s: seq<RawLog>, a: nat, b: nat)
    requires a <= b <= |s|
    ensures s[..a] + s[a..b] == s[..b]
  {
  }

  /** The k-th page is the k-th slice of the chain's answer. */
  lemma PageIsSlice(q: EventQuery, size: U64, k: nat, rows: seq<Row>, expected: seq<RawLog>)
    requires 1 <= size < HARD_CAP && Skip(size, k) + size < TWO63 && RawAll(rows) == expected
    ensures RawAll(RowsOf(Limited(PageQuery(q, size, k), rows)))
            == expected[Min(Skip(size, k), |expected|)..Min(Skip(size, k) + size, |expected|)]
  {
    hide RawAll, Skip, Limited;
    OnePage(q, size, k, rows);
    RawSlice(rows, Min(Skip(size, k), |rows|), Min(Skip(size, k) + size, |rows|));
  }

  /** Page after page is the chain's answer from its start. */
  lemma {:induction false} RawPages(q: EventQuery, size: U64, answers: seq<seq<Row>>, expected: seq<RawLog>)
    requires 1 <= size < HARD_CAP && Skip(size, |answers|) < TWO63
    requires forall k | 0 <= k < |answers| :: RawAll(answers[k]) == expected
    ensures RawAll(Pages(q, size, answers)) == expected[..Min(Skip(size, |answers|), |expected|)]
  {
    hide RawAll, Limited, RowsOf, PageQuery;
    if answers == [] {
      NoPages(q, size);
    } else {
      hide Skip;
      var k := |answers| - 1;
      SkipNext(size, k);
      RawPages(q, size, answers[..k], expected);
      PageIsSlice(q, size, k, answers[k], expected);
      RawConcat(Pages(q, size, answers[..k]), RowsOf(Limited(PageQuery(q, size, k), answers[k])));
      TwoRawCuts(expected, Min(Skip(size, k), |expected|), Min(Skip(size, |answers|), |expected|));
    }
  }

  lemma NoPages(q: EventQuery, size: U64)
    ensures Skip(size, 0) == 0 && Pages(q, size, []) == [] && RawAll([]) == []
  {
  }

  /** Reading a covered range page by page, while runs go on between the pages and
      with any page size below the cap, gives the chain's logs once each, in order:
      no page is refused, and together they are the answer from its start. */
  lemma PagesAreTheChain(w: World, labels: seq<Label>, steps: seq<seq<Label>>, q: EventQuery, size: U64,
                         answers: seq<seq<Row>>)
    requires HonestChain(w) && PlainRange(q) && AlwaysAsked(w, q) == EverAsked(w, q)
    requires 1 <= size < HARD_CAP && Skip(size, |answers|) < TWO63 && |steps| == |answers|
    requires q.contract.value in Exec(w.env, Start(), labels).db.contracts
    requires CoversQuery(Exec(w.env, Start(), labels).db.coverage, q)
    requires forall k | 0 <= k < |steps| ::
               && GoodHistory(w, labels + steps[k]) && NamesFit(w, labels + steps[k], q)
               && IsSelect(Exec(w.env, Start(), labels + steps[k]).db.events, q, answers[k])
    ensures var expected := AnswerFor(w, EverAsked(w, q), q);
            RawAll(Pages(q, size, answers)) == expected[..Min(Skip(size, |answers|), |expected|)]
    ensures forall k | 0 <= k < |steps| && Skip(size, k) < TWO63 ::
              QueryEvents(Exec(w.env, Start(), labels + steps[k]).db, PageQuery(q, size, k), answers[k])
              == Limited(PageQuery(q, size, k), answers[k])
  {
    hide Exec, HonestChain, GoodHistory, IsSelect, AnswerFor, AlwaysAsked, EverAsked, RawAll, NamesFit, IsRangeCovered;
    hide Skip, Limited, Pages;
    forall k | 0 <= k < |steps|
      ensures RawAll(answers[k]) == AnswerFor(w, EverAsked(w, q), q)
      ensures CoversQuery(Exec(w.env, Start(), labels + steps[k]).db.coverage, q)
      ensures q.contract.value in Exec(w.env, Start(), labels + steps[k]).db.contracts
    {
      SelectLater(w, labels, steps[k], q, answers[k]);
      ExecAppend(w.env, Start(), labels, steps[k]);
      TablesGrow(w.env, Exec(w.env, Start(), labels), steps[k]);
      StillCovered(Exec(w.env, Start(), labels).db.coverage, Exec(w.env, Start(), labels + steps[k]).db.coverage,
                   q.contract.value, q.fromBlock.value, q.toBlock.value);
    }
    RawPages(q, size, answers, AnswerFor(w, EverAsked(w, q), q));
  }
}
