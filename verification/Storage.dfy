/** The event, coverage and contract tables, and the query policy over them. */
module Storage {
  import opened Types
  import opened Abi

  // ── Rows ───────────────────────────────────────────────────────────────────

  datatype Row = Row(
    contract: Address,
    eventName: string,
    topic0: B256,
    blockNumber: I64,
    blockHash: B256,
    txHash: B256,
    txIndex: I64,
    logIndex: I64,
    topics: seq<B256>,
    data: Bytes,
    decodeFailed: bool,
    timestamp: I64)

  function ToRow(e: DecodedEvent): Row {
    Row(e.contract, e.eventName, e.topic0, AsI64(e.blockNumber), e.blockHash, e.txHash, AsI64(e.txIndex),
        AsI64(e.logIndex), e.topics, e.data, e.decodeFailed, AsI64(e.timestamp))
  }

  function ToRows(es: seq<DecodedEvent>): seq<Row> {
    seq(|es|, i requires 0 <= i < |es| => ToRow(es[i]))
  }

  /** The unique key of the events table. */
  datatype Key = Key(block: I64, tx: I64, log: I64)

  function KeyOf(row: Row): Key {
    Key(row.blockNumber, row.txIndex, row.logIndex)
  }

  type Table = map<Key, Row>

  datatype CoveredRange = CoveredRange(contract: Address, from: I64, to: I64)

  datatype Tables = Tables(events: Table, coverage: set<CoveredRange>, contracts: set<Address>)

  // ── INSERT OR IGNORE ───────────────────────────────────────────────────────

  function InsertRow(t: Table, row: Row): Table {
    if KeyOf(row) in t then t else t[KeyOf(row) := row]
  }

  function InsertRows(t: Table, rows: seq<Row>): Table {
    if rows == [] then t
    else InsertRow(InsertRows(t, rows[..|rows| - 1]), rows[|rows| - 1])
  }

  lemma {:induction false} InsertRowsConcat(t: Table, a: seq<Row>, b: seq<Row>)
    ensures InsertRows(t, a + b) == InsertRows(InsertRows(t, a), b)
  {
    if b == [] {
      assert a + b == a;
    } else {
      var n := |b| - 1;
      InsertRowsConcat(t, a, b[..n]);
      assert (a + b)[..|a + b| - 1] == a + b[..n];
    }
  }

  /** First write wins: a key keeps the row it has, and a new key takes the
      first row offered for it. */
  lemma {:induction false} FirstWriteWins(t: Table, rows: seq<Row>, key: Key)
    ensures key in t ==> key in InsertRows(t, rows) && InsertRows(t, rows)[key] == t[key]
    ensures key !in t && key in InsertRows(t, rows) ==>
              exists i :: 0 <= i < |rows| && KeyOf(rows[i]) == key && InsertRows(t, rows)[key] == rows[i]
                          && forall j | 0 <= j < i :: KeyOf(rows[j]) != key
    ensures key !in InsertRows(t, rows) ==> forall i | 0 <= i < |rows| :: KeyOf(rows[i]) != key
  {
    if rows != [] {
      hide KeyOf;
      var n := |rows| - 1;
      var before := InsertRows(t, rows[..n]);
      FirstWriteWins(t, rows[..n], key);
      if key !in t && key in InsertRows(t, rows) {
        if key in before {
          var i :| 0 <= i < n && KeyOf(rows[..n][i]) == key && before[key] == rows[..n][i]
                   && forall j | 0 <= j < i :: KeyOf(rows[..n][j]) != key;
          assert rows[i] == rows[..n][i];
          assert forall j | 0 <= j < i :: rows[j] == rows[..n][j];
        } else {
          assert forall j | 0 <= j < n :: rows[j] == rows[..n][j];
          assert KeyOf(rows[n]) == key;
        }
      }
      if key !in InsertRows(t, rows) {
        assert forall j | 0 <= j < n :: rows[j] == rows[..n][j];
      }
    }
  }

  lemma InsertedKeys(t: Table, rows: seq<Row>, i: nat)
    requires i < |rows|
    ensures KeyOf(rows[i]) in InsertRows(t, rows)
  {
    FirstWriteWins(t, rows, KeyOf(rows[i]));
  }

  lemma {:induction false} KnownRowsIgnored(t: Table, rows: seq<Row>)
    requires forall i | 0 <= i < |rows| :: KeyOf(rows[i]) in t
    ensures InsertRows(t, rows) == t
  {
    if rows != [] {
      KnownRowsIgnored(t, rows[..|rows| - 1]);
    }
  }

  function InsertBatches(t: Table, batches: seq<seq<Row>>): Table {
    if batches == [] then t
    else InsertRows(InsertBatches(t, batches[..|batches| - 1]), batches[|batches| - 1])
  }

  lemma {:induction false} BatchKeys(t: Table, batches: seq<seq<Row>>, key: Key)
    ensures key in t ==> key in InsertBatches(t, batches)
    ensures forall b, i | 0 <= b < |batches| && 0 <= i < |batches[b]| && KeyOf(batches[b][i]) == key ::
              key in InsertBatches(t, batches)
  {
    if batches != [] {
      var n := |batches| - 1;
      BatchKeys(t, batches[..n], key);
      FirstWriteWins(InsertBatches(t, batches[..n]), batches[n], key);
      assert forall b | 0 <= b < n :: batches[b] == batches[..n][b];
    }
  }

  lemma {:induction false} KnownBatchesIgnored(t: Table, batches: seq<seq<Row>>)
    requires forall b, i | 0 <= b < |batches| && 0 <= i < |batches[b]| :: KeyOf(batches[b][i]) in t
    ensures InsertBatches(t, batches) == t
  {
    if batches != [] {
      var n := |batches| - 1;
      assert forall b | 0 <= b < n :: batches[b] == batches[..n][b];
      KnownBatchesIgnored(t, batches[..n]);
      KnownRowsIgnored(t, batches[n]);
    }
  }

  /** Running a whole sequence of batches again changes nothing. */
  lemma RerunChangesNothing(t: Table, batches: seq<seq<Row>>)
    ensures InsertBatches(InsertBatches(t, batches), batches) == InsertBatches(t, batches)
  {
    var after := InsertBatches(t, batches);
    forall b, i | 0 <= b < |batches| && 0 <= i < |batches[b]| ensures KeyOf(batches[b][i]) in after {
      BatchKeys(t, batches, KeyOf(batches[b][i]));
    }
    KnownBatchesIgnored(after, batches);
  }

  // ── The database ───────────────────────────────────────────────────────────

  /** How a write ends: applied, rolled back with an error, or applied although
      an error is reported. */
  datatype Commit = Applied | RolledBack | AppliedWithError

  const INSERT_CHUNK := 500

  class Db {
    var events: Table
    var coverage: set<CoveredRange>
    var contracts: set<Address>

    constructor ()
      ensures Contents() == Tables(map[], {}, {})
    {
      events, coverage, contracts := map[], {}, {};
    }

    ghost function Contents(): Tables
      reads this
    {
      Tables(events, coverage, contracts)
    }

    /** One transaction, one statement per 500 rows. */
    method InsertEvents(rows: seq<Row>, commit: Commit) returns (ok: bool)
      modifies this
      ensures ok <==> rows == [] || commit.Applied?
      ensures coverage == old(coverage) && contracts == old(contracts)
      ensures events == if commit.RolledBack? then old(events) else InsertRows(old(events), rows)
    {
      if rows == [] {
        return true;
      }
      var tx := events;
      var done := 0;
      while done < |rows|
        invariant 0 <= done <= |rows|
        invariant unchanged(this)
        invariant tx == InsertRows(events, rows[..done])
      {
        var end := if |rows| - done < INSERT_CHUNK then |rows| else done + INSERT_CHUNK;
        var chunk := rows[done..end];
        InsertRowsConcat(events, rows[..done], chunk);
        assert rows[..done] + chunk == rows[..end];
        tx := InsertRows(tx, chunk);
        done := end;
      }
      assert rows[..|rows|] == rows;
      if !commit.RolledBack? {
        events := tx;
      }
      return commit.Applied?;
    }

    method RecordCoveredRange(contract: Address, from: U64, to: U64, commit: Commit) returns (ok: bool)
      modifies this
      ensures ok <==> commit.Applied?
      ensures events == old(events) && contracts == old(contracts)
      ensures coverage == if commit.RolledBack? then old(coverage)
                          else old(coverage) + {CoveredRange(contract, AsI64(from), AsI64(to))}
    {
      if !commit.RolledBack? {
        coverage := coverage + {CoveredRange(contract, AsI64(from), AsI64(to))};
      }
      return commit.Applied?;
    }
  }

  // ── Coverage ───────────────────────────────────────────────────────────────

  predicate RangeAnswers(r: CoveredRange, from: U64, to: U64) {
    r.from <= AsI64(from) && r.to >= AsI64(to)
  }

  predicate IsRangeCovered(coverage: set<CoveredRange>, contract: Address, from: U64, to: U64) {
    exists r | r in coverage :: r.contract == contract && RangeAnswers(r, from, to)
  }

  /** The order of the bounds as the database compares them: numbers from 2^63
      upward were cast to negative ones and come first. */
  predicate SignedLe(a: U64, b: U64) {
    if (a < TWO63) == (b < TWO63) then a <= b else a >= TWO63
  }

  /** Which requests the range recorded for blocks `a` to `b` answers, for any
      bounds: those it contains in the signed order. */
  lemma RangeAnswersIff(contract: Address, a: U64, b: U64, from: U64, to: U64)
    ensures RangeAnswers(CoveredRange(contract, AsI64(a), AsI64(b)), from, to) <==> SignedLe(a, from) && SignedLe(to, b)
  {
  }

  predicate Straddles(from: U64, to: U64) {
    from < TWO63 <= to
  }

  /** The answer agrees with containment exactly when range and request both reach
      from below 2^63 to 2^63, or neither does, or the bounds that lie on one side
      already tell them apart. */
  lemma RangeAnswersContained(contract: Address, a: U64, b: U64, from: U64, to: U64)
    requires a <= b && from <= to
    ensures (RangeAnswers(CoveredRange(contract, AsI64(a), AsI64(b)), from, to) <==> a <= from && to <= b)
            <==> || Straddles(a, b) == Straddles(from, to)
                 || (if b < TWO63 || to < TWO63 then from < a else b < to)
  {
  }

  // ── Queries ────────────────────────────────────────────────────────────────

  datatype EventQuery = EventQuery(
    contract: Option<Address>,
    eventName: Option<string>,
    topic0: Option<B256>,
    fromBlock: Option<U64>,
    toBlock: Option<U64>,
    limit: U64,
    offset: U64)

  datatype Outcome =
    | MissingCoverage(contract: Address, fromBlock: U64, toBlock: U64)
    | Results(rows: seq<Row>)
    | Capped(first: seq<Row>, cap: U64)
    | NotIndexed
    | Empty

  predicate Selected(q: EventQuery, row: Row) {
    && (q.contract.Some? ==> row.contract == q.contract.value)
    && (q.eventName.Some? ==> row.eventName == q.eventName.value)
    && (q.topic0.Some? ==> row.topic0 == q.topic0.value)
    && (if q.fromBlock.Some? then AsI64(q.fromBlock.value) else 0) <= row.blockNumber
    && (q.toBlock.Some? ==> row.blockNumber <= AsI64(q.toBlock.value))
  }

  /** ORDER BY block_number, log_index: strictly before in that order. */
  predicate Before(a: Row, b: Row) {
    a.blockNumber < b.blockNumber || (a.blockNumber == b.blockNumber && a.logIndex < b.logIndex)
  }

  ghost predicate InOrder(rows: seq<Row>) {
    forall i, j | 0 <= i < j < |rows| :: !Before(rows[j], rows[i]) && rows[i] != rows[j]
  }

  /** `rows` is an answer the engine may give to the SELECT: every selected row
      once, in query order, ties in any order. */
  ghost predicate IsSelect(t: Table, q: EventQuery, rows: seq<Row>) {
    && InOrder(rows)
    && (forall row :: row in rows <==> KeyOf(row) in t && t[KeyOf(row)] == row && Selected(q, row))
  }

  /** LIMIT and OFFSET; a negative limit is no limit, a negative offset is zero. */
  function Slice(rows: seq<Row>, limit: I64, offset: I64): seq<Row> {
    var skip := if offset < 0 then 0 else if offset > |rows| then |rows| else offset;
    var tail := rows[skip..];
    if limit < 0 || limit >= |tail| then tail else tail[..limit]
  }

  const HARD_CAP: U64 := 10_000

  function Limited(q: EventQuery, rows: seq<Row>): Outcome {
    var limit: U64 := if q.limit == 0 then TWO63 - 1 else if q.limit == HARD_CAP then HARD_CAP + 1 else q.limit;
    var out := Slice(rows, AsI64(limit), AsI64(q.offset));
    if q.limit == HARD_CAP && |out| > HARD_CAP then Capped(out[..HARD_CAP], HARD_CAP)
    else if out == [] then Empty
    else Results(out)
  }

  /** The outcome of a query when the engine answers the SELECT with `rows`. */
  function QueryEvents(db: Tables, q: EventQuery, rows: seq<Row>): Outcome {
    if q.contract.Some? && q.contract.value !in db.contracts then NotIndexed
    else if q.contract.Some? && q.fromBlock.Some? && q.toBlock.Some?
            && !IsRangeCovered(db.coverage, q.contract.value, q.fromBlock.value, q.toBlock.value) then
      MissingCoverage(q.contract.value, q.fromBlock.value, q.toBlock.value)
    else
      Limited(q, rows)
  }

  /** A request from below 2^63 to 2^63 or beyond that a recorded range answers is
      answered `Empty`, whatever rows are stored: no row can lie in it. */
  lemma CastQueryIsEmpty(db: Tables, q: EventQuery, rows: seq<Row>)
    requires q.contract.Some? && q.contract.value in db.contracts
    requires q.fromBlock.Some? && q.toBlock.Some? && Straddles(q.fromBlock.value, q.toBlock.value)
    requires IsRangeCovered(db.coverage, q.contract.value, q.fromBlock.value, q.toBlock.value)
    requires IsSelect(db.events, q, rows)
    ensures QueryEvents(db, q, rows) == Empty
  {
    forall row ensures !Selected(q, row) {
      NothingBeyond(q, row);
    }
    EmptyTogether(rows, []);
  }

  lemma NothingBeyond(q: EventQuery, row: Row)
    requires q.fromBlock.Some? && q.toBlock.Some? && Straddles(q.fromBlock.value, q.toBlock.value)
    ensures !Selected(q, row)
  {
  }

  /** Covering blocks 5 to 10 makes the request for 7 to 2^63 answered, as `Empty`. */
  lemma CastGap(db: Tables, contract: Address, q: EventQuery, rows: seq<Row>)
    requires contract in db.contracts && CoveredRange(contract, 5, 10) in db.coverage
    requires q.contract == Some(contract) && q.fromBlock == Some(7) && q.toBlock == Some(0x8000_0000_0000_0000)
    requires IsSelect(db.events, q, rows)
    ensures QueryEvents(db, q, rows) == Empty
  {
    assert RangeAnswers(CoveredRange(contract, 5, 10), 7, 0x8000_0000_0000_0000);
    CastQueryIsEmpty(db, q, rows);
  }

  function RowsOf(o: Outcome): seq<Row> {
    if o.Results? then o.rows else if o.Capped? then o.first else []
  }

  // ── The answer exists and, with unique log indices, is unique ──────────────

  function InsertInOrder(row: Row, rows: seq<Row>): seq<Row> {
    if rows == [] || Before(row, rows[0]) then [row] + rows
    else [rows[0]] + InsertInOrder(row, rows[1..])
  }

  lemma ConsInOrder(row: Row, rows: seq<Row>)
    requires InOrder(rows) && row !in rows
    requires rows != [] ==> !Before(rows[0], row)
    ensures InOrder([row] + rows)
  {
  }

  lemma {:induction false} InsertInOrderKeeps(row: Row, rows: seq<Row>)
    requires InOrder(rows) && row !in rows
    ensures InOrder(InsertInOrder(row, rows))
    ensures forall r :: r in InsertInOrder(row, rows) <==> r == row || r in rows
  {
    if rows == [] || Before(row, rows[0]) {
      ConsInOrder(row, rows);
    } else {
      assert rows == [rows[0]] + rows[1..];
      InsertInOrderKeeps(row, rows[1..]);
      var rest := InsertInOrder(row, rows[1..]);
      assert rest[0] in rest;
      assert rows[0] !in rest;
      ConsInOrder(rows[0], rest);
    }
  }

  /** Every table has an answer to every SELECT. */
  lemma {:induction false} SelectExists(t: Table, q: EventQuery) returns (rows: seq<Row>)
    ensures IsSelect(t, q, rows)
    decreases |t.Keys|
  {
    if t.Keys == {} {
      rows := [];
    } else {
      var key :| key in t.Keys;
      var smaller := t - {key};
      assert smaller.Keys == t.Keys - {key};
      rows := SelectExists(smaller, q);
      var row := t[key];
      if KeyOf(row) == key && Selected(q, row) {
        InsertInOrderKeeps(row, rows);
        rows := InsertInOrder(row, rows);
      }
    }
  }

  ghost predicate Keyed(t: Table) {
    forall key | key in t :: KeyOf(t[key]) == key
  }

  /** No two rows of a block share a log index. */
  ghost predicate UniqueLogIndex(t: Table) {
    forall k1, k2 | k1 in t && k2 in t :: k1.block == k2.block && k1.log == k2.log ==> k1 == k2
  }

  ghost predicate Strict<T>(before: (T, T) -> bool, s: seq<T>) {
    forall i, j | 0 <= i < j < |s| :: before(s[i], s[j])
  }

  lemma SelectStrict(t: Table, q: EventQuery, rows: seq<Row>)
    requires UniqueLogIndex(t) && IsSelect(t, q, rows)
    ensures Strict(Before, rows)
  {
    forall i, j | 0 <= i < j < |rows| ensures Before(rows[i], rows[j]) {
      assert rows[i] in rows && rows[j] in rows;
      assert KeyOf(rows[i]) in t && KeyOf(rows[j]) in t;
    }
  }

  lemma EmptyTogether<T>(a: seq<T>, b: seq<T>)
    requires forall x :: x in a <==> x in b
    ensures a == [] <==> b == []
  {
    if a != [] {
      assert a[0] in a;
    }
    if b != [] {
      assert b[0] in b;
    }
  }

  /** Two strictly ordered sequences with the same elements are the same sequence. */
  lemma {:induction false} StrictUnique<T>(before: (T, T) -> bool, a: seq<T>, b: seq<T>)
    requires forall x, y :: before(x, y) ==> !before(y, x)
    requires Strict(before, a) && Strict(before, b)
    requires forall x :: x in a <==> x in b
    ensures a == b
  {
    EmptyTogether(a, b);
    if a != [] {
      assert a[0] in b && b[0] in a;
      assert a[0] == b[0];
      var a', b' := a[1..], b[1..];
      assert a == [a[0]] + a' && b == [b[0]] + b';
      forall x ensures x in a' <==> x in b' {
        assert x in a' ==> x in a && before(a[0], x);
        assert x in b' ==> x in b && before(b[0], x);
      }
      StrictUnique(before, a', b');
    }
  }

  /** With unique log indices the query order is total: the answer is unique. */
  lemma SelectUnique(t: Table, q: EventQuery, a: seq<Row>, b: seq<Row>)
    requires UniqueLogIndex(t) && IsSelect(t, q, a) && IsSelect(t, q, b)
    ensures a == b
  {
    SelectStrict(t, q, a);
    SelectStrict(t, q, b);
    StrictUnique(Before, a, b);
  }

  // ── What a query answers ───────────────────────────────────────────────────

  /** The part of a sequence a limit and an offset leave; both are cast to signed
      numbers on the way, so from 2^63 on they limit and skip nothing. */
  function Window<T>(s: seq<T>, limit: U64, offset: U64): seq<T> {
    var skip := if offset >= TWO63 then 0 else Min(offset, |s|);
    var left := |s| - skip;
    var count := if limit == 0 || limit >= TWO63 then left else Min(limit, left);
    s[skip..skip + count]
  }

  /** How many elements an offset leaves. */
  function Left<T>(s: seq<T>, offset: U64): nat {
    if offset >= TWO63 then |s| else |s| - Min(offset, |s|)
  }

  lemma SliceIsWindow(rows: seq<Row>, limit: I64, asked: U64, offset: U64)
    requires |rows| < TWO63
    requires if asked == 0 then limit == TWO63 - 1 else limit == AsI64(asked)
    ensures Slice(rows, limit, AsI64(offset)) == Window(rows, asked, offset)
  {
  }

  lemma CapWindow(rows: seq<Row>, offset: U64)
    requires |rows| < TWO63
    ensures var out := Slice(rows, 10_001, AsI64(offset));
            && (|out| > 10_000 <==> Left(rows, offset) > 10_000)
            && (if |out| > 10_000 then out[..10_000] else out) == Window(rows, 10_000, offset)
  {
  }

  /** A query is refused exactly for a contract that is not indexed, or for one that
      is and a range with both bounds that is not covered. */
  lemma RefusedIff(db: Tables, q: EventQuery, rows: seq<Row>)
    ensures var o := QueryEvents(db, q, rows);
            && (o == NotIndexed <==> q.contract.Some? && q.contract.value !in db.contracts)
            && (o.MissingCoverage? <==>
                  && q.contract.Some? && q.contract.value in db.contracts
                  && q.fromBlock.Some? && q.toBlock.Some?
                  && !IsRangeCovered(db.coverage, q.contract.value, q.fromBlock.value, q.toBlock.value))
            && (o.MissingCoverage? ==> o == MissingCoverage(q.contract.value, q.fromBlock.value, q.toBlock.value))
  {
  }

  /** Every other query, with or without bounds, is answered with the window of the
      ordered result that limit and offset leave. The answer says that it was cut
      short exactly for the limit 10000 when more than that was left. */
  lemma AnsweredWindow(db: Tables, q: EventQuery, rows: seq<Row>)
    requires |rows| < TWO63
    ensures var o, window := QueryEvents(db, q, rows), Window(rows, q.limit, q.offset);
            match o
            case NotIndexed => true
            case MissingCoverage(_, _, _) => true
            case Capped(first, cap) =>
              q.limit == 10_000 && Left(rows, q.offset) > 10_000 && first == window && cap == 10_000
            case Results(all) => all == window && window != [] && !(q.limit == 10_000 && Left(rows, q.offset) > 10_000)
            case Empty => window == []
  {
    hide IsRangeCovered, Window, Left, Slice;
    if q.limit == 10_000 {
      CapWindow(rows, q.offset);
      WindowSize(rows, q.limit, q.offset);
    } else {
      SliceIsWindow(rows, AsI64(if q.limit == 0 then TWO63 - 1 else q.limit), q.limit, q.offset);
    }
  }

  lemma WindowSize<T>(s: seq<T>, limit: U64, offset: U64)
    ensures Left(s, offset) > limit > 0 ==> Window(s, limit, offset) != []
  {
  }

  /** A query without bounds asks for all blocks below 2^63. */
  lemma MissingBounds(q: EventQuery, row: Row)
    requires q.fromBlock.None? && q.toBlock.None?
    ensures Selected(q, row) <==>
            Selected(q.(fromBlock := Some(0), toBlock := Some(0x7FFF_FFFF_FFFF_FFFF)), row)
  {
  }

  // ── Pages ──────────────────────────────────────────────────────────────────

  /** The offset of the k-th page. */
  function Skip(size: U64, k: nat): nat {
    k * size
  }

  lemma SkipNext(size: U64, k: nat)
    ensures Skip(size, k + 1) == Skip(size, k) + size
  {
  }

  function PageQuery(q: EventQuery, size: U64, k: nat): EventQuery
    requires Skip(size, k) < TWO63
  {
    q.(limit := size, offset := Skip(size, k))
  }

  /** The pages of `q`, each answered by its own execution of the SELECT. */
  ghost function Pages(q: EventQuery, size: U64, answers: seq<seq<Row>>): seq<Row>
    requires Skip(size, |answers|) < TWO63
  {
    if answers == [] then []
    else
      var k := |answers| - 1;
      SkipNext(size, k);
      Pages(q, size, answers[..k]) + RowsOf(Limited(PageQuery(q, size, k), answers[k]))
  }

  lemma OnePage(q: EventQuery, size: U64, k: nat, rows: seq<Row>)
    requires 1 <= size < HARD_CAP && Skip(size, k) + size < TWO63
    ensures RowsOf(Limited(PageQuery(q, size, k), rows))
            == rows[Min(Skip(size, k), |rows|)..Min(Skip(size, k) + size, |rows|)]
  {
    SlicedPage(size, Skip(size, k), rows);
  }

  lemma SlicedPage(limit: nat, offset: nat, rows: seq<Row>)
    requires limit + offset < TWO63
    ensures Slice(rows, limit, offset) == rows[Min(offset, |rows|)..Min(offset + limit, |rows|)]
  {
    var skip := Min(offset, |rows|);
    var end := Min(offset + limit, |rows|);
    if end < |rows| {
      assert rows[skip..][..limit] == rows[skip..end];
    } else {
      assert rows[skip..] == rows[skip..end];
    }
  }

  lemma TwoCuts(s: seq<Row>, a: nat, b: nat)
    requires a <= b <= |s|
    ensures s[..a] + s[a..b] == s[..b]
  {
  }

  /** Reading page after page, with any page size below the cap, gives the
      ordered result once each: no row is skipped or repeated, even though every
      page is a separate SELECT. */
  lemma {:induction false} PagesConcatenate(t: Table, q: EventQuery, size: U64, answers: seq<seq<Row>>, full: seq<Row>)
    requires UniqueLogIndex(t) && IsSelect(t, q, full)
    requires 1 <= size < HARD_CAP && Skip(size, |answers|) < TWO63
    requires forall k | 0 <= k < |answers| :: IsSelect(t, q, answers[k])
    ensures Pages(q, size, answers) == full[..Min(Skip(size, |answers|), |full|)]
  {
    hide Limited, IsSelect, UniqueLogIndex, RowsOf, PageQuery;
    if answers != [] {
      hide Skip;
      var k := |answers| - 1;
      SkipNext(size, k);
      PagesConcatenate(t, q, size, answers[..k], full);
      SelectUnique(t, q, answers[k], full);
      OnePage(q, size, k, full);
      TwoCuts(full, Min(Skip(size, k), |full|), Min(Skip(size, |answers|), |full|));
    }
  }
}
