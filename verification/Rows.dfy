/** The rows a block leaves in the events table, field by field. */
module Rows {
  import opened Types
  import opened Abi
  import opened Storage
  import opened Pipeline
  import opened Sync
  import opened Reports
  import BlockFacts
  import Blooms
  import BlockTuples
  import Rlp
  import TxHashes

  // ── Places ─────────────────────────────────────────────────────────────────

  /** How many logs the transactions before `t` emitted. */
  function LogsBefore(receipts: seq<Receipt>, t: nat): nat
    requires t <= |receipts|
  {
    if t == 0 then 0 else LogsBefore(receipts, t - 1) + |receipts[t - 1].logs|
  }

  lemma {:induction false} PrefixLogs(receipts: seq<Receipt>, t: nat)
    requires t <= |receipts|
    ensures |FlatLogs(receipts[..t])| == LogsBefore(receipts, t)
  {
    if t > 0 {
      PrefixLogs(receipts, t - 1);
      FlatLogsNext(receipts, t - 1);
    }
  }

  lemma {:induction false} FlatPrefix(receipts: seq<Receipt>, t: nat, n: nat)
    requires t <= n <= |receipts|
    ensures FlatLogs(receipts[..t]) <= FlatLogs(receipts[..n])
  {
    if t < n {
      FlatPrefix(receipts, t, n - 1);
      FlatLogsNext(receipts, n - 1);
    }
  }

  /** The j-th log of transaction t is the block's log number `LogsBefore(t) + j`. */
  lemma FlatPlace(receipts: seq<Receipt>, t: nat, j: nat)
    requires t < |receipts| && j < |receipts[t].logs|
    ensures var flat, k := FlatLogs(receipts), LogsBefore(receipts, t) + j;
            k < |flat| && flat[k] == FlatLog(t, receipts[t].logs[j])
  {
    hide FlatLogs;
    PrefixLogs(receipts, t);
    FlatLogsNext(receipts, t);
    FlatPrefix(receipts, t + 1, |receipts|);
    assert receipts[..|receipts|] == receipts;
  }

  /** Every log of the block has such a place. */
  lemma {:induction false} PlaceOf(receipts: seq<Receipt>, n: nat, k: nat) returns (t: nat, j: nat)
    requires n <= |receipts| && k < LogsBefore(receipts, n)
    ensures t < n && j < |receipts[t].logs| && k == LogsBefore(receipts, t) + j
  {
    if k >= LogsBefore(receipts, n - 1) {
      t, j := n - 1, k - LogsBefore(receipts, n - 1);
    } else {
      t, j := PlaceOf(receipts, n - 1, k);
    }
  }

  // ── One row ────────────────────────────────────────────────────────────────

  ghost predicate LogOf(f: Facts, t: nat, j: nat) {
    t < |f.receipts| && j < |f.receipts[t].logs|
  }

  /** The scope has a bloom hit on the block and looks for the log. */
  ghost predicate LooksFor(env: Env, s: Scope, f: Facts, t: nat, j: nat)
    requires LogOf(f, t, j)
  {
    var log := f.receipts[t].logs[j];
    && Hit(env, s, f)
    && log.address == s.decoder.contract && log.topics != [] && log.topics[0] in s.decoder.events
  }

  /** The key of the row for the j-th log of transaction t. */
  function PlaceKey(f: Facts, t: nat, j: nat): Key
    requires LogOf(f, t, j)
  {
    Key(AsI64(f.header.number), AsI64(t % TWO64), AsI64((LogsBefore(f.receipts, t) + j) % TWO64))
  }

  /** The row of the j-th log of transaction t as the scope decodes it: the header's
      number, hash and timestamp, the transaction's own hash, and the log's own fields. */
  ghost predicate IsRowOf(env: Env, s: Scope, f: Facts, t: nat, j: nat, row: Row) {
    && LogOf(f, t, j) && LooksFor(env, s, f, t, j)
    && KeyOf(row) == PlaceKey(f, t, j)
    && var log := f.receipts[t].logs[j];
    && var event := s.decoder.events[log.topics[0]];
    && row.contract == log.address && row.topics == log.topics && row.data == log.data
    && row.topic0 == log.topics[0] && row.eventName == event.name
    && row.blockHash == f.header.hash && row.timestamp == AsI64(f.header.timestamp)
    && row.txHash == (if t < |f.txHashes| then f.txHashes[t] else seq(32, _ => 0))
    && row.decodeFailed == !env.fields(event, log.topics, log.data)
  }

  lemma EventIsRow(env: Env, s: Scope, f: Facts, t: nat, j: nat)
    requires LogOf(f, t, j) && LooksFor(env, s, f, t, j)
    ensures var k := LogsBefore(f.receipts, t) + j;
            && IsMatch(s.decoder, f.receipts[t].logs[j])
            && IsRowOf(env, s, f, t, j,
                       ToRow(EventAt(env.fields, s.decoder, Context(f), FlatLog(t, f.receipts[t].logs[j]), k)))
  {
    hide Hit, LogsBefore, AsI64;
  }

  // ── What a block leaves in the table ───────────────────────────────────────

  lemma EventPlace(env: Env, s: Scope, f: Facts, e: DecodedEvent)
    requires Hit(env, s, f) && e in Decode(env, s, f)
    ensures exists t: nat, j: nat :: IsRowOf(env, s, f, t, j, ToRow(e))
  {
    hide Hit, FlatLogs, EventAt, ToRow, Extract, IsRowOf;
    var flat := FlatLogs(f.receipts);
    ExtractSound(env.fields, s.decoder, Context(f), flat, e);
    var k :| 0 <= k < |flat| && IsMatch(s.decoder, flat[k].log)
             && e == EventAt(env.fields, s.decoder, Context(f), flat[k], k);
    PrefixLogs(f.receipts, |f.receipts|);
    assert f.receipts[..|f.receipts|] == f.receipts;
    var t, j := PlaceOf(f.receipts, |f.receipts|, k);
    FlatPlace(f.receipts, t, j);
    EventIsRow(env, s, f, t, j);
  }

  lemma StoredEvent(env: Env, scopes: seq<Scope>, f: Facts, e: DecodedEvent)
    ensures e in EventsOf(Process(env, scopes, f)) <==>
            Verifies(env, f) && exists s | s in scopes && Hit(env, s, f) :: e in Decode(env, s, f)
  {
    hide Hit, Verifies, Decode, DecodeAll, InRange, BloomHits, AnyDecodeError;
    var hits := BloomHits(env.keccak, InRange(scopes, f.blockNumber), f.header.bloom);
    forall s ensures s in hits <==> s in scopes && Hit(env, s, f) {
      HitsAre(env, scopes, f, s);
    }
    NoHits(env, scopes, f);
    DecodeAllMembers(env, hits, f, e);
  }

  /** The row of every log some scope looks for is in the table once the block's
      events were stored. */
  lemma RowIsStored(env: Env, scopes: seq<Scope>, table: Table, f: Facts, commit: Commit, s: Scope, t: nat, j: nat)
    requires Verifies(env, f) && !commit.RolledBack?
    requires s in scopes && LogOf(f, t, j) && LooksFor(env, s, f, t, j)
    ensures PlaceKey(f, t, j) in StoreItem(env, scopes, table, Block(f), commit)
  {
    hide Hit, Verifies, Process, Extract, EventAt, ToRow, KeyOf, FlatLogs, InsertRows, LogsBefore;
    FlatPlace(f.receipts, t, j);
    EventIsRow(env, s, f, t, j);
    var k := LogsBefore(f.receipts, t) + j;
    var e := EventAt(env.fields, s.decoder, Context(f), FlatLogs(f.receipts)[k], k);
    ExtractComplete(env.fields, s.decoder, Context(f), FlatLogs(f.receipts), k);
    StoredEvent(env, scopes, f, e);
    var events := EventsOf(Process(env, scopes, f));
    var i :| 0 <= i < |events| && events[i] == e;
    InsertedKeys(table, ToRows(events), i);
  }

  /** A row that a block adds is that of one of its logs, as a scope that looks for
      the log decodes it; rows already in the table stay. */
  lemma RowOrigin(env: Env, scopes: seq<Scope>, table: Table, f: Facts, commit: Commit, key: Key)
    ensures var after := StoreItem(env, scopes, table, Block(f), commit);
            && (key in table ==> key in after && after[key] == table[key])
            && (key in after && key !in table ==>
                  && Verifies(env, f) && !commit.RolledBack? && KeyOf(after[key]) == key
                  && exists s, t: nat, j: nat :: s in scopes && IsRowOf(env, s, f, t, j, after[key]))
  {
    hide Hit, Verifies, Process, Decode, ToRow, KeyOf, InsertRows, IsRowOf;
    var after := StoreItem(env, scopes, table, Block(f), commit);
    var events := EventsOf(Process(env, scopes, f));
    FirstWriteWins(table, ToRows(events), key);
    if key in after && key !in table {
      var i :| 0 <= i < |ToRows(events)| && KeyOf(ToRows(events)[i]) == key && after[key] == ToRows(events)[i];
      StoredEvent(env, scopes, f, events[i]);
      var s :| s in scopes && Hit(env, s, f) && events[i] in Decode(env, s, f);
      EventPlace(env, s, f, events[i]);
    }
  }

  lemma OnePlace(f: Facts, t: nat, j: nat, t': nat, j': nat)
    requires LogOf(f, t, j) && LogOf(f, t', j') && |FlatLogs(f.receipts)| < TWO64
    requires PlaceKey(f, t, j) == PlaceKey(f, t', j')
    ensures t == t' && j == j'
  {
    hide FlatLogs, LogsBefore;
    FlatPlace(f.receipts, t, j);
    FlatPlace(f.receipts, t', j');
  }

  /** The row stored for the j-th log of transaction t, whatever the receipts: its
      fields are those of that log, that transaction and the block's header. */
  lemma StoredRow(env: Env, scopes: seq<Scope>, table: Table, f: Facts, commit: Commit, s: Scope, t: nat, j: nat)
    requires Verifies(env, f) && !commit.RolledBack? && |FlatLogs(f.receipts)| < TWO64
    requires s in scopes && LogOf(f, t, j) && LooksFor(env, s, f, t, j)
    ensures var key, after := PlaceKey(f, t, j), StoreItem(env, scopes, table, Block(f), commit);
            && key in after
            && if key in table then after[key] == table[key]
               else exists s :: s in scopes && IsRowOf(env, s, f, t, j, after[key])
  {
    hide Hit, Verifies, StoreItem, FlatLogs, PlaceKey, LooksFor;
    var key, after := PlaceKey(f, t, j), StoreItem(env, scopes, table, Block(f), commit);
    RowIsStored(env, scopes, table, f, commit, s, t, j);
    RowOrigin(env, scopes, table, f, commit, key);
    if key !in table {
      var s', t': nat, j': nat :| s' in scopes && IsRowOf(env, s', f, t', j', after[key]);
      OnePlace(f, t, j, t', j');
    }
  }

  /** Under a header bloom that holds the block's logs, the bloom test never keeps a
      scope from a log it looks for. */
  lemma NoLogIsSkipped(env: Env, s: Scope, f: Facts, t: nat, j: nat)
    requires Prepared(s) && ContainsBlock(s, f.blockNumber)
    requires HoldsFlat(env.keccak, f.header.bloom, FlatLogs(f.receipts))
    requires LogOf(f, t, j) && IsMatch(s.decoder, f.receipts[t].logs[j])
    ensures LooksFor(env, s, f, t, j)
  {
    hide FlatLogs, Blooms.HoldsLog, Blooms.Matches, Prepared;
    FlatPlace(f.receipts, t, j);
    MatchingScopeHits(env.keccak, s, f.header.bloom, f.receipts[t].logs[j]);
  }

  /** The row of a log in a block whose body holds well-formed transactions carries the
      keccak of the EIP-2718 encoding of the transaction that emitted it. */
  lemma RowTxHash(lib: BlockFacts.Library, slim: bool, tuple: BlockTuples.BlockTuple,
                  txs: seq<TxHashes.Transaction>, forms: seq<Form>, tail: Bytes, junk: Bytes,
                  env: Env, s: Scope, t: nat, j: nat, row: Row)
    requires |forms| == |txs|
    requires forall i | 0 <= i < |txs| :: TxHashes.WellFormed(txs[i])
    requires |Rlp.EncodeList(TxHashes.TxItems(txs, forms)) + tail| < TWO64
    requires tuple.body == Rlp.EncodeList(Rlp.EncodeList(TxHashes.TxItems(txs, forms)) + tail) + junk
    requires BlockFacts.Decodes(lib, slim, tuple) && t < |txs|
    ensures var item := BlockFacts.ItemOf(lib, slim, Ok(tuple));
            && item == Block(item.facts) && item.facts.blockNumber == tuple.blockNumber
            && Some(item.facts.header) == lib.header(tuple.header)
            && (IsRowOf(env, s, item.facts, t, j, row) ==> row.txHash == lib.keccak(TxHashes.EncodeTx(txs[t])))
  {
    hide BlockFacts.HashesOf, TxHashes.TxItems, TxHashes.EncodeTx, Rlp.EncodePayload, KeyOf, PlaceKey, LooksFor;
    BlockFacts.BodyGivesHashes(lib, txs, forms, tail, junk);
  }
}
