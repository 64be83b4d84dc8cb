# scopenode: coverage-gated indexing, verified

scopenode scans archive files of Ethereum blocks, checks receipts against the
header's receipts root, decodes the logs of configured contracts, stores them,
and records which block ranges it has covered. A range query is either complete
or refused. This project models that pipeline in Dafny and proves the promise,
together with the parts it rests on.

## What is modelled

- `Types`: machine words, byte strings, logs and receipts; the `u64 as i64` cast
  and wrapping addition of a release build.
- `Rlp`: recursive length prefix encoding (Appendix B of the Ethereum Yellow
  Paper) and the strict decoder the codec calls.
- `Receipts`, `Codec`, `TxHashes`: the two archive receipt layouts, EIP-2718
  receipts (section "Receipts") and transactions (section "Transactions"), and
  the cursor-advancing loops that read them.
- `Trie`: receipt-trie keys (Appendix D of the Yellow Paper), their sorted
  order, and what a matching receipts root proves.
- `Blooms`: the 2048-bit logs bloom and the scanner that skips blocks with it.
- `Abi`, `AbiResolution`: log extraction and the ABI cache protocol.
- `E2Store`, `BlockTuples`, `BlockFacts`, `Source`: entry framing, both block
  indices, the streaming iterator, the random-access reader, the way from a file's
  bytes to block facts, file selection and the stream. `ArchiveBytes` says what they
  do with files given byte by byte.
- `Storage`: the event, coverage and contract tables and the query policy.
- `Present`, `Pipeline`, `Sync`, `Reports`: present intervals and gaps, one
  block's evaluation, the run loop and its small-step machine, the report.
- `Rows`: the rows a block leaves in the table, field by field.
- `Runs`: a configured run, from event resolution to the report.
- `History`, `Promise`, `ChangedEvents`, `Earned`: whole histories of runs,
  failures, crashes and queries, and the main theorems.

The central objects are a function `Sync.Step` for one step of the system
(start, read a block, end of stream, one coverage write, finish, crash, save an
ABI) and the method `Sync.RunPreparedScopes`, which is the source's loop. A run
(`Sync.Run`) has an outcome for each of its writes: applied, rolled back, or
applied while an error is reported. The loop is proved to leave the tables and the
report of `Sync.RunResult`, and `Sync.RunIsExec` proves that this is what the
machine computes along the run's steps, with those outcomes. `History.Inv` holds
after every sequence of steps, so the theorems speak about mid-run states and
states after crashes.

## Main results

1. `History.CoveredAnswersAreExact`: at every state of every history, a range
   query is refused, or it returns exactly the chain's matching logs, each once,
   in block and log order, when all runs agree on the topics asked for.
   `History.EveryLimitIsExact` says the same for every limit and offset, and that an
   answer cut short at 10000 rows says so.
   `ChangedEvents.PromiseKeptIff` shows that this condition is exact, and
   `Promise.AnswersAcrossSteps` that it also holds when runs go on between the
   query's three reads.
2. `Promise.CoveredScopeStaysExact`: once a run reports a scope as covered, every
   query inside it is answered with exactly the chain's logs, then and ever after.
3. `Promise.PagesAreTheChain`: reading page after page gives those logs too, also
   when runs go on between the pages.
4. `Pipeline.BloomChangesNothing`: the bloom prefilter never changes a result.
5. `Trie.AcceptedReceiptsAreGenuine`: a matching root means the genuine receipts.
6. `BlockTuples.BlockTupleIter.Next`, `BlockTuples.RandomAccessAgrees`,
   `BlockTuples.LayoutIrrelevant`, `ArchiveBytes.Era1FileFacts`: what the iterator
   yields, for every layout and from the bytes on, and that random access agrees.
7. `Codec.LayoutsAgreeIff`, `Codec.ItemCanonicalIff`, `TxHashes.BodyHashes`: receipt
   and transaction decoding, and exactly which receipt bytes are read loosely.
8. `Reports.VerdictExact`, `Reports.ReasonExact`, `Source.CoveredIffFilesHoldRange`,
   `Earned.HonestArchiveIsCovered`: each scope's verdict from the items read and the
   outcomes of the writes, and exactly when a scope is covered, from chain, files and
   writes alone; `BlockFacts.CleanFileFromBytes`: which bytes make a file stream its
   range without an error.
9. `AbiResolution.CacheAnswersAlwaysIff`, `Earned.ResolvedAnswersAreExact`: when the
   cache answers all later resolutions, and result 1 for histories whose scopes come
   from one saved resolution per contract, which is where agreement comes from.
10. `Rows.StoredRow`, `Rows.RowOrigin`, `Rows.RowTxHash`: every field of every row a
    block adds, from its receipts, its header and its transactions.

### Where the code falls short of a promise

Each case has a witness and, beside it, the exact condition.

- Coverage does not remember event sets. `ChangedEvents.EventAddedLater` is an honest
  chain and a history of two runs, the first for one topic and the second for two,
  after which a covered query for the added topic answers `Empty` for a log the chain
  has. `ChangedEvents.PromiseKeptIff`: for every query and all topic sets, all histories
  keep the promise exactly when the runs agree on which of the topics asked for they
  decode (or the range is backward).
- A present interval that ends at the largest block number is followed by a false
  gap (`Present.SaturatedGap`); exact condition: `Present.PartitionIff`.
- A block 0 that arrives after the largest block number wraps in a release build and
  reverses an interval (`Present.WrappedInterval`); exact condition:
  `Present.PresentSeparatedIff`.
- A request that reaches 2^63 is answered, as `Empty`, by a range it exceeds
  (`Storage.CastGap`, `Storage.CastQueryIsEmpty`); exact condition:
  `Storage.RangeAnswersContained`.
- An index that claims 2^61 blocks in sixteen bytes is accepted in a release build
  (`E2Store.OversizedIndexAccepted`), and a dynamic index that claims 2^59 blocks of
  four components (`E2Store.OversizedDynamicIndexAccepted`); exact conditions:
  `E2Store.AcceptedIndexLength`, `E2Store.AcceptedDynamicIndexLength`.
- An ABI without events is looked up again as soon as a named event is wanted;
  exact conditions: `AbiResolution.CacheAnswersLater`, when the contract is asked for
  the same names only, and `AbiResolution.CacheAnswersAlwaysIff`, for all requests.
- Receipts are accepted in bytes that are not their encoding: a status item that is not
  0x01, 0x80 or a 32-byte string (`Codec.LooseStatus`), and bytes behind the receipt of
  a wrapped ERA1 item (`Codec.WrappedItemDecodes`). Exact conditions, which also say
  that nothing else is read loosely: `Codec.ItemCanonicalIff`, `Codec.SlimCanonicalIff`.

### Where the code and its documentation differ

- `crates/scopenode-core/src/era_pipeline.rs:346-347` says coverage is recorded for
  a scope that completes without a failure; a scope whose coverage write fails, or
  whose archive has gaps, keeps the intervals written before and is reported as
  incomplete. The model follows the code.
- `crates/scopenode-storage/src/types.rs:17-19` says one row more than the limit is
  always fetched; the code does so at the limit 10000 only. The model follows the code.

## Hypotheses of the main theorems

`History.HonestChain` and `History.GoodHistory` state what the code relies on: the
header's bloom covers its logs and its receipts root is the root of the block's
receipts and of no other trie; blocks are filed under their header's number; scopes
end below 2^63. Results 1 to 3 ask that all runs agree on which of the topics a query
asks for they decode for the contract; a query by event name also asks that a topic's
event has the same name in all runs. Receipts and transaction hashes in the archive
are arbitrary. These results compare rows by contract, topic0, block, transaction
index, log index, topics and data; `Rows` adds the other fields.

## Model

| member | source | states |
|---|---|---|
| Rlp.DecodeHeader | crates/scopenode-core/src/codec.rs:68-71 | the announced payload lies inside the input, and only a byte below 0x80 consumes nothing |
| Rlp.HeaderCanonical | crates/scopenode-core/src/codec.rs:145-150 | an accepted header is the one the encoder would write for its payload |
| Rlp.PayloadRoundTrip | crates/scopenode-core/src/codec.rs:120-122 | decoding an item gives back its payload and the bytes that follow |
| Rlp.PayloadCanonical | crates/scopenode-core/src/codec.rs:120-122 | every accepted item is the encoding of its payload |
| Rlp.UintRoundTrip | crates/scopenode-core/src/codec.rs:152-154 | integers up to the field's width survive encoding |
| Rlp.UintCanonical | crates/scopenode-core/src/codec.rs:152-154 | an accepted integer is in its minimal form |
| Rlp.EncodeInjective | crates/scopenode-core/src/codec.rs:120-122 | different payloads have different encodings |
| Rlp.PrefixBytes | crates/scopenode-core/src/codec.rs:68-71 | every prefix byte by byte: one byte up to 55 payload bytes, beyond that the number of length digits and the digits |
| Rlp.ItemBytes | crates/scopenode-core/src/codec.rs:120-122 | an item is its prefix and payload, a string of one byte below 0x80 itself |
| Receipts.LogRoundTrip | crates/scopenode-core/src/codec.rs:155 | a log survives encoding, whatever follows |
| Receipts.LogsRoundTrip | crates/scopenode-core/src/codec.rs:155 | a list of logs survives encoding |
| Receipts.StatusRoundTrip | crates/scopenode-core/src/codec.rs:153 | a status flag or state root survives encoding |
| Receipts.WithBloomRoundTrip | crates/scopenode-core/src/codec.rs:113-117 | a receipt body with bloom survives encoding |
| Receipts.LogCanonical | crates/scopenode-core/src/codec.rs:155 | an accepted log is the encoding of the log it yields |
| Receipts.LogsCanonical | crates/scopenode-core/src/codec.rs:155 | the same for a list of logs |
| Receipts.StatusCanonicalIff | crates/scopenode-core/src/codec.rs:153 | an accepted status item is canonical exactly when it starts with 0x01, 0x80 or 0xA0 |
| Receipts.WithBloomCanonicalIff | crates/scopenode-core/src/codec.rs:113-117 | an accepted receipt body is the encoding of its receipt exactly when its status item is canonical |
| Receipts.OneTopicLogBytes | crates/scopenode-core/src/codec.rs:155 | the bytes of a log: address, topics and data, in this order |
| Receipts.EmptyReceiptBytes | crates/scopenode-core/src/codec.rs:113-158 | the bytes of a receipt in consensus and slim form, for every type, status and bloom |
| Receipts.StateRootBytes | crates/scopenode-core/src/codec.rs:153 | a state root is a string of 32 bytes |
| Codec.DecodeFullReceipt | crates/scopenode-core/src/codec.rs:106-138 | one full receipt: result and remaining cursor are those of DecodeFull, and the cursor shrinks |
| Codec.DecodeSlimReceipt | crates/scopenode-core/src/codec.rs:142-173 | one slim receipt: result and remaining cursor are those of DecodeSlim, and the cursor shrinks |
| Codec.DecodeReceipts | crates/scopenode-core/src/codec.rs:55-85 | the one decode loop returns what the recursive section decoder does, errors included |
| Codec.FullItemRoundTrip | crates/scopenode-core/src/codec.rs:106-138 | every receipt of types 0 to 4, in either item form, decodes to itself |
| Codec.SlimItemRoundTrip | crates/scopenode-core/src/codec.rs:142-173 | a slim item decodes to its receipt with the bloom of its logs |
| Codec.SlimItemBloom | crates/scopenode-core/src/codec.rs:160 | the bloom of every accepted slim item has exactly the bits that the addresses and topics of its logs set |
| Codec.FullSectionRoundTrip | crates/scopenode-core/src/codec.rs:55-85 | an ERA1 section gives back its receipts in order, for every mix of item forms |
| Codec.SlimSectionRoundTrip | crates/scopenode-core/src/codec.rs:55-85 | an ERE section gives back its receipts in order with recomputed blooms |
| Codec.LayoutsAgreeIff | crates/scopenode-core/src/codec.rs:29-39 | the layouts decode to the same receipts exactly when every stored bloom is that of its logs |
| Codec.WrappedItemDecodes | crates/scopenode-core/src/codec.rs:119-131 | bytes after the receipt inside a wrapped item do not change it |
| Codec.LooseStatus | crates/scopenode-core/src/codec.rs:153 | any byte below 0x80 and the empty list are read as a status |
| Codec.ItemCanonicalIff | crates/scopenode-core/src/codec.rs:106-138 | an accepted ERA1 item is the encoding of its receipt in some form exactly when its status item is canonical and a wrapped receipt ends its byte string |
| Codec.SlimCanonicalIff | crates/scopenode-core/src/codec.rs:142-173 | an accepted slim item is the encoding of its receipt exactly when its status item is canonical |
| Codec.Encode2718Injective | crates/scopenode-core/src/receipts.rs:56-65 | different receipts have different consensus encodings |
| Codec.UnknownTypeRejected | crates/scopenode-core/src/codec.rs:87-101 | an explicit type outside 1 to 4, zero included, is refused in both typed forms |
| Codec.SlimTrailingRejected | crates/scopenode-core/src/codec.rs:156-158 | bytes behind the logs of a slim item are an error |
| Codec.RefusedItems | crates/scopenode-core/src/codec.rs:55-145 | empty items, empty byte strings, and strings in place of a list are refused, each with its error |
| TxHashes.DecodeTxHashes | crates/scopenode-core/src/codec.rs:206-284 | the hashes are those of the preimage walk; a bad header ends it with one zero hash |
| TxHashes.TurnTiles | crates/scopenode-core/src/codec.rs:237-278 | one turn consumes a non-empty prefix that carries exactly the bytes it hashes |
| TxHashes.SlicesTile | crates/scopenode-core/src/codec.rs:232-281 | consumed slices cover the payload, none skipped or reused, one per hash |
| TxHashes.UndecodableIsLast | crates/scopenode-core/src/codec.rs:239-245 | the zero hash can only be the last |
| TxHashes.ItemsWalk | crates/scopenode-core/src/codec.rs:232-281 | well-formed items are cut where they were joined |
| TxHashes.BodyHashes | crates/scopenode-core/src/codec.rs:206-284 | the bytes hashed are the EIP-2718 encodings, in order, one per transaction, for any mix of item forms |
| TxHashes.HashesInOrder | crates/scopenode-core/src/codec.rs:280 | one hash per transaction, at its own index, of its EIP-2718 encoding |
| TxHashes.BrokenItemHash | crates/scopenode-core/src/codec.rs:239-245 | bytes that no transaction header starts add one hash of 32 zero bytes behind the hashes before them |
| Blooms.SetBitBits | crates/scopenode-core/src/headers.rs:71-77 | setting a bit changes that bit and no other |
| Blooms.AccrueBits | crates/scopenode-core/src/headers.rs:71-77 | accruing an input sets exactly its three bits |
| Blooms.AccruedBloomHoldsLogs | crates/scopenode-core/src/codec.rs:160 | a bloom accrued from logs holds every address and topic of them |
| Blooms.LogsBloomBits | crates/scopenode-core/src/codec.rs:160 | a bit is set exactly when it is one of the three of some address or topic of the logs |
| Blooms.HasBitByte | crates/scopenode-core/src/headers.rs:71-77 | where a bit lies in the 256 bytes |
| Blooms.InputBitIs | crates/scopenode-core/src/headers.rs:71-77 | the three bits of an input are the low 11 bits of the first three byte pairs of its hash |
| Blooms.MatchesIff | crates/scopenode-core/src/headers.rs:44-83 | the scanner passes a bloom exactly when the address and some configured topic may be in it |
| Blooms.NoFalseNegatives | crates/scopenode-core/src/headers.rs:56-83 | a bloom that holds a configured log is passed |
| Abi.NewDecoder | crates/scopenode-core/src/abi.rs:177-186 | the decoder exists exactly when every event compiles, filed by topic0 with the later event winning |
| Abi.DecoderTopics | crates/scopenode-core/src/abi.rs:178-181 | the decoder knows exactly the topics of its events |
| Abi.FiledEventIsLast | crates/scopenode-core/src/abi.rs:178-181 | the event filed under a topic is the last one with that topic |
| Abi.DecodeLog | crates/scopenode-core/src/abi.rs:230-256 | a log becomes an event exactly when address and topic0 match |
| Abi.ExtractAndDecode | crates/scopenode-core/src/abi.rs:188-221 | the nested loops extract from the block's flattened logs |
| Abi.ExtractComplete | crates/scopenode-core/src/abi.rs:188-221 | every matching log is extracted with its own flat position as log index |
| Abi.ExtractSound | crates/scopenode-core/src/abi.rs:188-221 | nothing else is extracted |
| Abi.ExtractOrdered | crates/scopenode-core/src/abi.rs:198-204 | log indices strictly increase and lie below the block's log count |
| Abi.ExtractNothing | crates/scopenode-core/src/abi.rs:230-236 | a block without matching logs yields no event |
| Trie.KeyIsRlp | crates/scopenode-core/src/receipts.rs:86-107 | the hand-written key is the canonical RLP encoding of the index |
| Trie.KeysPrefixFree | crates/scopenode-core/src/receipts.rs:92-107 | no key is a prefix of another, so keys are distinct |
| Trie.KeyOrder | crates/scopenode-core/src/receipts.rs:67 | lexicographic key order is 1 to 127, then 0, then 128 upward |
| Trie.SortedLeaves | crates/scopenode-core/src/receipts.rs:56-67 | the sorted leaves for any receipt count, with strictly ascending keys |
| Trie.SortSorts | crates/scopenode-core/src/receipts.rs:67 | sorting by key is a non-descending permutation |
| Trie.SortedUnique | crates/scopenode-core/src/receipts.rs:67 | strictly ascending leaves have no other sorted arrangement |
| Trie.PathsAscend | crates/scopenode-core/src/receipts.rs:69-72 | every leaf given to the builder comes strictly after, and not below, the one before |
| Trie.VerifyEra1Receipts | crates/scopenode-core/src/receipts.rs:38-84 | accepts exactly when the root of the receipt trie is the expected one, the empty list included |
| Trie.TrieLookup | crates/scopenode-core/src/receipts.rs:56-65 | the trie maps the key of each index to that receipt's encoding and nothing else |
| Trie.TrieDeterminesReceipts | crates/scopenode-core/src/receipts.rs:38-84 | equal tries come from equal lists: same length, order and receipts |
| Trie.AcceptedReceiptsAreGenuine | crates/scopenode-core/src/receipts.rs:38-84 | receipts are accepted under a binding root exactly when they are the genuine ones |
| Pipeline.MakeScopePrepared | crates/scopenode-core/src/era_pipeline.rs:174-195 | scanner and decoder of a prepared scope look for the same topics |
| Pipeline.ProcessBlock | crates/scopenode-core/src/era_pipeline.rs:251-297 | one block's outcome is the specified one, on every path |
| Pipeline.HitsDecodeAll | crates/scopenode-core/src/era_pipeline.rs:261-288 | decoding the bloom hits equals decoding every in-range scope |
| Pipeline.BloomChangesNothing | crates/scopenode-core/src/era_pipeline.rs:251-297 | events and failure are those of decoding every in-range scope without a bloom test |
| Rows.FlatPlace | crates/scopenode-core/src/abi.rs:198-204 | the log index of the j-th log of a transaction is j plus the logs of the transactions before it |
| Rows.RowIsStored | crates/scopenode-core/src/era_pipeline.rs:563-571 | every log a hit scope looks for has its row after a store that is not rolled back |
| Rows.RowOrigin | crates/scopenode-core/src/era_pipeline.rs:563-571 | every row a block adds is that of one of its logs, as a scope that looks for it decodes it; rows already stored stay |
| Rows.StoredRow | crates/scopenode-core/src/abi.rs:188-256 | the row of the j-th log of transaction t, field by field: that transaction's hash or 32 zero bytes, the header's number, hash and timestamp, the filed event's name and decode flag, the log's own topics and data |
| Rows.NoLogIsSkipped | crates/scopenode-core/src/era_pipeline.rs:261-266 | under an honest header bloom a scope has a hit on every block with a log it looks for |
| Rows.RowTxHash | crates/scopenode-core/src/era1_reader.rs:61 | in a block with a body of well-formed transactions that hash is keccak of the EIP-2718 encoding of transaction t |
| Present.PushPresentBlock | crates/scopenode-core/src/era_pipeline.rs:480-489 | edits one scope's intervals in place and no other's |
| Present.PresentWasPushed | crates/scopenode-core/src/era_pipeline.rs:480-489 | for any arrival order an interval holds pushed blocks only |
| Present.PresentSeparated | crates/scopenode-core/src/era_pipeline.rs:480-489 | for any arrival order in which no 0 follows the largest block, intervals stay ascending, disjoint and never adjacent |
| Present.PresentSeparatedIff | crates/scopenode-core/src/era_pipeline.rs:483-489 | for any order of at most 2^64 arrivals, intervals are separated exactly when no 0 follows the largest block |
| Present.WrappedInterval | crates/scopenode-core/src/era_pipeline.rs:485 | the largest block and then 0 give an interval that ends before it starts |
| Present.PresentShape | crates/scopenode-core/src/era_pipeline.rs:480-489 | the same for non-descending arrivals up to the maximum, ending at the last block |
| Present.PresentExact | crates/scopenode-core/src/era_pipeline.rs:480-489 | for non-descending arrivals the intervals hold exactly the pushed blocks |
| Present.MissingSubranges | crates/scopenode-core/src/era_pipeline.rs:491-506 | the cursor loop returns the gaps of the recursive definition |
| Present.PartitionIff | crates/scopenode-core/src/era_pipeline.rs:491-506 | present and gaps partition the range, except exactly when it ends at the largest block and that block is present |
| Present.GapsMaximal | crates/scopenode-core/src/era_pipeline.rs:491-506 | no gap can be widened |
| Present.SaturatedGap | crates/scopenode-core/src/era_pipeline.rs:500-504 | at the largest block the saturating cursor reports a present block as missing |
| Present.NoGapsIff | crates/scopenode-core/src/era_pipeline.rs:593-612 | there is no gap exactly when the one interval is the whole range |
| Storage.Db.InsertEvents | crates/scopenode-storage/src/db.rs:63-108 | inserting in chunks of 500 equals inserting row by row, or changes nothing when rolled back |
| Storage.Db.RecordCoveredRange | crates/scopenode-storage/src/coverage.rs:19-37 | adds the cast range, or changes nothing when rolled back |
| Storage.FirstWriteWins | crates/scopenode-storage/src/migrations/003_schema_hardening.sql:26 | a key keeps its row, and a new key takes the first row offered |
| Storage.InsertRowsConcat | crates/scopenode-storage/src/db.rs:76-102 | inserting two batches is inserting their concatenation |
| Storage.RerunChangesNothing | crates/scopenode-storage/src/db.rs:61-63 | repeating any sequence of batches leaves the table unchanged |
| Storage.RangeAnswersIff | crates/scopenode-storage/src/coverage.rs:40-66 | for all recorded and requested bounds, which requests a recorded range answers after the signed cast |
| Storage.CastGap | crates/scopenode-storage/src/coverage.rs:58-60 | with blocks 5 to 10 covered, the query from 7 to 2^63 is answered Empty |
| Storage.RangeAnswersContained | crates/scopenode-storage/src/coverage.rs:40-66 | the answer agrees with containment exactly when range and request both straddle 2^63, or neither, or a bound on one side already differs |
| Storage.CastQueryIsEmpty | crates/scopenode-storage/src/query.rs:70-110 | a covered request that straddles 2^63 is answered Empty, whatever rows are stored |
| Storage.SelectExists | crates/scopenode-storage/src/db.rs:392-419 | every table has an ordered answer to every query |
| Storage.SelectUnique | crates/scopenode-storage/src/db.rs:411-416 | with unique log indices the query order is total and the answer unique |
| Storage.OnePage | crates/scopenode-storage/src/db.rs:309-341 | limit and offset cut exactly that page out of the ordered result |
| Storage.PagesConcatenate | crates/scopenode-storage/src/db.rs:299-355 | pages of any size below the cap concatenate to the ordered result, each row once |
| Storage.RefusedIff | crates/scopenode-storage/src/query.rs:70-92 | not indexed exactly when the contract is not in the table; missing coverage exactly when it is and a range with both bounds is not covered |
| Storage.AnsweredWindow | crates/scopenode-storage/src/db.rs:299-355 | every other query, for any limit and offset: the window of the ordered result, marked as cut short exactly at the limit 10000 when more was left |
| Storage.MissingBounds | crates/scopenode-storage/src/db.rs:303-304 | a query without bounds selects what the query from 0 to 2^63 - 1 selects |
| Sync.MarkScopes | crates/scopenode-core/src/era_pipeline.rs:551-561 | exactly the scopes containing the block are updated, the first failure kept |
| Sync.StoreBlock | crates/scopenode-core/src/era_pipeline.rs:563-571 | the sink is called only for a block with events |
| Sync.RecordScopes | crates/scopenode-core/src/era_pipeline.rs:582-624 | every coverage write is made in order with its own outcome, up to a scope's first failure; covered and incomplete lists follow the verdicts |
| Sync.RunPreparedScopes | crates/scopenode-core/src/era_pipeline.rs:508-640 | the run loop leaves the tables and gives the report of the closed form, in which every store and coverage write has its own outcome |
| Sync.ReadsExec | crates/scopenode-core/src/era_pipeline.rs:532-572 | reading the items is the machine's read steps with the outcomes of their stores |
| Sync.WritesExec | crates/scopenode-core/src/era_pipeline.rs:593-623 | one scope's coverage writes and verdict are the machine's record steps |
| Sync.RunIsExec | crates/scopenode-core/src/era_pipeline.rs:508-640 | the closed form of a run is what the machine computes along its steps |
| Reports.FirstFailureIff | crates/scopenode-core/src/era_pipeline.rs:551-561 | a scope has a failure exactly when some block in its range failed |
| Reports.OutcomeIs | crates/scopenode-core/src/era_pipeline.rs:251-297 | what becomes of a block, case by case: which scopes contain it, which have a bloom hit, whether the receipts verify and the events decode |
| Reports.FailureReason | crates/scopenode-core/src/era_pipeline.rs:543-549 | a verify failure exactly when some scope has a hit and the receipts do not verify; a decode failure exactly when they do and some event of a hit scope does not decode |
| Reports.ExecKeepsReport | crates/scopenode-core/src/era_pipeline.rs:508-640 | at every step intervals, first failures and read errors are those of the items read, and a verdict without a gap has its intervals recorded |
| Reports.ReadAllIs | crates/scopenode-core/src/era_pipeline.rs:532-572 | what a run accumulates: a store failure exactly when a store that was needed failed, and as total the events whose store succeeded |
| Reports.VerdictExact | crates/scopenode-core/src/era_pipeline.rs:574-624 | each scope's verdict from the items and write outcomes: block failure, read error, store failure, coverage-write failure, or the gaps, in this order |
| Reports.ExecIsRun | crates/scopenode-core/src/era_pipeline.rs:508-640 | every state of every history is one of a run whose store outcomes and failed coverage writes are those of the history |
| Reports.AppliedWritesNeverFail | crates/scopenode-core/src/era_pipeline.rs:563-608 | a history in which every write is applied reports no failed write |
| Reports.RunFailureWithholdsAll | crates/scopenode-core/src/era_pipeline.rs:574-591 | a read error, or a needed store that failed, leaves every scope incomplete |
| Reports.BlockFailureWithholdsExactly | crates/scopenode-core/src/era_pipeline.rs:551-591 | a failing block withholds coverage from exactly the scopes containing it, with the scope's first failure as reason |
| Reports.ReasonExact | crates/scopenode-core/src/era_pipeline.rs:543-561 | a scope is reported with a verify failure exactly when the first failing block of its range has receipts that do not verify, with a decode failure exactly when that block has an event that does not decode |
| Reports.OtherReasonsExact | crates/scopenode-core/src/era_pipeline.rs:574-612 | exactly when the reason is a source failure, a store failure, a failed coverage write, or none of these |
| Reports.MissingRangeIsFirst | crates/scopenode-core/src/era_pipeline.rs:610-622 | the missing sub-range reported is the first: all blocks of the scope before it arrived, none of it did, and it cannot be extended |
| Reports.CoverageExact | crates/scopenode-core/src/era_pipeline.rs:593-608 | the coverage a run adds is exactly the intervals whose write was reached and not rolled back |
| Reports.CoveredLists | crates/scopenode-core/src/era_pipeline.rs:582-624 | the report lists as covered exactly the scopes with that verdict |
| Reports.IncompleteLists | crates/scopenode-core/src/era_pipeline.rs:582-624 | and as incomplete exactly the others, each with its reason |
| Reports.CoveredScopeIsRecorded | crates/scopenode-core/src/era_pipeline.rs:593-612 | a covered scope has exactly its own range recorded, so every request inside it is answered |
| Reports.CoveredIffAllArrived | crates/scopenode-core/src/era_pipeline.rs:574-612 | a scope whose blocks arrived in order is covered exactly when no block of it failed, nothing failed to be read, every needed store and its one coverage write succeeded, and all its blocks arrived |
| Reports.EachScopeOnce | crates/scopenode-core/src/era_pipeline.rs:582-624 | every prepared scope is in the report once |
| Reports.EachContractOnce | crates/scopenode-core/src/era_pipeline.rs:457-478 | prepared and failed contracts together are the configured ones, each once |
| Reports.FailedLists | crates/scopenode-core/src/era_pipeline.rs:457-478 | contracts that could not be prepared are listed under their name, or their address if they have none |
| History.GenuineReceipts | crates/scopenode-core/src/era_pipeline.rs:268-275 | a block of an honest chain verifies exactly when its receipts are the chain's |
| History.ProcessSound | crates/scopenode-core/src/era_pipeline.rs:251-297 | every event of a block becomes a row that is the chain's log at its place |
| History.ProcessComplete | crates/scopenode-core/src/era_pipeline.rs:251-297 | unless verification fails, every wanted log of every containing scope is among the events |
| History.StoredBlockComplete | crates/scopenode-core/src/era_pipeline.rs:563-571 | a block without failure whose events were stored is complete for its scopes |
| History.StepKeepsInv | crates/scopenode-core/src/era_pipeline.rs:508-640 | every step keeps: rows are the chain's, and covered blocks are complete |
| History.HistoryKeepsInv | crates/scopenode-core/src/era_pipeline.rs:508-640 | this holds at every state of every history, crashes included |
| History.ChainAnswerMembers | crates/scopenode-storage/src/query.rs:64-69 | the expected answer holds exactly the wanted logs of the range |
| History.SoundTableUnique | crates/scopenode-core/src/abi.rs:198-204 | no two rows of a block share a log index, over all runs |
| History.AnswersAreBounded | crates/scopenode-storage/src/query.rs:70-110 | for any event sets, an answer has every log all runs look for and none that no run looks for |
| History.HistoryKeepsNames | crates/scopenode-core/src/abi.rs:241-244 | when a contract's events carry the names of their topics in all runs, so do its stored rows |
| History.SelectIsChain | crates/scopenode-storage/src/db.rs:299-355 | a SELECT over complete blocks is exactly the chain's answer, in order |
| History.CoveredAnswersAreExact | crates/scopenode-storage/src/query.rs:70-110 | when the runs agree on the topics asked for, a range query, with or without topic0 or event name, is refused or returns exactly the chain's matching logs, once each and in order |
| History.EveryLimitIsExact | crates/scopenode-storage/src/db.rs:299-355 | the same for every limit and offset: the window of the chain's answer; at the limit 10000 it is capped exactly when more than 10000 logs were left, and at no other limit ever |
| History.OneBlockRunRecords | crates/scopenode-core/src/era_pipeline.rs:593-612 | a run over a block its scope does not look at records that block as covered |
| History.UnconfiguredTopicLooksEmpty | crates/scopenode-storage/src/coverage.rs:24-36 | after such a run a query for a topic that was never configured is answered Empty although the chain has the log |
| Promise.RunExtendsHistory | crates/scopenode-core/src/era_pipeline.rs:508-640 | the steps of a run loop over honest blocks extend a history to one the theorems cover |
| Promise.TablesGrow | crates/scopenode-storage/src/coverage.rs:19-37 | rows, coverage and contracts are never taken back |
| Promise.CoveredScopeStaysExact | crates/scopenode-core/src/era_pipeline.rs:612 | once reported as covered, a scope's queries are answered exactly, whatever follows |
| Promise.AnswersAcrossSteps | crates/scopenode-storage/src/query.rs:70-110 | the same when runs go on between reading contracts, coverage and rows |
| Promise.PagesAreTheChain | crates/scopenode-storage/src/db.rs:299-355 | paging through a covered range while runs go on gives the chain's logs once each, in order, and no page is refused |
| ChangedEvents.ChangedEventSetBreaksPromise | crates/scopenode-storage/src/coverage.rs:24-36 | whenever the sets really decoded by two runs differ on a topic asked for, some honest history answers a covered query Empty although the chain has the log |
| ChangedEvents.QuietRunRecords | crates/scopenode-core/src/era_pipeline.rs:508-640 | a run over any range whose logs its scope does not look for stores nothing and covers exactly the range |
| ChangedEvents.PromiseKeptIff | crates/scopenode-storage/src/coverage.rs:24-36 | for every query, naming and pair of topic sets: all histories decoding them keep the promise exactly when the runs agree on the topics asked for, or the range is backward |
| ChangedEvents.EventAddedLater | crates/scopenode-storage/src/coverage.rs:24-36 | two runs at block 7, the second with an added event: a query for it answers Empty and the chain has the log |
| E2Store.EncodedFileScans | crates/scopenode-core/src/e2store.rs:343-398 | reading a well-framed file gives back its entries |
| E2Store.BlockIndexRoundTrip | crates/scopenode-core/src/e2store.rs:400-445 | an encoded index of n blocks parses to start to start + n - 1, zero blocks to an error |
| E2Store.DynamicIndexRoundTrip | crates/scopenode-core/src/e2store.rs:447-497 | the same for the dynamic index with two to five components |
| E2Store.AcceptedIndexLength | crates/scopenode-core/src/e2store.rs:422-431 | an accepted index is as long as its count says exactly when the count is below 2^61 |
| E2Store.OversizedIndexAccepted | crates/scopenode-core/src/e2store.rs:422-431 | sixteen bytes claiming 2^61 blocks are accepted |
| E2Store.AcceptedDynamicIndexLength | crates/scopenode-core/src/e2store.rs:474-483 | an accepted dynamic index is as long as it says exactly when the count times the components it states stay below 2^61 |
| E2Store.OversizedDynamicIndexAccepted | crates/scopenode-core/src/e2store.rs:474-483 | twenty-four bytes claiming 2^59 blocks of four components are accepted |
| E2Store.ReadEra1BlockIndexRange | crates/scopenode-core/src/e2store.rs:280-335 | the seeking loop returns the specified scan's result, errors included |
| E2Store.SeekAgreesWithFullRead | crates/scopenode-core/src/e2store.rs:280-398 | on every file, seeking and reading everything meet the same first index entry |
| ArchiveBytes.HeaderBytes | crates/scopenode-core/src/e2store.rs:343-371 | an entry header byte by byte: two type bytes, four length bytes with the lowest first, two zero bytes |
| ArchiveBytes.WordBytes | crates/scopenode-core/src/e2store.rs:400-445 | an index word byte by byte, the lowest first |
| ArchiveBytes.BlockIndexOutcome | crates/scopenode-core/src/e2store.rs:400-445 | which index entries are accepted, with which range, and which error the others give |
| ArchiveBytes.DiskIndexFound | crates/scopenode-core/src/e2store.rs:280-335 | in a file written byte by byte the index found is the entry of type 66 32 or 67 32, errors of its parser included |
| ArchiveBytes.TruncatedFile | crates/scopenode-core/src/e2store.rs:280-335 | a file cut off anywhere before its index has none, which is no error; cut off inside the index it is one |
| ArchiveBytes.NoVersion | crates/scopenode-core/src/e2store.rs:302-310 | a file that does not start with the version record 65 32 is refused |
| BlockTuples.BlockTupleIter.TryPopBlock | crates/scopenode-core/src/e2store.rs:138-166 | pops the next tuple exactly when every component is pending |
| BlockTuples.BlockTupleIter.FinishSection | crates/scopenode-core/src/e2store.rs:168-201 | leftovers or a count that differs from the index are one error |
| BlockTuples.BlockTupleIter.Next | crates/scopenode-core/src/e2store.rs:204-238 | the n-th call yields the file's n-th item: complete blocks in order, then at most one error, then nothing forever |
| BlockTuples.IterEra1BlockTuples | crates/scopenode-core/src/e2store.rs:245-278 | opening finds the index first and starts at the first block |
| BlockTuples.MoreEntries | crates/scopenode-core/src/e2store.rs:204-238 | later entries never change blocks already complete |
| BlockTuples.CleanCloseIff | crates/scopenode-core/src/e2store.rs:168-201 | the stream is free of errors exactly when each type has as many entries as the index has blocks |
| BlockTuples.LayoutIrrelevant | crates/scopenode-core/src/e2store.rs:204-238 | interleaved and sectioned files with the same components yield the same items |
| ArchiveBytes.Era1FileReads | crates/scopenode-core/src/e2store.rs:7-14 | whatever the order of the entries, the i-th block has the i-th header 03 00, body 04 00, receipts 05 00 and difficulty 06 00 and the number start + i; how the file ends |
| ArchiveBytes.EreFileReads | crates/scopenode-core/src/e2store.rs:7-14 | the same for ERE files, with slim receipts 0a 00 and no difficulty |
| BlockTuples.FileIndexFound | crates/scopenode-core/src/e2store.rs:280-335 | the index found in an encoded file is the one written |
| BlockTuples.FindBlock | crates/scopenode-core/src/e2store.rs:42-78 | the search loop returns the wanted tuple, or how reading ended |
| BlockTuples.ReadEra1BlockTuple | crates/scopenode-core/src/e2store.rs:25-79 | random access by block number, for blocks inside and outside the index |
| BlockTuples.RandomAccessAgrees | crates/scopenode-core/src/e2store.rs:25-79 | random access returns a tuple exactly when the iterator yields it at that position, broken files included |
| BlockTuples.RandomAccessNumber | crates/scopenode-core/src/e2store.rs:64-70 | the tuple returned carries the number asked for |
| AbiResolution.InputRoundTrip | crates/scopenode-core/src/abi_resolution.rs:137-144 | an input survives serialising, components nested to any depth |
| AbiResolution.EventsRoundTrip | crates/scopenode-core/src/abi_resolution.rs:118-160 | serialising and parsing a list of events is the identity |
| AbiResolution.InputFields | crates/scopenode-core/src/abi_resolution.rs:124-131 | an input object parses exactly when it has a string name and type, a flag, and components that all parse |
| AbiResolution.InputArray | crates/scopenode-core/src/abi_resolution.rs:124-131 | the same for an input given as an array of three or four fields |
| AbiResolution.InputsDropped | crates/scopenode-core/src/abi_resolution.rs:124-131 | of an event's inputs exactly those that parse are kept, in order |
| AbiResolution.EntryContributes | crates/scopenode-core/src/abi_resolution.rs:118-135 | an entry contributes an event exactly when its type is "event" and its name a string |
| AbiResolution.OtherEntriesIgnored | crates/scopenode-core/src/abi_resolution.rs:121 | entries of any other type contribute nothing, wherever they stand |
| AbiResolution.FilterEvents | crates/scopenode-core/src/abi_resolution.rs:162-187 | the selection loop returns the specified events or error |
| AbiResolution.ByNameIsLast | crates/scopenode-core/src/abi_resolution.rs:174-177 | a name is known exactly when some event has it, and of events with one name the last is kept |
| AbiResolution.PickMeaning | crates/scopenode-core/src/abi_resolution.rs:179-186 | events come in the wanted order; the error names the first missing one |
| AbiResolution.FilterMeaning | crates/scopenode-core/src/abi_resolution.rs:162-187 | all events for "*"; otherwise for each name in the wanted order the last event of that name, or the first name that no event has |
| AbiResolution.ResolveEvents | crates/scopenode-core/src/abi_resolution.rs:40-96 | answer and cache after one resolution, on every path |
| AbiResolution.CacheDecides | crates/scopenode-core/src/abi_resolution.rs:46-54 | a usable or unreadable cache entry decides the answer and nothing is saved |
| AbiResolution.OverrideDecides | crates/scopenode-core/src/abi_resolution.rs:56-73 | past the cache an override that parses decides answer and saved entry, whatever the fetcher does |
| AbiResolution.FetcherDecides | crates/scopenode-core/src/abi_resolution.rs:75-93 | otherwise the fetcher decides them, asked for the implementation address if one is configured and for the contract's own if not |
| AbiResolution.NothingDecides | crates/scopenode-core/src/abi_resolution.rs:95 | with neither, definitions are asked for and nothing is saved |
| AbiResolution.OneAddressMatters | crates/scopenode-core/src/abi_resolution.rs:75-80 | answer and saved entry depend on the fetcher at that one address only |
| AbiResolution.FreshResolution | crates/scopenode-core/src/abi_resolution.rs:56-93 | a resolution past the cache answers from what it found and saves it |
| AbiResolution.CacheAnswersLater | crates/scopenode-core/src/abi_resolution.rs:40-96 | later resolutions of any configuration with the same address and names, after any resolutions in between that ask the contract for nothing else, answer the same from the cache, using neither file nor fetcher, exactly when events were found or all were asked for |
| AbiResolution.StaysSettled | crates/scopenode-core/src/abi_resolution.rs:46-54 | a usable cache entry survives every sequence of resolutions whose loads succeed |
| AbiResolution.CacheAnswersAlwaysIff | crates/scopenode-core/src/abi_resolution.rs:40-96 | over all sequences of resolutions of any contracts and names, the answer lasts exactly when events were found |
| BlockFacts.DecodeBlock | crates/scopenode-core/src/era1_reader.rs:55-72 | a tuple becomes facts, or an error item when header or receipts do not decode; a bad body only loses the hashes |
| BlockFacts.BodyGivesHashes | crates/scopenode-core/src/era1_reader.rs:61 | a body of well-formed transactions gives one hash per transaction, in order, of its EIP-2718 encoding |
| BlockFacts.ReadBlockFacts | crates/scopenode-core/src/era1_reader.rs:44-74 | the items of a file, in order, or none when it has no usable index |
| BlockFacts.OpensIff | crates/scopenode-core/src/e2store.rs:245-278 | a file opens exactly when it starts with a version record and its first index entry parses |
| ArchiveBytes.Era1FileFacts | crates/scopenode-core/src/era1_reader.rs:44-74 | from the bytes of an ERA1 file to the facts of its blocks, one by one, and at most one error |
| ArchiveBytes.EreFileFacts | crates/scopenode-core/src/era1_reader.rs:44-74 | the same for an ERE file and its slim receipts |
| BlockFacts.CleanFileIff | crates/scopenode-core/src/era1_reader.rs:44-74 | a file streams exactly its index range without errors exactly when every type has one entry per block and every header and receipt section decodes |
| BlockFacts.CleanFileFromBytes | crates/scopenode-core/src/source.rs:83-103 | the same for a scanned file of the directory |
| BlockFacts.FormatsAgreeIff | crates/scopenode-core/src/era1_reader.rs:48-72 | a block written in both formats is read as the same facts exactly when every bloom is that of its logs, or its header does not decode |
| Runs.NewScope | crates/scopenode-core/src/era_pipeline.rs:174-195 | a scope exists exactly when events resolve and compile and the range has an end; the ABI cache afterwards |
| Runs.PrepareScopes | crates/scopenode-core/src/era_pipeline.rs:457-478 | scopes and failures in configuration order, decided by resolving each contract; a lone contract's failure fails the run |
| Runs.ConfiguredIs | crates/scopenode-core/src/era_pipeline.rs:457-478 | each contract is prepared in its turn, with the cache that the ones before it left |
| Runs.PreparedIff | crates/scopenode-core/src/era_pipeline.rs:174-195 | a scope exists exactly when the events resolve and compile and an end is configured |
| Runs.RunEra1Scopes | crates/scopenode-core/src/era_pipeline.rs:409-431 | the run reads the files selected for the prepared scopes; tables and report are the run's, with its write outcomes, and every configured contract is in the report exactly once |
| Runs.RunSourceFailureIff | crates/scopenode-core/src/era_pipeline.rs:409-431 | a run reads exactly the files with a block of some scope; one that cannot be opened or read withholds coverage from every scope, as a source failure exactly when no block of the scope failed |
| Runs.RunCoveredIff | crates/scopenode-core/src/era_pipeline.rs:409-431 | over clean ascending files a prepared scope is covered exactly when the directory holds its blocks and nothing failed |
| Runs.ScopeTopics | crates/scopenode-core/src/era_pipeline.rs:174-195 | a scope looks for exactly the topics of the events that were resolved |
| Runs.LaterScopesDecodeTheSame | crates/scopenode-core/src/era_pipeline.rs:174-195 | after events were found and saved, every later scope of the contract with the same names has the same decoder |
| Earned.GenuineBlockFailsIff | crates/scopenode-core/src/era_pipeline.rs:251-297 | a block with honest header and genuine receipts fails exactly when some log a containing scope looks for does not decode |
| Earned.HonestArchiveIsCovered | crates/scopenode-core/src/era_pipeline.rs:508-640 | over an honest archive a scope is covered exactly when its blocks' logs decode, every needed store and its coverage write succeeded, and the files hold its range |
| Earned.ResolvedDecoder | crates/scopenode-core/src/abi_resolution.rs:40-96 | a scope from a saved resolution, at once or in any later run, has that resolution's decoder |
| Earned.LaterScopeIsGood | crates/scopenode-core/src/era_pipeline.rs:174-195 | such a scope meets what the coverage promise asks of scopes |
| Earned.ResolvedAnswersAreExact | crates/scopenode-storage/src/query.rs:70-110 | when every contract's scopes come from one saved resolution, range queries are refused or exact for the topics it decodes |
| Source.ScanEra1Source | crates/scopenode-core/src/source.rs:224-294 | keeps the files whose range meets the bounds; an unreadable index fails the scan |
| Source.ScannedIff | crates/scopenode-core/src/source.rs:240-254 | the scan keeps exactly the files that share a block with the bounds, filed under the range of their index, or of their name without one |
| Source.ScanErrorIs | crates/scopenode-core/src/source.rs:240 | it fails exactly when some index cannot be read, with the first such error |
| Source.WholeScan | crates/scopenode-core/src/source.rs:224-294 | without bounds it keeps every file, in directory order |
| Source.ScopesInUnion | crates/scopenode/src/commands/sync.rs:34-42 | every scope lies in the union range |
| Source.UnionIsTight | crates/scopenode/src/commands/sync.rs:34-42 | each bound of the union is one of a configured contract; without any end there is none |
| Source.UnionFilterIsHarmless | crates/scopenode-core/src/source.rs:126-139 | filtering by the union and then by scope selects the same files as by scope alone |
| Source.SelectionKeepsBlocks | crates/scopenode-core/src/source.rs:126-139 | selection drops no file that holds a requested block |
| Source.SelectedIff | crates/scopenode-core/src/source.rs:126-139 | a file is read exactly when it shares a block with a request |
| Source.TotalCounts | crates/scopenode-core/src/source.rs:141-145 | the progress total is the number of blocks of the selected ranges |
| Source.CleanStream | crates/scopenode-core/src/source.rs:83-103 | clean files stream exactly their blocks, in order, as many as the total |
| Source.StreamErrorIff | crates/scopenode-core/src/source.rs:83-103 | for any files, the stream has a read error exactly when some file cannot be opened or yields one |
| Source.StreamInOrder | crates/scopenode-core/src/source.rs:83-103 | every file's items, or one error in their place, are in the stream in the order of the files |
| Source.SourceFailureIff | crates/scopenode-core/src/era_pipeline.rs:574-591 | a selected file that cannot be opened or read leaves every scope incomplete, with a source failure exactly when none of its own blocks failed |
| Source.AscendingNumbers | crates/scopenode-core/src/source.rs:83-103 | ascending disjoint files stream non-descending block numbers |
| Source.CoveredIffFilesHoldRange | crates/scopenode-core/src/era_pipeline.rs:574-612 | over clean ascending files a scope is covered exactly when no block of it failed, every needed store and its coverage write succeeded, and the files hold its range |

## Left out

- Snappy: decompression is the identity on payload bytes; a failing decompression is not modelled.
- keccak256, the topic0 of a signature and the trie root are uninterpreted functions; the root is assumed to separate only the chain's own receipt tries from all others.
- The library `HashBuilder` is modelled by the key/value map it is given and by the order it insists on.
- ABI value decoding and JSON rendering: a log either decodes or does not; stored rows carry only that flag, and a rerun never rewrites it.
- JSON text: the cache holds parsed JSON; printing and reading text are taken to be inverse.
- SQLite: tables are maps and sets with the unique keys, a transaction is atomic, and a query may meet ties in any order; SQL text, connection pools and migrations are not modelled.
- Text forms of addresses, hashes and topics in the database: rows hold the values; a query that spells an address differently from the stored checksum form is not modelled.
- Queries without a contract or without both bounds are not coverage-gated by the program; the main theorems speak of queries with both, and of any topic0 and event-name filter.
- Async scheduling: one writer, with queries possible between any two of its steps.
- File system errors and directory listing: a file is its bytes, an unreadable file one error item.
- The RLP library's own decoders of logs, receipts and status flags are not part of the repository: `Receipts` follows their documented behaviour, and that nothing but the status item and trailing bytes is read loosely rests on their strict checks, such as the list check on a log's header.
- Header decoding (`crates/scopenode-core/src/codec.rs:177-202`) is an uninterpreted function from bytes to a header or nothing.
- The ABI cache and the list of indexed contracts are one table in the program; here the texts are in `AbiResolution.AbiStore` and the addresses in `Storage.Db`, and saving an ABI is a step of the machine of its own.
- Runs.NewScope: which error a failed preparation had is not kept, as the report names only the failure.
- The choice of archive format by path extension is a flag.
- BlockTuples.BlockTupleIter.FinishSection: the error counts headers, bodies and receipts as the message does, so leftover difficulties alone give three zeros.
- E2Store.ReadEra1BlockIndexRange: file offsets are unbounded, so the overflow of a 64-bit offset is not modelled.
- Source.TotalCounts: the total is summed without 64-bit wrap-around.
- Abi.ExtractOrdered: log and transaction counters are taken modulo 2^64, so the order is stated for blocks with fewer than 2^64 logs.
- Checksums, file names, Sourcify, JSON-RPC and REST servers, command line, progress and logging: input, output and user interface.
- `projection.rs`, `models.rs`, `filter_plan.rs`, `query_front_door.rs`, `parse_block_shorthand`: format conversion and floating point that would add only easy members.
