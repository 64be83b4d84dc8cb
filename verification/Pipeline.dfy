/** Evaluating one block against every contract scope. */
module Pipeline {
  import opened Types
  import opened Abi
  import Blooms
  import Trie

  /** Library code the pipeline calls: keccak256, the trie root, field decoding. */
  datatype Env = Env(keccak: Blooms.Hasher, root: Trie.RootHash, fields: FieldDecoder)

  /** A prepared scope: a contract's block range with its scanner and decoder. */
  datatype Scope = Scope(contract: Address, from: U64, to: U64, scanner: seq<Blooms.Target>, decoder: Decoder)

  function MakeScope(topic0: TopicHash, contract: Address, from: U64, to: U64, events: seq<EventAbi>): Scope {
    Scope(contract, from, to, Blooms.NewScanner(Topics(topic0, events), contract),
          Decoder(EventMap(topic0, events), contract))
  }

  /** The scanner looks for the decoder's topics at the decoder's contract. */
  ghost predicate Prepared(s: Scope) {
    exists topics :: PreparedFrom(s, topics)
  }

  ghost predicate PreparedFrom(s: Scope, topics: seq<B256>) {
    && s.scanner == Blooms.NewScanner(topics, s.contract)
    && s.decoder.contract == s.contract
    && forall t :: t in s.decoder.events <==> t in topics
  }

  lemma MakeScopePrepared(topic0: TopicHash, contract: Address, from: U64, to: U64, events: seq<EventAbi>)
    ensures Prepared(MakeScope(topic0, contract, from, to, events))
  {
    forall t ensures t in EventMap(topic0, events) <==> t in Topics(topic0, events) {
      DecoderTopics(topic0, events, t);
    }
    assert PreparedFrom(MakeScope(topic0, contract, from, to, events), Topics(topic0, events));
  }

  predicate ContainsBlock(s: Scope, n: U64) {
    s.from <= n <= s.to
  }

  datatype Header = Header(number: U64, hash: B256, timestamp: U64, receiptsRoot: B256, bloom: Bloom)

  datatype Facts = Facts(blockNumber: U64, header: Header, receipts: seq<Receipt>, txHashes: seq<B256>)

  datatype BlockOutcome =
    | OutsideRange
    | NoBloomMatch
    | Evaluated(events: seq<DecodedEvent>)
    | VerifyFailed
    | DecodeFailed(events: seq<DecodedEvent>)

  // ── Specification ──────────────────────────────────────────────────────────

  function InRange(scopes: seq<Scope>, n: U64): seq<Scope> {
    if scopes == [] then []
    else
      var last := scopes[|scopes| - 1];
      InRange(scopes[..|scopes| - 1], n) + if ContainsBlock(last, n) then [last] else []
  }

  function BloomHits(keccak: Blooms.Hasher, scopes: seq<Scope>, bloom: Bloom): seq<Scope> {
    if scopes == [] then []
    else
      var last := scopes[|scopes| - 1];
      BloomHits(keccak, scopes[..|scopes| - 1], bloom)
      + if Blooms.Matches(keccak, last.scanner, bloom) then [last] else []
  }

  function Context(f: Facts): BlockContext {
    BlockContext(f.header.number, f.header.hash, f.header.timestamp, f.txHashes)
  }

  function Decode(env: Env, s: Scope, f: Facts): seq<DecodedEvent> {
    Extract(env.fields, s.decoder, Context(f), FlatLogs(f.receipts))
  }

  function DecodeAll(env: Env, scopes: seq<Scope>, f: Facts): seq<DecodedEvent> {
    if scopes == [] then []
    else DecodeAll(env, scopes[..|scopes| - 1], f) + Decode(env, scopes[|scopes| - 1], f)
  }

  /** The receipts are those the header commits to. A receipt list is indexed by
      machine words, so it is always shorter than 2^64. */
  predicate Verifies(env: Env, f: Facts) {
    |f.receipts| < TWO64 && env.root(Trie.ReceiptTrie(f.receipts)) == f.header.receiptsRoot
  }

  predicate AnyDecodeError(events: seq<DecodedEvent>) {
    exists i | 0 <= i < |events| :: events[i].decodeFailed
  }

  function Process(env: Env, scopes: seq<Scope>, f: Facts): BlockOutcome {
    var inRange := InRange(scopes, f.blockNumber);
    if inRange == [] then OutsideRange else
    var hits := BloomHits(env.keccak, inRange, f.header.bloom);
    if hits == [] then NoBloomMatch
    else if !Verifies(env, f) then VerifyFailed
    else
      var events := DecodeAll(env, hits, f);
      if AnyDecodeError(events) then DecodeFailed(events) else Evaluated(events)
  }

  function EventsOf(o: BlockOutcome): seq<DecodedEvent> {
    if o.Evaluated? || o.DecodeFailed? then o.events else []
  }

  // ── The block evaluator ────────────────────────────────────────────────────

  method ProcessBlock(env: Env, scopes: seq<Scope>, f: Facts) returns (o: BlockOutcome)
    requires |f.receipts| < TWO64
    ensures o == Process(env, scopes, f)
  {
    hide Blooms.Matches, Trie.ReceiptTrie, Decode;
    var inRange: seq<Scope> := [];
    for i := 0 to |scopes|
      invariant inRange == InRange(scopes[..i], f.blockNumber)
    {
      assert scopes[..i + 1][..i] == scopes[..i];
      if ContainsBlock(scopes[i], f.blockNumber) {
        inRange := inRange + [scopes[i]];
      }
    }
    assert scopes[..|scopes|] == scopes;
    if inRange == [] {
      return OutsideRange;
    }

    var hits: seq<Scope> := [];
    for i := 0 to |inRange|
      invariant hits == BloomHits(env.keccak, inRange[..i], f.header.bloom)
    {
      assert inRange[..i + 1][..i] == inRange[..i];
      if Blooms.Matches(env.keccak, inRange[i].scanner, f.header.bloom) {
        hits := hits + [inRange[i]];
      }
    }
    assert inRange[..|inRange|] == inRange;
    if hits == [] {
      return NoBloomMatch;
    }

    var verified := Trie.VerifyEra1Receipts(env.root, f.receipts, f.header.receiptsRoot, f.header.number);
    if verified.Err? {
      return VerifyFailed;
    }

    var events: seq<DecodedEvent> := [];
    for i := 0 to |hits|
      invariant events == DecodeAll(env, hits[..i], f)
    {
      assert hits[..i + 1][..i] == hits[..i];
      var more := ExtractAndDecode(env.fields, hits[i].decoder, Context(f), f.receipts);
      DecodeUnfold(env, hits[i], f);
      events := events + more;
    }
    assert hits[..|hits|] == hits;
    return if AnyDecodeError(events) then DecodeFailed(events) else Evaluated(events);
  }

  lemma DecodeUnfold(env: Env, s: Scope, f: Facts)
    ensures Decode(env, s, f) == Extract(env.fields, s.decoder, Context(f), FlatLogs(f.receipts))
  {
  }

  // ── The bloom test changes nothing ─────────────────────────────────────────

  /** The bloom holds the address and every topic of every log of the block. */
  ghost predicate HoldsFlat(keccak: Blooms.Hasher, bloom: Bloom, flat: seq<FlatLog>) {
    forall k | 0 <= k < |flat| :: Blooms.HoldsLog(keccak, bloom, flat[k].log)
  }

  lemma MatchingScopeHits(keccak: Blooms.Hasher, s: Scope, bloom: Bloom, log: Log)
    requires Prepared(s) && Blooms.HoldsLog(keccak, bloom, log) && IsMatch(s.decoder, log)
    ensures Blooms.Matches(keccak, s.scanner, bloom)
  {
    hide Blooms.HoldsLog, Blooms.Matches;
    var topics :| PreparedFrom(s, topics);
    Blooms.NoFalseNegatives(keccak, topics, s.contract, bloom, log);
  }

  lemma SkippedScopeHasNoEvents(env: Env, s: Scope, f: Facts)
    requires Prepared(s) && HoldsFlat(env.keccak, f.header.bloom, FlatLogs(f.receipts))
    requires !Blooms.Matches(env.keccak, s.scanner, f.header.bloom)
    ensures Decode(env, s, f) == []
  {
    hide Blooms.HoldsLog, Blooms.Matches, FlatLogs, IsMatch, Prepared;
    var flat := FlatLogs(f.receipts);
    forall k | 0 <= k < |flat| ensures !IsMatch(s.decoder, flat[k].log) {
      if IsMatch(s.decoder, flat[k].log) {
        MatchingScopeHits(env.keccak, s, f.header.bloom, flat[k].log);
      }
    }
    ExtractNothing(env.fields, s.decoder, Context(f), flat);
  }

  lemma {:induction false} HitsDecodeAll(env: Env, scopes: seq<Scope>, f: Facts)
    requires forall s | s in scopes :: Prepared(s)
    requires HoldsFlat(env.keccak, f.header.bloom, FlatLogs(f.receipts))
    ensures DecodeAll(env, BloomHits(env.keccak, scopes, f.header.bloom), f) == DecodeAll(env, scopes, f)
  {
    hide Blooms.HoldsLog, Blooms.Matches, FlatLogs, Decode, Prepared, HoldsFlat;
    if scopes != [] {
      var front, last := scopes[..|scopes| - 1], scopes[|scopes| - 1];
      assert forall s | s in front :: s in scopes;
      HitsDecodeAll(env, front, f);
      var hits := BloomHits(env.keccak, front, f.header.bloom);
      if Blooms.Matches(env.keccak, last.scanner, f.header.bloom) {
        assert (hits + [last])[..|hits|] == hits;
      } else {
        SkippedScopeHasNoEvents(env, last, f);
        assert DecodeAll(env, front, f) + [] == DecodeAll(env, front, f);
        assert hits + [] == hits;
      }
    }
  }

  lemma {:induction false} InRangeMembers(scopes: seq<Scope>, n: U64, s: Scope)
    ensures s in InRange(scopes, n) <==> s in scopes && ContainsBlock(s, n)
  {
    if scopes != [] {
      InRangeMembers(scopes[..|scopes| - 1], n, s);
      assert scopes == scopes[..|scopes| - 1] + [scopes[|scopes| - 1]];
    }
  }

  /** For a block whose header bloom covers its logs and whose receipts verify,
      the bloom test never changes the events: they are those of decoding every
      in-range scope. */
  lemma BloomChangesNothing(env: Env, scopes: seq<Scope>, f: Facts)
    requires forall s | s in scopes :: Prepared(s)
    requires HoldsFlat(env.keccak, f.header.bloom, FlatLogs(f.receipts))
    requires Verifies(env, f)
    ensures EventsOf(Process(env, scopes, f)) == DecodeAll(env, InRange(scopes, f.blockNumber), f)
    ensures Process(env, scopes, f).DecodeFailed? <==>
            AnyDecodeError(DecodeAll(env, InRange(scopes, f.blockNumber), f))
    ensures !Process(env, scopes, f).VerifyFailed?
  {
    hide Verifies, Prepared, HoldsFlat, BloomHits, InRange;
    var inRange := InRange(scopes, f.blockNumber);
    forall s | s in inRange ensures Prepared(s) {
      InRangeMembers(scopes, f.blockNumber, s);
    }
    HitsDecodeAll(env, inRange, f);
  }

  lemma {:induction false} HitsMembers(keccak: Blooms.Hasher, scopes: seq<Scope>, bloom: Bloom, s: Scope)
    ensures s in BloomHits(keccak, scopes, bloom) <==> s in scopes && Blooms.Matches(keccak, s.scanner, bloom)
  {
    hide Blooms.Matches;
    if scopes != [] {
      HitsMembers(keccak, scopes[..|scopes| - 1], bloom, s);
      assert scopes == scopes[..|scopes| - 1] + [scopes[|scopes| - 1]];
    }
  }

  lemma {:induction false} DecodeAllMembers(env: Env, scopes: seq<Scope>, f: Facts, e: DecodedEvent)
    ensures e in DecodeAll(env, scopes, f) <==> exists s :: s in scopes && e in Decode(env, s, f)
  {
    hide Decode;
    if scopes != [] {
      var front, last := scopes[..|scopes| - 1], scopes[|scopes| - 1];
      DecodeAllMembers(env, front, f, e);
      assert scopes == front + [last];
      assert last in scopes;
      if e in DecodeAll(env, front, f) {
        var s :| s in front && e in Decode(env, s, f);
        assert s in scopes;
      }
      if s :| s in scopes && e in Decode(env, s, f) {
        assert s in front || s == last;
      }
    }
  }
}
