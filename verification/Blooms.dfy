/** The 2048-bit logs bloom and the per-scope scanner that uses it to skip blocks. */
module Blooms {
  import opened Types

  /** keccak256, left uninterpreted. */
  type Hasher = Bytes -> B256

  function ZeroBloom(): Bloom {
    seq(256, _ => 0)
  }

  // ── Bits ───────────────────────────────────────────────────────────────────

  predicate BitSet(n: nat, k: nat) {
    if k == 0 then n % 2 == 1 else BitSet(n / 2, k - 1)
  }

  function Pow2(w: nat): nat {
    if w == 0 then 1 else 2 * Pow2(w - 1)
  }

  lemma EvenPow2(w: nat)
    requires w > 0
    ensures Pow2(w) % 2 == 0
  {
  }

  /** `n | 1 << k` for a word of `w` bits. */
  function SetBit(n: nat, k: nat, w: nat): (r: nat)
    requires k < w && n < Pow2(w)
    ensures r < Pow2(w)
  {
    if k == 0 then
      EvenPow2(w);
      n - n % 2 + 1
    else
      2 * SetBit(n / 2, k - 1, w - 1) + n % 2
  }

  lemma {:induction false} SetBitBits(n: nat, k: nat, w: nat, j: nat)
    requires k < w && n < Pow2(w)
    ensures BitSet(SetBit(n, k, w), j) <==> j == k || BitSet(n, j)
    decreases w
  {
    if k == 0 {
      assert SetBit(n, k, w) / 2 == n / 2;
    } else {
      var half := SetBit(n / 2, k - 1, w - 1);
      assert SetBit(n, k, w) / 2 == half;
      if j > 0 {
        SetBitBits(n / 2, k - 1, w - 1, j - 1);
      }
    }
  }

  predicate HasBit(bloom: Bloom, bit: nat)
    requires bit < 2048
  {
    BitSet(bloom[255 - bit / 8], bit % 8)
  }

  function AddBit(bloom: Bloom, bit: nat): Bloom
    requires bit < 2048
  {
    var i := 255 - bit / 8;
    assert Pow2(8) == 256;
    bloom[i := SetBit(bloom[i], bit % 8, 8)]
  }

  lemma AddBitBits(bloom: Bloom, bit: nat, other: nat)
    requires bit < 2048 && other < 2048
    ensures HasBit(AddBit(bloom, bit), other) <==> other == bit || HasBit(bloom, other)
  {
    assert bit == 8 * (bit / 8) + bit % 8;
    assert other == 8 * (other / 8) + other % 8;
    assert Pow2(8) == 256;
    SetBitBits(bloom[255 - bit / 8], bit % 8, 8, other % 8);
  }

  predicate Covers(bloom: Bloom, other: Bloom) {
    forall bit | 0 <= bit < 2048 :: HasBit(other, bit) ==> HasBit(bloom, bit)
  }

  // ── Inputs ─────────────────────────────────────────────────────────────────

  /** The i-th of the three bits an input sets. */
  function InputBit(hash: B256, i: nat): (bit: nat)
    requires i < 3
    ensures bit < 2048
  {
    ((hash[2 * i] as int) * 256 + hash[2 * i + 1]) % 2048
  }

  function Accrue(keccak: Hasher, bloom: Bloom, input: Bytes): Bloom {
    var hash := keccak(input);
    AddBit(AddBit(AddBit(bloom, InputBit(hash, 0)), InputBit(hash, 1)), InputBit(hash, 2))
  }

  /** The bloom might hold `input`: every bit the input sets is set. */
  predicate Contains(keccak: Hasher, bloom: Bloom, input: Bytes) {
    Covers(bloom, Accrue(keccak, ZeroBloom(), input))
  }

  lemma AccrueBits(keccak: Hasher, bloom: Bloom, input: Bytes, bit: nat)
    requires bit < 2048
    ensures var h := keccak(input);
            HasBit(Accrue(keccak, bloom, input), bit) <==>
            bit == InputBit(h, 0) || bit == InputBit(h, 1) || bit == InputBit(h, 2) || HasBit(bloom, bit)
  {
    var h := keccak(input);
    var b1 := AddBit(bloom, InputBit(h, 0));
    var b2 := AddBit(b1, InputBit(h, 1));
    AddBitBits(bloom, InputBit(h, 0), bit);
    AddBitBits(b1, InputBit(h, 1), bit);
    AddBitBits(b2, InputBit(h, 2), bit);
  }

  /** Accruing keeps what was there and adds the input. */
  lemma AccrueContains(keccak: Hasher, bloom: Bloom, input: Bytes)
    ensures Covers(Accrue(keccak, bloom, input), bloom)
    ensures Contains(keccak, Accrue(keccak, bloom, input), input)
  {
    forall bit | 0 <= bit < 2048
      ensures HasBit(bloom, bit) ==> HasBit(Accrue(keccak, bloom, input), bit)
      ensures HasBit(Accrue(keccak, ZeroBloom(), input), bit) ==> HasBit(Accrue(keccak, bloom, input), bit)
    {
      AccrueBits(keccak, bloom, input, bit);
      AccrueBits(keccak, ZeroBloom(), input, bit);
    }
  }

  function AccrueTopics(keccak: Hasher, bloom: Bloom, topics: seq<B256>): Bloom {
    if topics == [] then bloom
    else Accrue(keccak, AccrueTopics(keccak, bloom, topics[..|topics| - 1]), topics[|topics| - 1])
  }

  function AccrueLogs(keccak: Hasher, bloom: Bloom, logs: seq<Log>): Bloom {
    if logs == [] then bloom
    else
      var log := logs[|logs| - 1];
      var before := AccrueLogs(keccak, bloom, logs[..|logs| - 1]);
      AccrueTopics(keccak, Accrue(keccak, before, log.address), log.topics)
  }

  function LogsBloom(keccak: Hasher, logs: seq<Log>): Bloom {
    AccrueLogs(keccak, ZeroBloom(), logs)
  }

  /** The bloom holds the address and every topic of every log. */
  ghost predicate HoldsLogs(keccak: Hasher, bloom: Bloom, logs: seq<Log>) {
    forall i | 0 <= i < |logs| :: HoldsLog(keccak, bloom, logs[i])
  }

  ghost predicate HoldsLog(keccak: Hasher, bloom: Bloom, log: Log) {
    && Contains(keccak, bloom, log.address)
    && forall t | t in log.topics :: Contains(keccak, bloom, t)
  }

  lemma {:induction false} AccrueTopicsContains(keccak: Hasher, bloom: Bloom, topics: seq<B256>)
    ensures Covers(AccrueTopics(keccak, bloom, topics), bloom)
    ensures forall t | t in topics :: Contains(keccak, AccrueTopics(keccak, bloom, topics), t)
  {
    if topics != [] {
      var front, last := topics[..|topics| - 1], topics[|topics| - 1];
      AccrueTopicsContains(keccak, bloom, front);
      AccrueContains(keccak, AccrueTopics(keccak, bloom, front), last);
      assert topics == front + [last];
    }
  }

  lemma CoversTransitive(a: Bloom, b: Bloom, c: Bloom)
    requires Covers(a, b) && Covers(b, c)
    ensures Covers(a, c)
  {
    forall bit | 0 <= bit < 2048 ensures HasBit(c, bit) ==> HasBit(a, bit) {
      assert HasBit(c, bit) ==> HasBit(b, bit);
    }
  }

  lemma HoldsLogMonotone(keccak: Hasher, big: Bloom, small: Bloom, log: Log)
    requires Covers(big, small) && HoldsLog(keccak, small, log)
    ensures HoldsLog(keccak, big, log)
  {
    CoversTransitive(big, small, Accrue(keccak, ZeroBloom(), log.address));
    forall t | t in log.topics ensures Contains(keccak, big, t) {
      assert Contains(keccak, small, t);
      CoversTransitive(big, small, Accrue(keccak, ZeroBloom(), t));
    }
  }

  lemma AccruedLogHeld(keccak: Hasher, before: Bloom, log: Log)
    ensures var after := AccrueTopics(keccak, Accrue(keccak, before, log.address), log.topics);
            Covers(after, before) && HoldsLog(keccak, after, log)
  {
    var mid := Accrue(keccak, before, log.address);
    AccrueContains(keccak, before, log.address);
    AccrueTopicsContains(keccak, mid, log.topics);
    var after := AccrueTopics(keccak, mid, log.topics);
    CoversTransitive(after, mid, before);
    CoversTransitive(after, mid, Accrue(keccak, ZeroBloom(), log.address));
  }

  /** A bloom accrued from logs holds all of them: honest headers meet `HoldsLogs`. */
  lemma {:induction false} AccruedBloomHoldsLogs(keccak: Hasher, bloom: Bloom, logs: seq<Log>)
    ensures HoldsLogs(keccak, AccrueLogs(keccak, bloom, logs), logs)
  {
    hide HoldsLog, Covers, Accrue, AccrueTopics;
    if logs != [] {
      var front, log := logs[..|logs| - 1], logs[|logs| - 1];
      var before := AccrueLogs(keccak, bloom, front);
      AccruedBloomHoldsLogs(keccak, bloom, front);
      AccruedLogHeld(keccak, before, log);
      var after := AccrueLogs(keccak, bloom, logs);
      forall i | 0 <= i < |front| ensures HoldsLog(keccak, after, logs[i]) {
        assert logs[i] == front[i];
        HoldsLogMonotone(keccak, after, before, front[i]);
      }
    }
  }

  // ── Exactly which bits ─────────────────────────────────────────────────────

  const WEIGHTS: seq<nat> := [1, 2, 4, 8, 16, 32, 64, 128]

  lemma HalvedWeight(n: nat, k: nat)
    requires 0 < k < 8
    ensures n / 2 / WEIGHTS[k - 1] == n / WEIGHTS[k]
  {
    if k == 1 {
      assert n / 2 / 1 == n / 2;
    } else if k == 2 {
      assert n / 2 / 2 == n / 4;
    } else if k == 3 {
      assert n / 2 / 4 == n / 8;
    } else if k == 4 {
      assert n / 2 / 8 == n / 16;
    } else if k == 5 {
      assert n / 2 / 16 == n / 32;
    } else if k == 6 {
      assert n / 2 / 32 == n / 64;
    } else {
      assert n / 2 / 64 == n / 128;
    }
  }

  lemma {:induction false} ByteBit(n: nat, k: nat)
    requires k < 8
    ensures BitSet(n, k) <==> n / WEIGHTS[k] % 2 == 1
  {
    hide WEIGHTS;
    if k > 0 {
      ByteBit(n / 2, k - 1);
      HalvedWeight(n, k);
    } else {
      FirstWeight(n);
    }
  }

  lemma FirstWeight(n: nat)
    ensures n / WEIGHTS[0] == n
  {
  }

  /** Bit `b` of a bloom is bit `b mod 8` of the byte `b / 8` from the end. */
  lemma HasBitByte(bloom: Bloom, bit: nat)
    requires bit < 2048
    ensures HasBit(bloom, bit) <==> bloom[|bloom| - 1 - bit / 8] / WEIGHTS[bit % 8] % 2 == 1
  {
    ByteBit(bloom[255 - bit / 8], bit % 8);
  }

  /** The bits of an input: the low eleven bits of the first three byte pairs of its hash. */
  lemma InputBitIs(hash: B256, i: nat)
    requires i < 3
    ensures var high: int, low: int := hash[2 * i], hash[2 * i + 1];
            InputBit(hash, i) == 256 * (high % 8) + low
  {
    var high: int, low: int := hash[2 * i], hash[2 * i + 1];
    assert high == 8 * (high / 8) + high % 8;
  }

  ghost predicate SetBy(keccak: Hasher, input: Bytes, bit: nat) {
    exists i: nat :: i < 3 && bit == InputBit(keccak(input), i)
  }

  /** The bit belongs to the log's address or to one of its topics. */
  ghost predicate SetByLog(keccak: Hasher, log: Log, bit: nat) {
    SetBy(keccak, log.address, bit) || exists t | t in log.topics :: SetBy(keccak, t, bit)
  }

  ghost predicate SetBySome(keccak: Hasher, logs: seq<Log>, bit: nat) {
    exists log | log in logs :: SetByLog(keccak, log, bit)
  }

  lemma AccrueSets(keccak: Hasher, bloom: Bloom, input: Bytes, bit: nat)
    requires bit < 2048
    ensures HasBit(Accrue(keccak, bloom, input), bit) <==> SetBy(keccak, input, bit) || HasBit(bloom, bit)
  {
    hide HasBit, Accrue, InputBit;
    AccrueBits(keccak, bloom, input, bit);
    var h := keccak(input);
    if bit == InputBit(h, 0) || bit == InputBit(h, 1) || bit == InputBit(h, 2) {
      var i: nat := if bit == InputBit(h, 0) then 0 else if bit == InputBit(h, 1) then 1 else 2;
      assert bit == InputBit(keccak(input), i);
    }
  }

  lemma {:induction false} AccrueTopicsBits(keccak: Hasher, bloom: Bloom, topics: seq<B256>, bit: nat)
    requires bit < 2048
    ensures HasBit(AccrueTopics(keccak, bloom, topics), bit)
            <==> (exists t | t in topics :: SetBy(keccak, t, bit)) || HasBit(bloom, bit)
  {
    hide HasBit, Accrue, SetBy;
    if topics != [] {
      var front, last := topics[..|topics| - 1], topics[|topics| - 1];
      assert topics == front + [last];
      AccrueTopicsBits(keccak, bloom, front, bit);
      AccrueSets(keccak, AccrueTopics(keccak, bloom, front), last, bit);
    }
  }

  lemma SetBySnoc(keccak: Hasher, front: seq<Log>, last: Log, bit: nat)
    ensures SetBySome(keccak, front + [last], bit) <==> SetBySome(keccak, front, bit) || SetByLog(keccak, last, bit)
  {
    hide SetByLog;
    assert last in front + [last];
  }

  lemma {:induction false} AccrueLogsBits(keccak: Hasher, bloom: Bloom, logs: seq<Log>, bit: nat)
    requires bit < 2048
    ensures HasBit(AccrueLogs(keccak, bloom, logs), bit) <==> SetBySome(keccak, logs, bit) || HasBit(bloom, bit)
  {
    hide HasBit, Accrue, AccrueTopics, SetBy;
    if logs != [] {
      var front, last := logs[..|logs| - 1], logs[|logs| - 1];
      assert logs == front + [last];
      var before := AccrueLogs(keccak, bloom, front);
      AccrueLogsBits(keccak, bloom, front, bit);
      AccrueSets(keccak, before, last.address, bit);
      AccrueTopicsBits(keccak, Accrue(keccak, before, last.address), last.topics, bit);
      SetBySnoc(keccak, front, last, bit);
    }
  }

  lemma {:induction false} ZeroBits(k: nat)
    ensures !BitSet(0, k)
  {
    if k > 0 {
      ZeroBits(k - 1);
    }
  }

  /** A bit of the logs bloom is set exactly when an address or a topic of some log
      sets it; a log's data sets none. */
  lemma LogsBloomBits(keccak: Hasher, logs: seq<Log>, bit: nat)
    requires bit < 2048
    ensures HasBit(LogsBloom(keccak, logs), bit) <==> SetBySome(keccak, logs, bit)
  {
    hide AccrueLogs, SetBySome;
    AccrueLogsBits(keccak, ZeroBloom(), logs, bit);
    ZeroBits(bit % 8);
  }

  // ── Scanner ────────────────────────────────────────────────────────────────

  datatype Target = Target(address: Bytes, topics: seq<Bytes>)

  /** One target per configured event. */
  function NewScanner(topic0s: seq<B256>, address: Address): (targets: seq<Target>) {
    seq(|topic0s|, i requires 0 <= i < |topic0s| => Target(address, [topic0s[i]]))
  }

  predicate TargetMatches(keccak: Hasher, bloom: Bloom, target: Target) {
    && Contains(keccak, bloom, target.address)
    && exists t | t in target.topics :: Contains(keccak, bloom, t)
  }

  predicate Matches(keccak: Hasher, targets: seq<Target>, bloom: Bloom) {
    exists target | target in targets :: TargetMatches(keccak, bloom, target)
  }

  /** The scanner passes a bloom exactly when the address and some configured
      topic might both be in it. */
  lemma MatchesIff(keccak: Hasher, topic0s: seq<B256>, address: Address, bloom: Bloom)
    ensures Matches(keccak, NewScanner(topic0s, address), bloom) <==>
            Contains(keccak, bloom, address) && exists t | t in topic0s :: Contains(keccak, bloom, t)
  {
    var targets := NewScanner(topic0s, address);
    if Matches(keccak, targets, bloom) {
      var target :| target in targets && TargetMatches(keccak, bloom, target);
      var i :| 0 <= i < |targets| && targets[i] == target;
      assert topic0s[i] in topic0s;
    }
    if Contains(keccak, bloom, address) && exists t | t in topic0s :: Contains(keccak, bloom, t) {
      var i :| 0 <= i < |topic0s| && Contains(keccak, bloom, topic0s[i]);
      assert targets[i] in targets;
      assert targets[i].topics[0] == topic0s[i];
      assert topic0s[i] in targets[i].topics;
      assert TargetMatches(keccak, bloom, targets[i]);
    }
  }

  /** No false negatives: a bloom that holds a configured log passes the scanner. */
  lemma NoFalseNegatives(keccak: Hasher, topic0s: seq<B256>, address: Address, bloom: Bloom, log: Log)
    requires HoldsLog(keccak, bloom, log)
    requires log.address == address && log.topics != [] && log.topics[0] in topic0s
    ensures Matches(keccak, NewScanner(topic0s, address), bloom)
  {
    MatchesIff(keccak, topic0s, address, bloom);
    assert log.topics[0] in log.topics;
  }
}
