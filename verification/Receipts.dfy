/** Encodings of logs and receipts: the consensus form (EIP-2718 receipts), the
    two archive layouts, and the field decoders both layouts share. */
module Receipts {
  import opened Types
  import opened Rlp

  // ── Encoders ───────────────────────────────────────────────────────────────

  function EncodeTopics(topics: seq<B256>): Bytes {
    if topics == [] then [] else EncodeString(topics[0]) + EncodeTopics(topics[1..])
  }

  function LogPayload(log: Log): Bytes {
    EncodeString(log.address) + (EncodeList(EncodeTopics(log.topics)) + EncodeString(log.data))
  }

  function EncodeLogs(logs: seq<Log>): Bytes {
    if logs == [] then [] else EncodeList(LogPayload(logs[0])) + EncodeLogs(logs[1..])
  }

  function EncodeStatus(status: Status): Bytes {
    match status
    case Success(ok) => if ok then [1] else [0x80]
    case PostState(root) => EncodeString(root)
  }

  function BloomAndLogs(r: Receipt): Bytes {
    EncodeString(r.bloom) + EncodeList(EncodeLogs(r.logs))
  }

  function WithBloomPayload(r: Receipt): Bytes {
    EncodeStatus(r.status) + (EncodeUint(r.gasUsed) + BloomAndLogs(r))
  }

  function EncodeWithBloom(r: Receipt): Bytes {
    EncodeList(WithBloomPayload(r))
  }

  /** The consensus encoding, hashed into the receipt trie. */
  function Encode2718(r: Receipt): Bytes {
    if r.kind == 0 then EncodeWithBloom(r) else [r.kind] + EncodeWithBloom(r)
  }

  function FullItem(r: Receipt, form: Form): Bytes {
    if r.kind != 0 && form.Wrapped? then EncodeString(Encode2718(r)) else Encode2718(r)
  }

  function SlimPayload(r: Receipt): Bytes {
    EncodeUint(r.kind) + (EncodeStatus(r.status) + (EncodeUint(r.gasUsed) + EncodeList(EncodeLogs(r.logs))))
  }

  function SlimItem(r: Receipt): Bytes {
    EncodeList(SlimPayload(r))
  }

  /** Receipts whose encoding fits the length range of the format. */
  predicate Fits(r: Receipt) {
    |Encode2718(r)| < TWO64
  }

  // ── Bytes of small items ───────────────────────────────────────────────────

  lemma LongPrefixes()
    ensures HeaderPrefix(true, 56) == [0xF8, 0x38] && HeaderPrefix(true, 262) == [0xF9, 0x01, 0x06]
    ensures HeaderPrefix(false, 256) == [0xB9, 0x01, 0x00]
  {
    assert BeBytes(1) == [1];
    assert BeBytes(56) == [0x38] && BeBytes(262) == [0x01, 0x06] && BeBytes(256) == [0x01, 0x00];
  }

  /** A log with one topic and no data: address, topics and data, in this order. */
  lemma OneTopicLogBytes(address: Address, topic: B256)
    ensures EncodeList(LogPayload(Log(address, [topic], [])))
            == [0xF8, 0x38, 0x94] + address + [0xE1, 0xA0] + topic + [0x80]
  {
    hide HeaderPrefix, BeBytes;
    LongPrefixes();
    ShortPrefixes();
    var log := Log(address, [topic], []);
    assert [topic][1..] == [] && EncodeTopics([]) == [];
    assert EncodeTopics(log.topics) == [0xA0] + topic;
    assert EncodeList(EncodeTopics(log.topics)) == [0xE1, 0xA0] + topic;
    assert LogPayload(log) == [0x94] + address + [0xE1, 0xA0] + topic + [0x80];
  }

  lemma ShortPrefixes()
    ensures HeaderPrefix(false, 0) == [0x80] && HeaderPrefix(false, 20) == [0x94] && HeaderPrefix(false, 32) == [0xA0]
    ensures HeaderPrefix(true, 0) == [0xC0] && HeaderPrefix(true, 4) == [0xC4] && HeaderPrefix(true, 33) == [0xE1]
  {
  }

  /** A receipt without logs in both forms: status, gas, bloom and logs, in this order,
      behind the type byte of a typed receipt; the slim form keeps the type as its first
      field and leaves the bloom out. */
  lemma EmptyReceiptBytes(r: Receipt)
    requires r.logs == [] && 0 < r.gasUsed < 0x80 && r.status.Success?
    ensures var status := if r.status.ok then 0x01 else 0x80;
            var body := [0xF9, 0x01, 0x06, status, r.gasUsed, 0xB9, 0x01, 0x00] + r.bloom + [0xC0];
            && Encode2718(r) == (if r.kind == 0 then body else [r.kind] + body)
            && SlimItem(r) == [0xC4, if r.kind == 0 then 0x80 else r.kind, status, r.gasUsed, 0xC0]
  {
    hide HeaderPrefix, BeBytes;
    LongPrefixes();
    ShortPrefixes();
    SmallUint(r.gasUsed);
    if r.kind != 0 {
      SmallUint(r.kind);
    }
    ZeroUint();
    assert EncodeLogs(r.logs) == [];
    var status := if r.status.ok then 0x01 else 0x80;
    assert EncodeString(r.bloom) == [0xB9, 0x01, 0x00] + r.bloom;
    assert WithBloomPayload(r) == [status, r.gasUsed] + ([0xB9, 0x01, 0x00] + r.bloom + [0xC0]);
    assert SlimPayload(r) == [if r.kind == 0 then 0x80 else r.kind, status, r.gasUsed, 0xC0];
  }

  lemma SmallUint(n: nat)
    requires 0 < n < 0x80
    ensures EncodeUint(n) == [n]
  {
    assert BeBytes(n) == BeBytes(0) + [n];
  }

  lemma ZeroUint()
    ensures EncodeUint(0) == [0x80]
  {
  }

  /** An older receipt carries the state root as a string of 32 bytes. */
  lemma StateRootBytes(root: B256)
    ensures EncodeStatus(PostState(root)) == [0xA0] + root
  {
  }

  // ── Field decoders ─────────────────────────────────────────────────────────

  function DecodeTopics(payload: Bytes): Result<seq<B256>, RlpError>
    decreases |payload|
  {
    if payload == [] then Ok([]) else
    var p :- DecodeFixed(payload, 32);
    var topics :- DecodeTopics(p.rest);
    Ok([p.value] + topics)
  }

  function DecodeLog(buf: Bytes): (r: Result<Parsed<Log>, RlpError>)
    ensures r.Ok? ==> |r.value.rest| < |buf|
  {
    var h :- DecodeHeader(buf);
    if !h.list then Err(UnexpectedString) else
    var address :- DecodeFixed(h.rest, 20);
    var topicList :- DecodePayload(address.rest, true);
    var topics :- DecodeTopics(topicList.value);
    var data :- DecodePayload(topicList.rest, false);
    if |h.rest| - |data.rest| != h.len then Err(UnexpectedLength)
    else Ok(Parsed(Log(address.value, topics, data.value), data.rest))
  }

  function DecodeLogs(payload: Bytes): Result<seq<Log>, RlpError>
    decreases |payload|
  {
    if payload == [] then Ok([]) else
    var p :- DecodeLog(payload);
    var logs :- DecodeLogs(p.rest);
    Ok([p.value] + logs)
  }

  /** A vector of logs: a list header, then logs until the payload is spent. */
  function DecodeLogList(buf: Bytes): (r: Result<Parsed<seq<Log>>, RlpError>)
    ensures r.Ok? ==> |r.value.rest| < |buf|
  {
    var p :- DecodePayload(buf, true);
    var logs :- DecodeLogs(p.value);
    Ok(Parsed(logs, p.rest))
  }

  /** The status field is read by payload length alone. */
  function DecodeStatus(buf: Bytes): (r: Result<Parsed<Status>, RlpError>)
    ensures r.Ok? ==> |r.value.rest| < |buf|
  {
    var h :- DecodeHeader(buf);
    var rest := h.rest[h.len..];
    if h.len == 0 then Ok(Parsed(Success(false), rest))
    else if h.len == 1 then Ok(Parsed(Success(h.rest[0] != 0), rest))
    else if h.len == 32 then Ok(Parsed(PostState(h.rest[..32]), rest))
    else Err(UnexpectedLength)
  }

  /** A receipt body as decoded, before its type is known. */
  datatype WithBloom = WithBloom(status: Status, gasUsed: U64, bloom: Bloom, logs: seq<Log>)

  function DecodeWithBloom(buf: Bytes): (r: Result<Parsed<WithBloom>, RlpError>)
    ensures r.Ok? ==> |r.value.rest| < |buf|
  {
    var h :- DecodeHeader(buf);
    if !h.list then Err(UnexpectedString) else
    var status :- DecodeStatus(h.rest);
    var gas :- DecodeUint(status.rest, 8);
    var bloom :- DecodeFixed(gas.rest, 256);
    var logs :- DecodeLogList(bloom.rest);
    if |h.rest| - |logs.rest| != h.len then Err(ListLengthMismatch)
    else Ok(Parsed(WithBloom(status.value, gas.value, bloom.value, logs.value), logs.rest))
  }

  // ── Round trips ────────────────────────────────────────────────────────────

  lemma FixedRoundTrip(s: Bytes, rest: Bytes)
    requires |s| < TWO64
    ensures DecodeFixed(EncodeString(s) + rest, |s|) == Ok(Parsed(s, rest))
  {
    PayloadRoundTrip(false, s, rest);
  }

  lemma {:induction false} TopicsRoundTrip(topics: seq<B256>)
    ensures DecodeTopics(EncodeTopics(topics)) == Ok(topics)
  {
    hide DecodeFixed, EncodePayload;
    if topics != [] {
      EncodedLength(false, topics[0]);
      FixedRoundTrip(topics[0], EncodeTopics(topics[1..]));
      TopicsRoundTrip(topics[1..]);
      assert topics == [topics[0]] + topics[1..];
    }
  }

  lemma LogRoundTrip(log: Log, rest: Bytes)
    requires |LogPayload(log)| < TWO64
    ensures DecodeLog(EncodeList(LogPayload(log)) + rest) == Ok(Parsed(log, rest))
  {
    hide DecodeHeader, DecodePayload, DecodeFixed, DecodeTopics, EncodePayload, EncodeTopics;
    var topics, data := EncodeTopics(log.topics), EncodeString(log.data);
    var topicList := EncodeList(topics);
    EncodedLength(true, topics);
    EncodedLength(false, log.data);
    HeaderDecodes(true, LogPayload(log), rest);
    assert LogPayload(log) + rest == EncodeString(log.address) + (topicList + (data + rest));
    FixedRoundTrip(log.address, topicList + (data + rest));
    PayloadRoundTrip(true, topics, data + rest);
    TopicsRoundTrip(log.topics);
    PayloadRoundTrip(false, log.data, rest);
  }

  lemma {:induction false} LogsRoundTrip(logs: seq<Log>)
    requires |EncodeLogs(logs)| < TWO64
    ensures DecodeLogs(EncodeLogs(logs)) == Ok(logs)
  {
    hide DecodeLog, LogPayload, EncodePayload;
    if logs != [] {
      var head, tail := EncodeList(LogPayload(logs[0])), EncodeLogs(logs[1..]);
      EncodedLength(true, LogPayload(logs[0]));
      assert EncodeLogs(logs) == head + tail;
      LogRoundTrip(logs[0], tail);
      LogsRoundTrip(logs[1..]);
      assert logs == [logs[0]] + logs[1..];
    }
  }

  lemma LogListRoundTrip(logs: seq<Log>, rest: Bytes)
    requires |EncodeLogs(logs)| < TWO64
    ensures DecodeLogList(EncodeList(EncodeLogs(logs)) + rest) == Ok(Parsed(logs, rest))
  {
    PayloadRoundTrip(true, EncodeLogs(logs), rest);
    LogsRoundTrip(logs);
  }

  lemma StatusRoundTrip(status: Status, rest: Bytes)
    ensures DecodeStatus(EncodeStatus(status) + rest) == Ok(Parsed(status, rest))
  {
    match status
    case Success(ok) =>
      var buf := EncodeStatus(status) + rest;
      assert buf[1..] == rest;
    case PostState(root) =>
      HeaderDecodes(false, root, rest);
      assert (root + rest)[..32] == root;
      assert (root + rest)[32..] == rest;
  }

  function Body(r: Receipt): WithBloom {
    WithBloom(r.status, r.gasUsed, r.bloom, r.logs)
  }

  lemma WithBloomRoundTrip(r: Receipt, rest: Bytes)
    requires |WithBloomPayload(r)| < TWO64
    ensures DecodeWithBloom(EncodeWithBloom(r) + rest) == Ok(Parsed(Body(r), rest))
  {
    hide DecodeHeader, DecodeStatus, DecodeUint, DecodeFixed, DecodeLogList;
    hide EncodeStatus, EncodeUint, EncodeLogs, EncodePayload;
    var gas, bloom, logs := EncodeUint(r.gasUsed), EncodeString(r.bloom), EncodeList(EncodeLogs(r.logs));
    EncodedLength(true, EncodeLogs(r.logs));
    HeaderDecodes(true, WithBloomPayload(r), rest);
    var tail := bloom + (logs + rest);
    assert WithBloomPayload(r) + rest == EncodeStatus(r.status) + (gas + tail);
    StatusRoundTrip(r.status, gas + tail);
    Pow256Eight();
    UintRoundTrip(r.gasUsed, 8, tail);
    FixedRoundTrip(r.bloom, logs + rest);
    LogListRoundTrip(r.logs, rest);
  }

  // ── What is accepted ───────────────────────────────────────────────────────

  lemma {:induction false} TopicsCanonical(payload: Bytes)
    requires DecodeTopics(payload).Ok?
    ensures EncodeTopics(DecodeTopics(payload).value) == payload
    decreases |payload|
  {
    if payload != [] {
      hide EncodePayload, DecodePayload;
      var p := DecodeFixed(payload, 32).value;
      PayloadCanonical(payload, false);
      TopicsCanonical(p.rest);
      var topics := DecodeTopics(payload).value;
      assert topics[1..] == DecodeTopics(p.rest).value;
    }
  }

  lemma LogCanonical(buf: Bytes)
    requires DecodeLog(buf).Ok?
    ensures var p := DecodeLog(buf).value; buf == EncodeList(LogPayload(p.value)) + p.rest
  {
    hide DecodeHeader, HeaderPrefix, DecodePayload, EncodeTopics, DecodeTopics;
    HeaderCanonical(buf);
    var h := DecodeHeader(buf).value;
    var address := DecodeFixed(h.rest, 20).value;
    var topicList := DecodePayload(address.rest, true).value;
    var data := DecodePayload(topicList.rest, false).value;
    LogFieldsCanonical(h.rest);
    var log := DecodeLog(buf).value.value;
    assert h.rest == LogPayload(log) + data.rest;
    assert h.len == |LogPayload(log)|;
    assert buf == HeaderPrefix(true, h.len) + LogPayload(log) + data.rest;
  }

  lemma LogFieldsCanonical(fields: Bytes)
    requires var address := DecodeFixed(fields, 20);
             address.Ok? && DecodePayload(address.value.rest, true).Ok?
             && DecodeTopics(DecodePayload(address.value.rest, true).value.value).Ok?
             && DecodePayload(DecodePayload(address.value.rest, true).value.rest, false).Ok?
    ensures var address := DecodeFixed(fields, 20).value;
            var topicList := DecodePayload(address.rest, true).value;
            var data := DecodePayload(topicList.rest, false).value;
            fields == LogPayload(Log(address.value, DecodeTopics(topicList.value).value, data.value)) + data.rest
  {
    hide DecodePayload, EncodePayload, EncodeTopics, DecodeTopics;
    var address := DecodeFixed(fields, 20).value;
    var topicList := DecodePayload(address.rest, true).value;
    var data := DecodePayload(topicList.rest, false).value;
    PayloadCanonical(fields, false);
    PayloadCanonical(address.rest, true);
    TopicsCanonical(topicList.value);
    PayloadCanonical(topicList.rest, false);
    Regroup(EncodeString(address.value), EncodeList(topicList.value), EncodeString(data.value), data.rest);
  }

  lemma Regroup(a: Bytes, b: Bytes, c: Bytes, rest: Bytes)
    ensures a + (b + (c + rest)) == a + (b + c) + rest
  {
  }

  lemma {:induction false} LogsCanonical(payload: Bytes)
    requires DecodeLogs(payload).Ok?
    ensures EncodeLogs(DecodeLogs(payload).value) == payload
    decreases |payload|
  {
    if payload != [] {
      hide DecodeLog, LogPayload, EncodePayload;
      var p := DecodeLog(payload).value;
      LogCanonical(payload);
      LogsCanonical(p.rest);
      var logs := DecodeLogs(payload).value;
      assert logs[1..] == DecodeLogs(p.rest).value;
    }
  }

  lemma LogListCanonical(buf: Bytes)
    requires DecodeLogList(buf).Ok?
    ensures var p := DecodeLogList(buf).value; buf == EncodeList(EncodeLogs(p.value)) + p.rest
  {
    hide EncodePayload, DecodePayload, EncodeLogs, DecodeLogs;
    PayloadCanonical(buf, true);
    LogsCanonical(DecodePayload(buf, true).value.value);
  }

  /** The bytes of the status item. */
  function StatusItem(buf: Bytes): Bytes
    requires DecodeStatus(buf).Ok?
  {
    buf[..|buf| - |DecodeStatus(buf).value.rest|]
  }

  /** The first bytes a canonical status item can have: true, false, a state root. */
  predicate CanonicalStatus(first: Byte) {
    first == 0x01 || first == 0x80 || first == 0xA0
  }

  lemma RootItem(buf: Bytes)
    requires DecodeHeader(buf).Ok? && buf[0] == 0xA0
    ensures DecodeHeader(buf).value.len == 32 && |buf| >= 33
    ensures buf == EncodeString(buf[1..33]) + buf[33..] && DecodeHeader(buf).value.rest == buf[1..]
  {
    assert buf == [0xA0] + buf[1..33] + buf[33..];
  }

  /** The status field is read by its payload length alone, so any one-byte payload
      and any empty list is accepted; exactly three first bytes are canonical. */
  lemma StatusCanonicalIff(buf: Bytes)
    requires DecodeStatus(buf).Ok?
    ensures var p := DecodeStatus(buf).value;
            && buf == StatusItem(buf) + p.rest
            && (StatusItem(buf) == EncodeStatus(p.value) <==> CanonicalStatus(buf[0]))
  {
    var p := DecodeStatus(buf).value;
    StatusSplits(buf);
    var item := StatusItem(buf);
    if buf[0] == 0xA0 {
      RootItem(buf);
      assert buf[1..][..32] == buf[1..33] && buf[1..][32..] == buf[33..];
      assert item == EncodeString(buf[1..33]);
    } else {
      OtherStatus(buf);
    }
  }

  lemma StatusSplits(buf: Bytes)
    requires DecodeStatus(buf).Ok?
    ensures buf == StatusItem(buf) + DecodeStatus(buf).value.rest
    ensures StatusItem(buf) != [] && StatusItem(buf)[0] == buf[0]
  {
    hide DecodeHeader, HeaderPrefix;
    HeaderCanonical(buf);
    var h := DecodeHeader(buf).value;
    assert h.rest == h.rest[..h.len] + h.rest[h.len..];
    if buf[0] < 0x80 {
      assert buf[..|buf| - |h.rest[h.len..]|] == h.rest[..h.len];
    } else {
      assert buf == HeaderPrefix(h.list, h.len) + h.rest[..h.len] + h.rest[h.len..];
    }
  }

  lemma OtherStatus(buf: Bytes)
    requires DecodeStatus(buf).Ok? && buf[0] != 0xA0
    ensures StatusItem(buf) == EncodeStatus(DecodeStatus(buf).value.value) <==> CanonicalStatus(buf[0])
  {
    StatusSplits(buf);
    var h := DecodeHeader(buf).value;
    var status := DecodeStatus(buf).value.value;
    match status
    case PostState(root) =>
      assert EncodeStatus(status)[0] == 0xA0;
    case Success(ok) =>
      if buf[0] == 0x01 || buf[0] == 0x80 {
        assert |StatusItem(buf)| == 1;
      }
  }

  /** The fields behind the status. */
  function AfterStatus(r: Receipt): Bytes {
    EncodeUint(r.gasUsed) + BloomAndLogs(r)
  }

  /** First byte of the status item of an accepted receipt body. */
  function StatusByte(body: Bytes): Byte
    requires DecodeWithBloom(body).Ok?
  {
    DecodeHeader(body).value.rest[0]
  }

  lemma BodyFields(body: Bytes, r: Receipt)
    requires DecodeWithBloom(body).Ok? && Body(r) == DecodeWithBloom(body).value.value
    ensures var h, rest := DecodeHeader(body).value, DecodeWithBloom(body).value.rest;
            && DecodeStatus(h.rest).Ok? && DecodeStatus(h.rest).value.value == r.status
            && h.rest == StatusItem(h.rest) + AfterStatus(r) + rest
            && h.len == |StatusItem(h.rest) + AfterStatus(r)|
  {
    hide DecodeHeader, DecodeStatus, DecodeUint, DecodePayload, DecodeLogList;
    hide EncodeUint, EncodeLogs, EncodePayload, StatusItem;
    var h := DecodeHeader(body).value;
    var status := DecodeStatus(h.rest).value;
    var gas := DecodeUint(status.rest, 8).value;
    var bloom := DecodeFixed(gas.rest, 256).value;
    var logs := DecodeLogList(bloom.rest).value;
    StatusCanonicalIff(h.rest);
    UintCanonical(status.rest, 8);
    PayloadCanonical(gas.rest, false);
    LogListCanonical(bloom.rest);
    Regroup(EncodeUint(r.gasUsed), EncodeString(r.bloom), EncodeList(EncodeLogs(r.logs)), logs.rest);
    assert status.rest == AfterStatus(r) + logs.rest;
    assert h.rest == StatusItem(h.rest) + AfterStatus(r) + logs.rest;
  }

  lemma BodyBytes(body: Bytes, r: Receipt)
    requires DecodeWithBloom(body).Ok? && Body(r) == DecodeWithBloom(body).value.value
    ensures DecodeHeader(body).Ok?
    ensures var h, rest := DecodeHeader(body).value, DecodeWithBloom(body).value.rest;
            && DecodeStatus(h.rest).Ok?
            && var payload := StatusItem(h.rest) + AfterStatus(r);
               |payload| < TWO64 && body == EncodeList(payload) + rest
  {
    hide DecodeHeader, HeaderPrefix, StatusItem, AfterStatus;
    BodyFields(body, r);
    HeaderCanonical(body);
  }

  /** The bytes of an accepted receipt body are the encoding of its receipt exactly
      when its status item is canonical; every other field is read strictly. */
  lemma WithBloomCanonicalIff(body: Bytes, r: Receipt)
    requires DecodeWithBloom(body).Ok? && Body(r) == DecodeWithBloom(body).value.value
    ensures body == EncodeWithBloom(r) + DecodeWithBloom(body).value.rest <==> CanonicalStatus(StatusByte(body))
  {
    hide DecodeHeader, DecodeWithBloom, DecodeStatus, EncodePayload, StatusItem, AfterStatus, EncodeStatus, Body;
    BodyBytes(body, r);
    BodyFields(body, r);
    var h, rest := DecodeHeader(body).value, DecodeWithBloom(body).value.rest;
    var item, tail := StatusItem(h.rest), AfterStatus(r);
    StatusCanonicalIff(h.rest);
    assert WithBloomPayload(r) == EncodeStatus(r.status) + tail by { PayloadParts(r); }
    if body == EncodeWithBloom(r) + rest {
      SameFront(EncodeList(item + tail), EncodeWithBloom(r), rest);
      EncodeInjective(true, item + tail, WithBloomPayload(r));
      SameFront(item, EncodeStatus(r.status), tail);
    }
  }

  lemma PayloadParts(r: Receipt)
    ensures WithBloomPayload(r) == EncodeStatus(r.status) + AfterStatus(r)
  {
  }

  lemma SameFront(a: Bytes, b: Bytes, tail: Bytes)
    requires a + tail == b + tail
    ensures a == b
  {
    assert (a + tail)[..|a|] == a && (b + tail)[..|b|] == b;
  }
}
