/** Archive block codec: receipts in the two archive layouts and the transaction
    preimages of a block body. Decompression is the identity here. */
module Codec {
  import opened Types
  import opened Rlp
  import opened Receipts
  import Blooms

  datatype Layout = Era1Full | EreSlim

  datatype CodecError =
    | Rlp(error: RlpError)
    | NotAList
    | EmptyItem
    | EmptyTypedString
    | UnknownType(t: Byte)
    | TrailingData

  /** The `&mut &[u8]` the decoders advance. */
  class Cursor {
    var buf: Bytes

    constructor (bytes: Bytes)
      ensures buf == bytes
    {
      buf := bytes;
    }
  }

  function Lift<T>(r: Result<T, RlpError>): Result<T, CodecError> {
    match r
    case Ok(v) => Ok(v)
    case Err(e) => Err(Rlp(e))
  }

  function Envelope(kind: TxType, b: WithBloom): Receipt {
    Receipt(kind, b.status, b.gasUsed, b.bloom, b.logs)
  }

  /** An explicit type byte names types 1 to 4 only. */
  function TypedEnvelope(t: Byte, b: WithBloom): Result<Receipt, CodecError> {
    if 1 <= t <= 4 then Ok(Envelope(t, b)) else Err(UnknownType(t))
  }

  // ── One receipt: specification ─────────────────────────────────────────────

  function DecodeFull(payload: Bytes): (r: Result<Parsed<Receipt>, CodecError>)
    ensures r.Ok? ==> |r.value.rest| < |payload|
  {
    if payload == [] then Err(EmptyItem)
    else if payload[0] >= 0xC0 then
      var p :- Lift(DecodeWithBloom(payload));
      Ok(Parsed(Envelope(0, p.value), p.rest))
    else if payload[0] >= 0x80 then
      var item :- Lift(DecodePayload(payload, false));
      if item.value == [] then Err(EmptyTypedString) else
      var p :- Lift(DecodeWithBloom(item.value[1..]));
      var receipt :- TypedEnvelope(item.value[0], p.value);
      Ok(Parsed(receipt, item.rest))
    else
      var p :- Lift(DecodeWithBloom(payload[1..]));
      var receipt :- TypedEnvelope(payload[0], p.value);
      Ok(Parsed(receipt, p.rest))
  }

  function DecodeSlim(keccak: Blooms.Hasher, payload: Bytes): (r: Result<Parsed<Receipt>, CodecError>)
    ensures r.Ok? ==> |r.value.rest| < |payload|
  {
    var item :- Lift(DecodeHeader(payload));
    if !item.list then Err(NotAList) else
    var fields, rest := item.rest[..item.len], item.rest[item.len..];
    var kind :- Lift(DecodeUint(fields, 1));
    var status :- Lift(DecodeStatus(kind.rest));
    var gas :- Lift(DecodeUint(status.rest, 8));
    var logs :- Lift(DecodeLogList(gas.rest));
    if logs.rest != [] then Err(TrailingData) else
    var body := WithBloom(status.value, gas.value, Blooms.LogsBloom(keccak, logs.value), logs.value);
    if kind.value == 0 then Ok(Parsed(Envelope(0, body), rest)) else
    WidthOne(fields);
    var receipt :- TypedEnvelope(kind.value, body);
    Ok(Parsed(receipt, rest))
  }

  lemma WidthOne(buf: Bytes)
    ensures DecodeUint(buf, 1).Ok? ==> DecodeUint(buf, 1).value.value < 256
  {
    if DecodeUint(buf, 1).Ok? {
      var s := DecodePayload(buf, false).value.value;
      assert |s| == 0 || (|s| == 1 && s[..0] == [] && BeValue(s) == s[0]);
    }
  }

  function DecodeItem(keccak: Blooms.Hasher, layout: Layout, payload: Bytes): (r: Result<Parsed<Receipt>, CodecError>)
    ensures r.Ok? ==> |r.value.rest| < |payload|
  {
    match layout
    case Era1Full => DecodeFull(payload)
    case EreSlim => DecodeSlim(keccak, payload)
  }

  function DecodeItems(keccak: Blooms.Hasher, layout: Layout, payload: Bytes): Result<seq<Receipt>, CodecError>
    decreases |payload|
  {
    if payload == [] then Ok([]) else
    var p :- DecodeItem(keccak, layout, payload);
    var rest :- DecodeItems(keccak, layout, p.rest);
    Ok([p.value] + rest)
  }

  /** A whole receipt section: an outer list, and whatever follows it ignored. */
  function DecodeSection(keccak: Blooms.Hasher, layout: Layout, raw: Bytes): Result<seq<Receipt>, CodecError> {
    var h :- Lift(DecodeHeader(raw));
    if !h.list then Err(NotAList) else DecodeItems(keccak, layout, h.rest[..h.len])
  }

  // ── One receipt: cursor-advancing decoders ─────────────────────────────────

  ghost predicate Advances(before: Bytes, spec: Result<Parsed<Receipt>, CodecError>,
                           r: Result<Receipt, CodecError>, after: Bytes)
  {
    match spec
    case Ok(p) => r == Ok(p.value) && after == p.rest && |after| < |before|
    case Err(e) => r == Err(e)
  }

  method DecodeFullReceipt(payload: Cursor) returns (r: Result<Receipt, CodecError>)
    modifies payload
    ensures Advances(old(payload.buf), DecodeFull(old(payload.buf)), r, payload.buf)
  {
    if payload.buf == [] {
      return Err(EmptyItem);
    }
    var first := payload.buf[0];

    if first >= 0xC0 {
      var whole := Lift(DecodeWithBloom(payload.buf));
      if whole.Err? {
        return Err(whole.error);
      }
      payload.buf := whole.value.rest;
      return Ok(Envelope(0, whole.value.value));
    }

    if first >= 0x80 {
      var header := Lift(DecodeHeader(payload.buf));
      if header.Err? {
        return Err(header.error);
      }
      HeaderCanonical(payload.buf);
      payload.buf := header.value.rest;
      var item := payload.buf[..header.value.len];
      payload.buf := payload.buf[header.value.len..];
      if item == [] {
        return Err(EmptyTypedString);
      }
      var body := Lift(DecodeWithBloom(item[1..]));
      if body.Err? {
        return Err(body.error);
      }
      r := TypedEnvelope(item[0], body.value.value);
      return;
    }

    payload.buf := payload.buf[1..];
    var body := Lift(DecodeWithBloom(payload.buf));
    if body.Err? {
      return Err(body.error);
    }
    payload.buf := body.value.rest;
    r := TypedEnvelope(first, body.value.value);
  }

  method DecodeSlimReceipt(keccak: Blooms.Hasher, payload: Cursor) returns (r: Result<Receipt, CodecError>)
    modifies payload
    ensures Advances(old(payload.buf), DecodeSlim(keccak, old(payload.buf)), r, payload.buf)
  {
    var header := Lift(DecodeHeader(payload.buf));
    if header.Err? {
      return Err(header.error);
    }
    payload.buf := header.value.rest;
    if !header.value.list {
      return Err(NotAList);
    }
    var fields := payload.buf[..header.value.len];
    payload.buf := payload.buf[header.value.len..];

    WidthOne(fields);
    var kind := Lift(DecodeUint(fields, 1));
    if kind.Err? {
      return Err(kind.error);
    }
    var status := Lift(DecodeStatus(kind.value.rest));
    if status.Err? {
      return Err(status.error);
    }
    var gas := Lift(DecodeUint(status.value.rest, 8));
    if gas.Err? {
      return Err(gas.error);
    }
    var logs := Lift(DecodeLogList(gas.value.rest));
    if logs.Err? {
      return Err(logs.error);
    }
    if logs.value.rest != [] {
      return Err(TrailingData);
    }

    var bloom := Blooms.LogsBloom(keccak, logs.value.value);
    var body := WithBloom(status.value.value, gas.value.value, bloom, logs.value.value);
    if kind.value.value == 0 {
      return Ok(Envelope(0, body));
    }
    r := TypedEnvelope(kind.value.value, body);
  }

  method DecodeNext(keccak: Blooms.Hasher, layout: Layout, payload: Cursor) returns (r: Result<Receipt, CodecError>)
    modifies payload
    ensures Advances(old(payload.buf), DecodeItem(keccak, layout, old(payload.buf)), r, payload.buf)
  {
    match layout {
      case Era1Full => r := DecodeFullReceipt(payload);
      case EreSlim => r := DecodeSlimReceipt(keccak, payload);
    }
  }

  /** The one decode loop for both layouts. */
  method DecodeReceipts(keccak: Blooms.Hasher, layout: Layout, raw: Bytes)
    returns (r: Result<seq<Receipt>, CodecError>)
    ensures r == DecodeSection(keccak, layout, raw)
  {
    hide DecodeItems, DecodeItem;
    var header := Lift(DecodeHeader(raw));
    if header.Err? {
      return Err(header.error);
    }
    if !header.value.list {
      return Err(NotAList);
    }

    var payload := new Cursor(header.value.rest[..header.value.len]);
    ghost var spec := DecodeItems(keccak, layout, payload.buf);
    PrependNone(spec);
    var receipts: seq<Receipt> := [];
    while payload.buf != []
      invariant fresh(payload)
      invariant spec == Prepend(receipts, DecodeItems(keccak, layout, payload.buf))
      decreases |payload.buf|
    {
      UnfoldItems(keccak, layout, receipts, payload.buf);
      var item := DecodeNext(keccak, layout, payload);
      if item.Err? {
        return Err(item.error);
      }
      receipts := receipts + [item.value];
    }
    ItemsDone(keccak, layout);
    assert receipts + [] == receipts;
    return Ok(receipts);
  }

  lemma ItemsDone(keccak: Blooms.Hasher, layout: Layout)
    ensures DecodeItems(keccak, layout, []) == Ok([])
  {
  }

  lemma PrependNone(r: Result<seq<Receipt>, CodecError>)
    ensures Prepend([], r) == r
  {
    if r.Ok? {
      assert [] + r.value == r.value;
    }
  }

  lemma UnfoldItems(keccak: Blooms.Hasher, layout: Layout, front: seq<Receipt>, payload: Bytes)
    requires payload != []
    ensures Prepend(front, DecodeItems(keccak, layout, payload)) ==
            match DecodeItem(keccak, layout, payload)
            case Ok(p) => Prepend(front + [p.value], DecodeItems(keccak, layout, p.rest))
            case Err(e) => Err(e)
  {
    var item := DecodeItem(keccak, layout, payload);
    if item.Ok? {
      PrependOne(front, item.value.value, DecodeItems(keccak, layout, item.value.rest));
    }
  }

  ghost function Prepend(front: seq<Receipt>, r: Result<seq<Receipt>, CodecError>): Result<seq<Receipt>, CodecError> {
    match r
    case Ok(rest) => Ok(front + rest)
    case Err(e) => Err(e)
  }

  lemma PrependOne(front: seq<Receipt>, item: Receipt, r: Result<seq<Receipt>, CodecError>)
    ensures Prepend(front, Prepend([item], r)) == Prepend(front + [item], r)
  {
    if r.Ok? {
      assert front + ([item] + r.value) == front + [item] + r.value;
    }
  }

  // ── Round trips ────────────────────────────────────────────────────────────

  lemma BareDecodes(t: Byte, r: Receipt, rest: Bytes)
    requires t < 0x80 && |EncodeWithBloom(r)| < TWO64
    ensures DecodeFull([t] + (EncodeWithBloom(r) + rest)) ==
            match TypedEnvelope(t, Body(r))
            case Ok(receipt) => Ok(Parsed(receipt, rest))
            case Err(e) => Err(e)
  {
    EncodedLength(true, WithBloomPayload(r));
    WithBloomRoundTrip(r, rest);
    assert ([t] + (EncodeWithBloom(r) + rest))[1..] == EncodeWithBloom(r) + rest;
  }

  lemma WrappedDecodes(t: Byte, r: Receipt, junk: Bytes, rest: Bytes)
    requires 1 + |EncodeWithBloom(r) + junk| < TWO64
    ensures DecodeFull(EncodeString([t] + (EncodeWithBloom(r) + junk)) + rest) ==
            match TypedEnvelope(t, Body(r))
            case Ok(receipt) => Ok(Parsed(receipt, rest))
            case Err(e) => Err(e)
  {
    var item := [t] + (EncodeWithBloom(r) + junk);
    EncodedLength(true, WithBloomPayload(r));
    EncodedLength(false, item);
    PayloadRoundTrip(false, item, rest);
    assert item[1..] == EncodeWithBloom(r) + junk;
    WithBloomRoundTrip(r, junk);
  }

  /** A wrapped item decodes to its receipt even with junk after the receipt
      inside the byte string: the ERA1 layout does not check for trailing bytes. */
  lemma WrappedItemDecodes(r: Receipt, junk: Bytes, rest: Bytes)
    requires r.kind != 0 && |Encode2718(r) + junk| < TWO64
    ensures DecodeFull(EncodeString(Encode2718(r) + junk) + rest) == Ok(Parsed(r, rest))
  {
    hide DecodeFull, EncodePayload, EncodeWithBloom;
    assert Encode2718(r) + junk == [r.kind] + (EncodeWithBloom(r) + junk);
    WrappedDecodes(r.kind, r, junk, rest);
  }

  /** The bytes of an item that hold the receipt body. */
  function BodyOf(payload: Bytes): Bytes
    requires DecodeFull(payload).Ok?
  {
    if payload[0] >= 0xC0 then payload
    else if payload[0] >= 0x80 then DecodePayload(payload, false).value.value[1..]
    else payload[1..]
  }

  /** What is left of a wrapped item behind its receipt. */
  function BehindReceipt(payload: Bytes): Bytes
    requires DecodeFull(payload).Ok?
  {
    if 0x80 <= payload[0] < 0xC0 then DecodeWithBloom(BodyOf(payload)).value.rest else []
  }

  lemma ItemParts(payload: Bytes)
    requires DecodeFull(payload).Ok?
    ensures var p, body := DecodeFull(payload).value, BodyOf(payload);
            && DecodeWithBloom(body).Ok? && Body(p.value) == DecodeWithBloom(body).value.value
            && (payload[0] >= 0xC0 ==> p.value.kind == 0 && p.rest == DecodeWithBloom(body).value.rest)
            && (payload[0] < 0x80 ==> p.value.kind == payload[0] > 0 && p.rest == DecodeWithBloom(body).value.rest)
            && (0x80 <= payload[0] < 0xC0 ==>
                  && p.value.kind > 0
                  && DecodePayload(payload, false) == Ok(Parsed([p.value.kind] + body, p.rest)))
  {
    hide DecodeHeader, DecodeWithBloom;
    if 0x80 <= payload[0] < 0xC0 {
      var item := DecodePayload(payload, false).value.value;
      assert item == [item[0]] + item[1..];
    }
  }

  /** A wrapped form starts with a string prefix, whatever its length. */
  lemma FormsStart(r: Receipt)
    ensures FullItem(r, Bare) != [] && (r.kind == 0 ==> FullItem(r, Bare)[0] >= 0xC0)
    ensures r.kind > 0 ==> FullItem(r, Bare)[0] == r.kind
    ensures r.kind > 0 ==> FullItem(r, Wrapped) != [] && 0x80 <= FullItem(r, Wrapped)[0] < 0xC0
  {
    hide HeaderPrefix;
    EncodedLength(true, WithBloomPayload(r));
    PrefixLength(true, |WithBloomPayload(r)|);
    PrefixLength(false, |Encode2718(r)|);
  }

  lemma BareCanonicalIff(payload: Bytes)
    requires DecodeFull(payload).Ok? && !(0x80 <= payload[0] < 0xC0)
    ensures var p := DecodeFull(payload).value;
            && DecodeWithBloom(BodyOf(payload)).Ok?
            && (payload == Encode2718(p.value) + p.rest <==> CanonicalStatus(StatusByte(BodyOf(payload))))
  {
    hide DecodeFull, EncodeWithBloom, DecodeWithBloom, StatusByte;
    ItemParts(payload);
    var p, body := DecodeFull(payload).value, BodyOf(payload);
    WithBloomCanonicalIff(body, p.value);
    if payload[0] < 0x80 {
      assert payload == [payload[0]] + body;
      assert Encode2718(p.value) + p.rest == [payload[0]] + (EncodeWithBloom(p.value) + p.rest);
      SameBack([payload[0]], body, EncodeWithBloom(p.value) + p.rest);
    }
  }

  lemma SameBack(head: Bytes, a: Bytes, b: Bytes)
    ensures head + a == head + b <==> a == b
  {
    assert (head + a)[|head|..] == a && (head + b)[|head|..] == b;
  }

  lemma WrappedCanonicalIff(payload: Bytes)
    requires DecodeFull(payload).Ok? && 0x80 <= payload[0] < 0xC0
    ensures var p := DecodeFull(payload).value;
            && DecodeWithBloom(BodyOf(payload)).Ok?
            && (payload == EncodeString(Encode2718(p.value)) + p.rest
                <==> CanonicalStatus(StatusByte(BodyOf(payload))) && BehindReceipt(payload) == [])
  {
    hide DecodeFull, EncodeWithBloom, DecodeWithBloom, StatusByte, EncodePayload, DecodePayload;
    ItemParts(payload);
    var p, body := DecodeFull(payload).value, BodyOf(payload);
    var item, r, behind := [p.value.kind] + body, p.value, BehindReceipt(payload);
    PayloadCanonical(payload, false);
    WithBloomCanonicalIff(body, r);
    if payload == EncodeString(Encode2718(r)) + p.rest {
      SameFront(EncodeString(item), EncodeString(Encode2718(r)), p.rest);
      EncodeInjective(false, item, Encode2718(r));
      SameBack([r.kind], body, EncodeWithBloom(r));
      EncodedBodyEnds(r);
    } else if behind == [] {
      assert EncodeWithBloom(r) + behind == EncodeWithBloom(r);
    }
  }

  /** Nothing is behind the receipt in its own encoding. */
  lemma EncodedBodyEnds(r: Receipt)
    requires |EncodeWithBloom(r)| < TWO64
    ensures EncodeWithBloom(r) + [] == EncodeWithBloom(r)
    ensures DecodeWithBloom(EncodeWithBloom(r)) == Ok(Parsed(Body(r), []))
  {
    hide DecodeWithBloom;
    assert EncodeWithBloom(r) + [] == EncodeWithBloom(r);
    EncodedLength(true, WithBloomPayload(r));
    WithBloomRoundTrip(r, []);
  }

  /** When an accepted ERA1 item is the encoding of the receipt it yields, in some
      form: exactly when its status item is canonical and, if it is wrapped, its
      receipt ends its byte string. Nothing else is read loosely. */
  lemma ItemCanonicalIff(payload: Bytes)
    requires DecodeFull(payload).Ok?
    ensures var p := DecodeFull(payload).value;
            && DecodeWithBloom(BodyOf(payload)).Ok?
            && ((exists form: Form :: payload == FullItem(p.value, form) + p.rest)
                <==> CanonicalStatus(StatusByte(BodyOf(payload))) && BehindReceipt(payload) == [])
  {
    hide DecodeFull, EncodeWithBloom, DecodeWithBloom, StatusByte, BodyOf;
    var p := DecodeFull(payload).value;
    ItemParts(payload);
    FormsStart(p.value);
    var bare, wrapped := FullItem(p.value, Bare), FullItem(p.value, Wrapped);
    if 0x80 <= payload[0] < 0xC0 {
      WrappedCanonicalIff(payload);
      assert payload != bare + p.rest by { assert (bare + p.rest)[0] == bare[0]; }
      assert payload == wrapped + p.rest <==> exists form: Form :: payload == FullItem(p.value, form) + p.rest by {
        OneOfTwo(payload, p.value, p.rest);
      }
    } else {
      BareCanonicalIff(payload);
      OneOfTwo(payload, p.value, p.rest);
      if p.value.kind > 0 {
        assert (wrapped + p.rest)[0] == wrapped[0];
      }
    }
  }

  lemma OneOfTwo(payload: Bytes, r: Receipt, rest: Bytes)
    ensures (exists form: Form :: payload == FullItem(r, form) + rest)
            <==> payload == FullItem(r, Bare) + rest || payload == FullItem(r, Wrapped) + rest
  {
    hide FullItem;
    if form: Form :| payload == FullItem(r, form) + rest {
      assert form == Bare || form == Wrapped;
    }
  }

  /** A status byte outside the canonical three is accepted without anything behind
      the receipt: any nonzero byte below 0x80 reads as success, an empty list as failure. */
  lemma LooseStatus(b: Byte, rest: Bytes)
    requires b < 0x80
    ensures DecodeStatus([b] + rest) == Ok(Parsed(Success(b != 0), rest))
    ensures DecodeStatus([0xC0] + rest) == Ok(Parsed(Success(false), rest))
  {
    assert ([b] + rest)[1..] == rest && ([0xC0] + rest)[1..] == rest;
  }

  lemma BareItemDecodes(r: Receipt, rest: Bytes)
    requires Fits(r)
    ensures DecodeFull(Encode2718(r) + rest) == Ok(Parsed(r, rest))
  {
    hide DecodeWithBloom, DecodeHeader, EncodePayload;
    if r.kind == 0 {
      EncodedLength(true, WithBloomPayload(r));
      WithBloomRoundTrip(r, rest);
    } else {
      assert Encode2718(r) + rest == [r.kind] + (EncodeWithBloom(r) + rest);
      BareDecodes(r.kind, r, rest);
    }
  }

  lemma FullItemRoundTrip(r: Receipt, form: Form, rest: Bytes)
    requires |FullItem(r, form)| < TWO64
    ensures DecodeFull(FullItem(r, form) + rest) == Ok(Parsed(r, rest))
    ensures FullItem(r, form) != []
  {
    EncodedLength(true, WithBloomPayload(r));
    if r.kind != 0 && form.Wrapped? {
      EncodedLength(false, Encode2718(r));
      assert Encode2718(r) + [] == Encode2718(r);
      WrappedItemDecodes(r, [], rest);
    } else {
      BareItemDecodes(r, rest);
    }
  }

  /** The slim layout stores no bloom; decoding recomputes it. */
  function WithLogsBloom(keccak: Blooms.Hasher, r: Receipt): Receipt {
    r.(bloom := Blooms.LogsBloom(keccak, r.logs))
  }

  lemma SlimItemRoundTrip(keccak: Blooms.Hasher, r: Receipt, rest: Bytes)
    requires |SlimItem(r)| < TWO64
    ensures DecodeSlim(keccak, SlimItem(r) + rest) == Ok(Parsed(WithLogsBloom(keccak, r), rest))
  {
    hide DecodeHeader, DecodeUint, DecodeStatus, DecodeLogList, EncodeUint, EncodeStatus, EncodeLogs, EncodePayload;
    var gas, logs := EncodeUint(r.gasUsed), EncodeList(EncodeLogs(r.logs));
    var fields := SlimPayload(r);
    EncodedLength(true, fields);
    EncodedLength(true, EncodeLogs(r.logs));
    HeaderDecodes(true, fields, rest);
    assert (fields + rest)[..|fields|] == fields;
    assert (fields + rest)[|fields|..] == rest;
    Pow256Eight();
    UintRoundTrip(r.kind, 1, EncodeStatus(r.status) + (gas + logs));
    StatusRoundTrip(r.status, gas + logs);
    UintRoundTrip(r.gasUsed, 8, logs);
    LogListRoundTrip(r.logs, []);
    assert logs + [] == logs;
  }

  /** The bloom of a receipt that the slim layout accepts has exactly the bits that the
      addresses and topics of its logs set. */
  lemma SlimItemBloom(keccak: Blooms.Hasher, payload: Bytes, bit: nat)
    requires DecodeSlim(keccak, payload).Ok? && bit < 2048
    ensures var r := DecodeSlim(keccak, payload).value.value;
            Blooms.HasBit(r.bloom, bit) <==> Blooms.SetBySome(keccak, r.logs, bit)
  {
    hide DecodeHeader, DecodeUint, DecodeStatus, DecodeLogList, Blooms.HasBit, Blooms.SetBySome, Blooms.LogsBloom;
    var r := DecodeSlim(keccak, payload).value.value;
    assert r.bloom == Blooms.LogsBloom(keccak, r.logs);
    Blooms.LogsBloomBits(keccak, r.logs, bit);
  }

  /** The bytes behind the type of an accepted slim item: its status and the rest. */
  function SlimStatus(keccak: Blooms.Hasher, payload: Bytes): (buf: Bytes)
    requires DecodeSlim(keccak, payload).Ok?
    ensures buf != []
  {
    var item := DecodeHeader(payload).value;
    DecodeUint(item.rest[..item.len], 1).value.rest
  }

  lemma SlimFields(keccak: Blooms.Hasher, payload: Bytes)
    requires DecodeSlim(keccak, payload).Ok?
    ensures DecodeHeader(payload).Ok?
    ensures var p, h := DecodeSlim(keccak, payload).value, DecodeHeader(payload).value;
            var status := SlimStatus(keccak, payload);
            && h.list && p.rest == h.rest[h.len..]
            && DecodeStatus(status).Ok? && DecodeStatus(status).value.value == p.value.status
            && h.rest[..h.len]
               == EncodeUint(p.value.kind)
                  + (StatusItem(status) + (EncodeUint(p.value.gasUsed) + EncodeList(EncodeLogs(p.value.logs))))
  {
    hide DecodeHeader, DecodeStatus, DecodeUint, DecodeLogList, StatusItem, EncodeUint, EncodeLogs, EncodePayload;
    var h := DecodeHeader(payload).value;
    var fields := h.rest[..h.len];
    UintCanonical(fields, 1);
    var status := DecodeUint(fields, 1).value.rest;
    StatusCanonicalIff(status);
    var gas := DecodeStatus(status).value.rest;
    UintCanonical(gas, 8);
    LogListCanonical(DecodeUint(gas, 8).value.rest);
    var logs := EncodeList(EncodeLogs(DecodeLogList(DecodeUint(gas, 8).value.rest).value.value));
    assert logs + [] == logs;
  }

  /** An accepted slim item is the encoding of its receipt exactly when its status
      item is canonical. */
  lemma SlimCanonicalIff(keccak: Blooms.Hasher, payload: Bytes)
    requires DecodeSlim(keccak, payload).Ok?
    ensures var p := DecodeSlim(keccak, payload).value;
            payload == SlimItem(p.value) + p.rest <==> CanonicalStatus(SlimStatus(keccak, payload)[0])
  {
    hide DecodeSlim, DecodeHeader, DecodeStatus, HeaderPrefix, StatusItem, EncodeStatus, EncodeUint, EncodeLogs;
    hide SlimStatus;
    SlimFields(keccak, payload);
    var p, h, status := DecodeSlim(keccak, payload).value, DecodeHeader(payload).value, SlimStatus(keccak, payload);
    HeaderCanonical(payload);
    StatusCanonicalIff(status);
    var kind, tail := EncodeUint(p.value.kind), EncodeUint(p.value.gasUsed) + EncodeList(EncodeLogs(p.value.logs));
    var fields := h.rest[..h.len];
    assert h.rest == fields + p.rest;
    assert payload == EncodeList(fields) + p.rest;
    if payload == SlimItem(p.value) + p.rest {
      SameFront(EncodeList(fields), SlimItem(p.value), p.rest);
      EncodeInjective(true, fields, SlimPayload(p.value));
      SameBack(kind, StatusItem(status) + tail, EncodeStatus(p.value.status) + tail);
      SameFront(StatusItem(status), EncodeStatus(p.value.status), tail);
    }
  }

  function FullItems(rs: seq<Receipt>, forms: seq<Form>): Bytes
    requires |forms| == |rs|
  {
    if rs == [] then [] else FullItem(rs[0], forms[0]) + FullItems(rs[1..], forms[1..])
  }

  function SlimItems(rs: seq<Receipt>): Bytes {
    if rs == [] then [] else SlimItem(rs[0]) + SlimItems(rs[1..])
  }

  function AllWithLogsBloom(keccak: Blooms.Hasher, rs: seq<Receipt>): seq<Receipt> {
    if rs == [] then [] else [WithLogsBloom(keccak, rs[0])] + AllWithLogsBloom(keccak, rs[1..])
  }

  /** A list of items decodes to its head and what its tail decodes to. */
  lemma ItemsCons(keccak: Blooms.Hasher, layout: Layout, item: Bytes, rest: Bytes, r: Receipt, rs: seq<Receipt>)
    requires item != [] && DecodeItem(keccak, layout, item + rest) == Ok(Parsed(r, rest))
    requires DecodeItems(keccak, layout, rest) == Ok(rs)
    ensures DecodeItems(keccak, layout, item + rest) == Ok([r] + rs)
  {
    hide DecodeItem;
  }

  lemma {:induction false} FullItemsDecode(keccak: Blooms.Hasher, rs: seq<Receipt>, forms: seq<Form>)
    requires |forms| == |rs| && |FullItems(rs, forms)| < TWO64
    ensures DecodeItems(keccak, Era1Full, FullItems(rs, forms)) == Ok(rs)
  {
    hide DecodeFull, FullItem, DecodeItems;
    if rs == [] {
      ItemsDone(keccak, Era1Full);
    } else {
      var item, rest := FullItem(rs[0], forms[0]), FullItems(rs[1..], forms[1..]);
      FullItemRoundTrip(rs[0], forms[0], rest);
      FullItemsDecode(keccak, rs[1..], forms[1..]);
      ItemsCons(keccak, Era1Full, item, rest, rs[0], rs[1..]);
      assert rs == [rs[0]] + rs[1..];
    }
  }

  lemma {:induction false} SlimItemsDecode(keccak: Blooms.Hasher, rs: seq<Receipt>)
    requires |SlimItems(rs)| < TWO64
    ensures DecodeItems(keccak, EreSlim, SlimItems(rs)) == Ok(AllWithLogsBloom(keccak, rs))
  {
    hide DecodeSlim, SlimPayload, EncodePayload, DecodeItems;
    if rs == [] {
      ItemsDone(keccak, EreSlim);
    } else {
      var item, rest := SlimItem(rs[0]), SlimItems(rs[1..]);
      EncodedLength(true, SlimPayload(rs[0]));
      SlimItemRoundTrip(keccak, rs[0], rest);
      SlimItemsDecode(keccak, rs[1..]);
      ItemsCons(keccak, EreSlim, item, rest, WithLogsBloom(keccak, rs[0]), AllWithLogsBloom(keccak, rs[1..]));
    }
  }

  lemma SectionDecodes(keccak: Blooms.Hasher, layout: Layout, items: Bytes, junk: Bytes)
    requires |items| < TWO64
    ensures DecodeSection(keccak, layout, EncodeList(items) + junk) == DecodeItems(keccak, layout, items)
  {
    HeaderDecodes(true, items, junk);
    assert (items + junk)[..|items|] == items;
  }

  /** Decoding an ERA1 section gives back the receipts, in order, for every
      choice of item form and whatever follows the outer list. */
  lemma FullSectionRoundTrip(keccak: Blooms.Hasher, rs: seq<Receipt>, forms: seq<Form>, junk: Bytes)
    requires |forms| == |rs| && |FullItems(rs, forms)| < TWO64
    ensures DecodeSection(keccak, Era1Full, EncodeList(FullItems(rs, forms)) + junk) == Ok(rs)
  {
    SectionDecodes(keccak, Era1Full, FullItems(rs, forms), junk);
    FullItemsDecode(keccak, rs, forms);
  }

  lemma SlimSectionRoundTrip(keccak: Blooms.Hasher, rs: seq<Receipt>, junk: Bytes)
    requires |SlimItems(rs)| < TWO64
    ensures DecodeSection(keccak, EreSlim, EncodeList(SlimItems(rs)) + junk) == Ok(AllWithLogsBloom(keccak, rs))
  {
    SectionDecodes(keccak, EreSlim, SlimItems(rs), junk);
    SlimItemsDecode(keccak, rs);
  }

  ghost predicate HonestBlooms(keccak: Blooms.Hasher, rs: seq<Receipt>) {
    forall i | 0 <= i < |rs| :: rs[i].bloom == Blooms.LogsBloom(keccak, rs[i].logs)
  }

  lemma {:induction false} RecomputedBlooms(keccak: Blooms.Hasher, rs: seq<Receipt>)
    ensures |AllWithLogsBloom(keccak, rs)| == |rs|
    ensures AllWithLogsBloom(keccak, rs) == rs <==> HonestBlooms(keccak, rs)
  {
    if rs != [] {
      hide HonestBlooms;
      RecomputedBlooms(keccak, rs[1..]);
      HonestBloomsCons(keccak, rs);
      ConsEqual(WithLogsBloom(keccak, rs[0]), AllWithLogsBloom(keccak, rs[1..]), rs);
    }
  }

  lemma HonestBloomsCons(keccak: Blooms.Hasher, rs: seq<Receipt>)
    requires rs != []
    ensures HonestBlooms(keccak, rs) <==>
            rs[0].bloom == Blooms.LogsBloom(keccak, rs[0].logs) && HonestBlooms(keccak, rs[1..])
  {
    hide Blooms.LogsBloom;
    assert forall i | 0 <= i < |rs| - 1 :: rs[1..][i] == rs[i + 1];
    assert forall i | 1 <= i < |rs| :: rs[i] == rs[1..][i - 1];
  }

  lemma ConsEqual(head: Receipt, tail: seq<Receipt>, rs: seq<Receipt>)
    requires rs != []
    ensures [head] + tail == rs <==> head == rs[0] && tail == rs[1..]
  {
    assert rs == [rs[0]] + rs[1..];
    assert ([head] + tail)[1..] == tail;
  }

  /** The two archive layouts carry the same receipts exactly when every stored
      bloom is the bloom of its logs. */
  lemma LayoutsAgreeIff(keccak: Blooms.Hasher, rs: seq<Receipt>, forms: seq<Form>)
    requires |forms| == |rs| && |FullItems(rs, forms)| < TWO64 && |SlimItems(rs)| < TWO64
    ensures DecodeSection(keccak, Era1Full, EncodeList(FullItems(rs, forms)))
            == DecodeSection(keccak, EreSlim, EncodeList(SlimItems(rs)))
            <==> HonestBlooms(keccak, rs)
  {
    var full, slim := EncodeList(FullItems(rs, forms)), EncodeList(SlimItems(rs));
    assert full + [] == full && slim + [] == slim;
    FullSectionRoundTrip(keccak, rs, forms, []);
    SlimSectionRoundTrip(keccak, rs, []);
    RecomputedBlooms(keccak, rs);
  }

  /** The consensus encoding determines the receipt: it is what makes a matching
      trie root mean matching receipts. */
  lemma Encode2718Injective(r: Receipt, r': Receipt)
    requires Fits(r) && Fits(r')
    requires Encode2718(r) == Encode2718(r')
    ensures r == r'
  {
    BareItemDecodes(r, []);
    BareItemDecodes(r', []);
  }

  /** A type byte outside 1 to 4 is refused in both typed forms; in particular a
      legacy receipt is never accepted with an explicit type 0. */
  lemma UnknownTypeRejected(t: Byte, r: Receipt, rest: Bytes)
    requires !(1 <= t <= 4) && |EncodeWithBloom(r)| + 1 < TWO64
    ensures DecodeFull(EncodeString([t] + EncodeWithBloom(r)) + rest) == Err(UnknownType(t))
    ensures t < 0x80 ==> DecodeFull([t] + EncodeWithBloom(r) + rest) == Err(UnknownType(t))
  {
    WrappedDecodes(t, r, [], rest);
    assert EncodeWithBloom(r) + [] == EncodeWithBloom(r);
    if t < 0x80 {
      BareDecodes(t, r, rest);
      assert [t] + EncodeWithBloom(r) + rest == [t] + (EncodeWithBloom(r) + rest);
    }
  }

  /** A slim item checks that its logs end it; what a full item wraps need not. */
  lemma SlimTrailingRejected(keccak: Blooms.Hasher, r: Receipt, junk: Bytes, rest: Bytes)
    requires junk != [] && |SlimPayload(r) + junk| < TWO64
    ensures DecodeSlim(keccak, EncodeList(SlimPayload(r) + junk) + rest) == Err(TrailingData)
  {
    hide DecodeHeader, DecodeUint, DecodeStatus, DecodeLogList, EncodeUint, EncodeStatus, EncodeLogs, EncodePayload;
    var gas, logs := EncodeUint(r.gasUsed), EncodeList(EncodeLogs(r.logs));
    var fields := SlimPayload(r) + junk;
    EncodedLength(true, fields);
    EncodedLength(true, EncodeLogs(r.logs));
    HeaderDecodes(true, fields, rest);
    assert (fields + rest)[..|fields|] == fields;
    Pow256Eight();
    assert fields == EncodeUint(r.kind) + (EncodeStatus(r.status) + (gas + (logs + junk)));
    UintRoundTrip(r.kind, 1, EncodeStatus(r.status) + (gas + (logs + junk)));
    StatusRoundTrip(r.status, gas + (logs + junk));
    UintRoundTrip(r.gasUsed, 8, logs + junk);
    LogListRoundTrip(r.logs, junk);
  }

  /** Items that are refused at once: nothing, a byte string that wraps nothing, and where
      a list is expected a string or a single byte. */
  lemma RefusedItems(keccak: Blooms.Hasher, layout: Layout, rest: Bytes, s: Bytes)
    requires |s| < TWO64
    ensures DecodeFull([]) == Err(EmptyItem)
    ensures DecodeFull([0x80] + rest) == Err(EmptyTypedString)
    ensures DecodeSlim(keccak, EncodeString(s) + rest) == Err(NotAList)
    ensures DecodeSection(keccak, layout, EncodeString(s) + rest) == Err(NotAList)
  {
    hide DecodeItems;
    if !SelfEncoded(false, s) {
      HeaderDecodes(false, s, rest);
    }
    assert ([0x80] + rest)[1..] == rest;
  }
}
