/** Transaction hashes of a block body: which bytes are hashed, and how the list
    payload is cut into transactions. */
module TxHashes {
  import opened Types
  import opened Rlp
  import opened Codec
  import Blooms

  /** What one turn of the loop hashes: the transaction's bytes, or nothing when
      its header cannot be decoded. */
  datatype Preimage = Tx(bytes: Bytes) | Undecodable

  /** One turn: the bytes hashed, the bytes consumed, and what remains. */
  datatype Turn = Turn(preimage: Bytes, consumed: Bytes, rest: Bytes)

  function NextTx(payload: Bytes): (r: Result<Turn, RlpError>)
    requires payload != []
    ensures r.Ok? ==> |r.value.rest| < |payload|
  {
    var first := payload[0];
    var body := if first < 0x80 then payload[1..] else payload;
    var h :- DecodeHeader(body);
    var tail := h.rest[h.len..];
    var consumed := payload[..|payload| - |tail|];
    var preimage := if 0x80 <= first < 0xC0 then h.rest[..h.len] else consumed;
    Ok(Turn(preimage, consumed, tail))
  }

  function Preimages(payload: Bytes): seq<Preimage>
    decreases |payload|
  {
    if payload == [] then [] else
    match NextTx(payload)
    case Ok(turn) => [Tx(turn.preimage)] + Preimages(turn.rest)
    case Err(_) => [Undecodable]
  }

  /** The consumed slices, one per hashed transaction. */
  function Slices(payload: Bytes): seq<Bytes>
    decreases |payload|
  {
    if payload == [] then [] else
    match NextTx(payload)
    case Ok(turn) => [turn.consumed] + Slices(turn.rest)
    case Err(_) => []
  }

  function HashOf(keccak: Blooms.Hasher, p: Preimage): B256 {
    match p
    case Tx(bytes) => keccak(bytes)
    case Undecodable => seq(32, _ => 0)
  }

  function Hashes(keccak: Blooms.Hasher, ps: seq<Preimage>): seq<B256> {
    if ps == [] then [] else [HashOf(keccak, ps[0])] + Hashes(keccak, ps[1..])
  }

  /** The transaction list inside a body, or why there is none. */
  function TxPayload(raw: Bytes): Result<Bytes, CodecError> {
    var outer :- Lift(DecodeHeader(raw));
    if !outer.list then Err(NotAList) else
    var inner :- Lift(DecodeHeader(outer.rest));
    if !inner.list then Err(NotAList) else Ok(inner.rest[..inner.len])
  }

  // ── The loop ───────────────────────────────────────────────────────────────

  method DecodeTxHashes(keccak: Blooms.Hasher, raw: Bytes) returns (r: Result<seq<B256>, CodecError>)
    ensures r == match TxPayload(raw)
                 case Ok(payload) => Ok(Hashes(keccak, Preimages(payload)))
                 case Err(e) => Err(e)
  {
    hide Preimages, Hashes, DecodeHeader;
    var outer := Lift(DecodeHeader(raw));
    if outer.Err? {
      return Err(outer.error);
    }
    if !outer.value.list {
      return Err(NotAList);
    }
    var inner := Lift(DecodeHeader(outer.value.rest));
    if inner.Err? {
      return Err(inner.error);
    }
    if !inner.value.list {
      return Err(NotAList);
    }

    var payload := inner.value.rest[..inner.value.len];
    ghost var all := Preimages(payload);
    var hashes: seq<B256> := [];
    assert [] + Hashes(keccak, all) == Hashes(keccak, all);
    while payload != []
      invariant Hashes(keccak, all) == hashes + Hashes(keccak, Preimages(payload))
      decreases |payload|
    {
      UnfoldHashes(keccak, hashes, payload);
      ghost var before := payload;
      var first := payload[0];
      var rawTx: Bytes;
      if first >= 0xC0 {
        var start := payload;
        var h := DecodeHeader(payload);
        if h.Err? {
          return Ok(hashes + [seq(32, _ => 0)]);
        }
        payload := h.value.rest;
        var consumed := |start| - |payload|;
        rawTx := start[..consumed + h.value.len];
        payload := payload[h.value.len..];
      } else if first >= 0x80 {
        var h := DecodeHeader(payload);
        if h.Err? {
          return Ok(hashes + [seq(32, _ => 0)]);
        }
        payload := h.value.rest;
        rawTx := payload[..h.value.len];
        payload := payload[h.value.len..];
      } else {
        var typeByte := first;
        payload := payload[1..];
        var start := payload;
        var h := DecodeHeader(payload);
        if h.Err? {
          return Ok(hashes + [seq(32, _ => 0)]);
        }
        payload := h.value.rest;
        var consumed := |start| - |payload|;
        rawTx := [typeByte] + start[..consumed + h.value.len];
        payload := payload[h.value.len..];
        assert rawTx == before[..|before| - |payload|];
      }
      hashes := hashes + [keccak(rawTx)];
    }
    NoPreimages(keccak);
    assert hashes + [] == hashes;
    return Ok(hashes);
  }

  lemma NoPreimages(keccak: Blooms.Hasher)
    ensures Hashes(keccak, Preimages([])) == []
  {
  }

  lemma UnfoldHashes(keccak: Blooms.Hasher, front: seq<B256>, payload: Bytes)
    requires payload != []
    ensures front + Hashes(keccak, Preimages(payload)) ==
            match NextTx(payload)
            case Ok(turn) => (front + [keccak(turn.preimage)]) + Hashes(keccak, Preimages(turn.rest))
            case Err(_) => front + [seq(32, _ => 0)]
  {
    hide NextTx, DecodeHeader;
    var ps := Preimages(payload);
    match NextTx(payload)
    case Ok(turn) =>
      assert ps[1..] == Preimages(turn.rest);
      assert front + ([keccak(turn.preimage)] + Hashes(keccak, Preimages(turn.rest)))
             == front + [keccak(turn.preimage)] + Hashes(keccak, Preimages(turn.rest));
    case Err(_) =>
      assert ps[1..] == [];
      assert Hashes(keccak, ps) == [HashOf(keccak, Undecodable)] + [];
  }

  // ── Tiling ─────────────────────────────────────────────────────────────────

  /** A slice carries a transaction as its own bytes, or as an RLP string. */
  ghost predicate Carries(slice: Bytes, preimage: Bytes) {
    slice == preimage || slice == EncodeString(preimage)
  }

  lemma HeaderSplits(buf: Bytes)
    requires DecodeHeader(buf).Ok?
    ensures var h := DecodeHeader(buf).value;
            buf == buf[..|buf| - |h.rest|] + h.rest
  {
    hide DecodeHeader, HeaderPrefix;
    HeaderCanonical(buf);
  }

  lemma NestedSuffix(whole: Bytes, p1: Bytes, p2: Bytes, p3: Bytes, tail: Bytes)
    requires whole == p1 + (p2 + (p3 + tail))
    ensures whole == whole[..|whole| - |tail|] + tail
  {
    assert whole == (p1 + p2 + p3) + tail;
  }

  lemma BodySplits(body: Bytes)
    requires DecodeHeader(body).Ok?
    ensures var h := DecodeHeader(body).value;
            var tail := h.rest[h.len..];
            |tail| < |body| && body == body[..|body| - |tail|] + tail
  {
    hide DecodeHeader, HeaderPrefix;
    HeaderSplits(body);
    var h := DecodeHeader(body).value;
    assert h.rest == h.rest[..h.len] + h.rest[h.len..];
    NestedSuffix(body, [], body[..|body| - |h.rest|], h.rest[..h.len], h.rest[h.len..]);
  }

  lemma TurnSplits(payload: Bytes)
    requires payload != [] && NextTx(payload).Ok?
    ensures var t := NextTx(payload).value;
            payload == t.consumed + t.rest && t.consumed != []
  {
    hide DecodeHeader, HeaderPrefix;
    if payload[0] < 0x80 {
      var body := payload[1..];
      BodySplits(body);
      var tail := NextTx(payload).value.rest;
      var front := body[..|body| - |tail|];
      NestedSuffix(payload, payload[..1], front, [], tail);
    } else {
      BodySplits(payload);
    }
  }

  lemma TurnTiles(payload: Bytes)
    requires payload != [] && NextTx(payload).Ok?
    ensures var t := NextTx(payload).value;
            payload == t.consumed + t.rest && t.consumed != [] && Carries(t.consumed, t.preimage)
  {
    hide DecodeHeader, HeaderPrefix;
    TurnSplits(payload);
    if 0x80 <= payload[0] < 0xC0 {
      StringTiles(payload);
    }
  }

  lemma StringTiles(payload: Bytes)
    requires DecodeHeader(payload).Ok? && 0x80 <= payload[0] < 0xC0
    ensures var h := DecodeHeader(payload).value;
            payload[..|payload| - (|h.rest| - h.len)] == EncodeString(h.rest[..h.len])
  {
    hide DecodeHeader, HeaderPrefix;
    HeaderCanonical(payload);
    var h := DecodeHeader(payload).value;
    var item, tail := h.rest[..h.len], h.rest[h.len..];
    assert h.rest == item + tail;
    assert payload == EncodeString(item) + tail;
  }

  function Concat(slices: seq<Bytes>): Bytes {
    if slices == [] then [] else slices[0] + Concat(slices[1..])
  }

  /** For every payload whose headers all decode, the consumed slices cover it
      end to end, one per hash, and each carries exactly the bytes hashed. */
  lemma {:induction false} SlicesTile(payload: Bytes)
    requires Undecodable !in Preimages(payload)
    ensures Concat(Slices(payload)) == payload
    ensures |Slices(payload)| == |Preimages(payload)|
    ensures forall i | 0 <= i < |Slices(payload)| ::
              Slices(payload)[i] != [] && Carries(Slices(payload)[i], Preimages(payload)[i].bytes)
    decreases |payload|
  {
    if payload != [] {
      assert Undecodable in [Undecodable];
      var turn := NextTx(payload).value;
      TurnTiles(payload);
      assert Preimages(payload)[1..] == Preimages(turn.rest);
      assert Slices(payload)[1..] == Slices(turn.rest);
      SlicesTile(turn.rest);
    }
  }

  /** A header that does not decode ends the walk: the zero hash can only be last. */
  lemma {:induction false} UndecodableIsLast(payload: Bytes, i: nat)
    requires i < |Preimages(payload)| && Preimages(payload)[i].Undecodable?
    ensures i == |Preimages(payload)| - 1
    decreases |payload|
  {
    if NextTx(payload).Ok? {
      UndecodableIsLast(NextTx(payload).value.rest, i - 1);
    }
  }

  // ── Well-formed transaction lists ──────────────────────────────────────────

  /** A legacy transaction is an RLP list; a typed one is a type byte followed
      by an RLP list (EIP-2718, section "Transactions"). */
  datatype Transaction =
    | Legacy(fields: Bytes)
    | Typed(kind: Byte, fields: Bytes)

  predicate WellFormed(tx: Transaction) {
    && |EncodeTx(tx)| < TWO64
    && (tx.Typed? ==> tx.kind < 0x80)
  }

  function EncodeTx(tx: Transaction): Bytes {
    match tx
    case Legacy(fields) => EncodeList(fields)
    case Typed(kind, fields) => [kind] + EncodeList(fields)
  }

  function TxItem(tx: Transaction, form: Form): Bytes {
    if tx.Typed? && form.Wrapped? then EncodeString(EncodeTx(tx)) else EncodeTx(tx)
  }

  function TxItems(txs: seq<Transaction>, forms: seq<Form>): Bytes
    requires |forms| == |txs|
  {
    if txs == [] then [] else TxItem(txs[0], forms[0]) + TxItems(txs[1..], forms[1..])
  }

  lemma BareTurn(prefix: Bytes, fields: Bytes, rest: Bytes)
    requires |fields| < TWO64
    requires prefix == [] || (|prefix| == 1 && prefix[0] < 0x80)
    ensures NextTx(prefix + EncodeList(fields) + rest) ==
            Ok(Turn(prefix + EncodeList(fields), prefix + EncodeList(fields), rest))
  {
    hide DecodeHeader, HeaderPrefix;
    var item := prefix + EncodeList(fields);
    var payload := item + rest;
    EncodedLength(true, fields);
    HeaderDecodes(true, fields, rest);
    var body := EncodeList(fields) + rest;
    if prefix == [] {
      assert payload == body;
    } else {
      assert payload == prefix + body;
      assert payload[1..] == body;
    }
    assert (fields + rest)[|fields|..] == rest;
    assert payload[..|payload| - |rest|] == item;
  }

  lemma WrappedTurn(tx: Bytes, rest: Bytes)
    requires 1 < |tx| < TWO64
    ensures NextTx(EncodeString(tx) + rest) == Ok(Turn(tx, EncodeString(tx), rest))
  {
    hide DecodeHeader, HeaderPrefix;
    EncodedLength(false, tx);
    HeaderDecodes(false, tx, rest);
    assert (tx + rest)[..|tx|] == tx;
    assert (tx + rest)[|tx|..] == rest;
    var payload := EncodeString(tx) + rest;
    assert payload[..|payload| - |rest|] == EncodeString(tx);
  }

  lemma ItemTurn(tx: Transaction, form: Form, rest: Bytes)
    requires WellFormed(tx)
    ensures TxItem(tx, form) != []
    ensures NextTx(TxItem(tx, form) + rest) == Ok(Turn(EncodeTx(tx), TxItem(tx, form), rest))
  {
    hide NextTx;
    EncodedLength(true, tx.fields);
    if tx.Typed? && form.Wrapped? {
      EncodedLength(false, EncodeTx(tx));
      WrappedTurn(EncodeTx(tx), rest);
    } else if tx.Typed? {
      BareTurn([tx.kind], tx.fields, rest);
    } else {
      assert [] + EncodeList(tx.fields) == EncodeList(tx.fields);
      BareTurn([], tx.fields, rest);
    }
  }

  function TxPreimages(txs: seq<Transaction>): seq<Preimage> {
    if txs == [] then [] else [Tx(EncodeTx(txs[0]))] + TxPreimages(txs[1..])
  }

  function TxSlices(txs: seq<Transaction>, forms: seq<Form>): seq<Bytes>
    requires |forms| == |txs|
  {
    if txs == [] then [] else [TxItem(txs[0], forms[0])] + TxSlices(txs[1..], forms[1..])
  }

  lemma {:induction false} ItemsWalk(txs: seq<Transaction>, forms: seq<Form>)
    requires |forms| == |txs|
    requires forall i | 0 <= i < |txs| :: WellFormed(txs[i])
    ensures Preimages(TxItems(txs, forms)) == TxPreimages(txs)
    ensures Slices(TxItems(txs, forms)) == TxSlices(txs, forms)
  {
    if txs != [] {
      hide NextTx, TxItem, EncodeTx;
      var rest := TxItems(txs[1..], forms[1..]);
      ItemTurn(txs[0], forms[0], rest);
      ItemsWalk(txs[1..], forms[1..]);
    }
  }

  /** For every body whose transactions are well formed, in any mix of item forms,
      the bytes hashed are the EIP-2718 encodings, in order, one per transaction. */
  lemma BodyHashes(txs: seq<Transaction>, forms: seq<Form>, tail: Bytes, junk: Bytes)
    requires |forms| == |txs|
    requires forall i | 0 <= i < |txs| :: WellFormed(txs[i])
    requires |EncodeList(TxItems(txs, forms)) + tail| < TWO64
    ensures var payload := TxPayload(EncodeList(EncodeList(TxItems(txs, forms)) + tail) + junk);
            payload.Ok? && Preimages(payload.value) == TxPreimages(txs)
  {
    hide DecodeHeader, HeaderPrefix;
    hide Preimages, TxItems, TxPreimages, EncodePayload;
    var items := TxItems(txs, forms);
    EncodedLength(true, items);
    var outer := EncodeList(items) + tail;
    assert outer + junk == EncodeList(items) + (tail + junk);
    HeaderDecodes(true, outer, junk);
    HeaderDecodes(true, items, tail + junk);
    assert (items + (tail + junk))[..|items|] == items;
    ItemsWalk(txs, forms);
  }

  /** One hash per transaction, at its own index, of its EIP-2718 encoding. */
  lemma {:induction false} HashesInOrder(keccak: Blooms.Hasher, txs: seq<Transaction>, i: nat)
    requires i < |txs|
    ensures var hashes := Hashes(keccak, TxPreimages(txs));
            |hashes| == |txs| && hashes[i] == keccak(EncodeTx(txs[i]))
  {
    hide EncodeTx;
    var ps := TxPreimages(txs);
    assert ps[1..] == TxPreimages(txs[1..]);
    if i > 0 {
      HashesInOrder(keccak, txs[1..], i - 1);
    } else if |txs| > 1 {
      HashesInOrder(keccak, txs[1..], 0);
    } else {
      assert TxPreimages(txs[1..]) == [] && Hashes(keccak, []) == [];
    }
  }

  /** Bytes that no transaction header starts end the list with one zero hash. */
  lemma {:induction false} BrokenItemHash(keccak: Blooms.Hasher, txs: seq<Transaction>, forms: seq<Form>, bad: Bytes)
    requires |forms| == |txs| && bad != []
    requires forall i | 0 <= i < |txs| :: WellFormed(txs[i])
    requires DecodeHeader(if bad[0] < 0x80 then bad[1..] else bad).Err?
    ensures var hashes := Hashes(keccak, Preimages(TxItems(txs, forms) + bad));
            && |hashes| == |txs| + 1 && hashes[|txs|] == seq(32, _ => 0)
            && forall i | 0 <= i < |txs| :: hashes[i] == keccak(EncodeTx(txs[i]))
  {
    hide DecodeHeader, TxItem, EncodeTx;
    if txs == [] {
      assert TxItems(txs, forms) + bad == bad;
      assert Hashes(keccak, []) == [];
      assert Hashes(keccak, [Undecodable]) == [HashOf(keccak, Undecodable)] + Hashes(keccak, []);
    } else {
      hide NextTx;
      var rest := TxItems(txs[1..], forms[1..]) + bad;
      ItemTurn(txs[0], forms[0], rest);
      assert TxItems(txs, forms) + bad == TxItem(txs[0], forms[0]) + rest;
      BrokenItemHash(keccak, txs[1..], forms[1..], bad);
      var after := Preimages(rest);
      var first := Tx(EncodeTx(txs[0]));
      assert Preimages(TxItems(txs, forms) + bad) == [first] + after;
      assert ([first] + after)[1..] == after;
      assert Hashes(keccak, [first] + after) == [keccak(EncodeTx(txs[0]))] + Hashes(keccak, after);
    }
  }
}
