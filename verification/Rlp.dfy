/** Recursive length prefix encoding (Appendix B of the Ethereum Yellow Paper)
    and the strict decoder the codec is built on. */
module Rlp {
  import opened Types

  datatype RlpError =
    | InputTooShort
    | NonCanonicalSingleByte
    | NonCanonicalSize
    | LeadingZero
    | Overflow
    | UnexpectedString
    | UnexpectedList
    | UnexpectedLength
    | ListLengthMismatch

  /** A decoded value together with the bytes the cursor has not consumed. */
  datatype Parsed<+T> = Parsed(value: T, rest: Bytes)

  /** A decoded header; `rest` starts at the payload. A single byte below 0x80
      is its own payload, so its header consumes nothing. */
  datatype Header = Header(list: bool, len: nat, rest: Bytes)

  // ── Big-endian integers ────────────────────────────────────────────────────

  /** Minimal big-endian form: no leading zero, and zero is the empty string. */
  function BeBytes(n: nat): Bytes {
    if n == 0 then [] else BeBytes(n / 256) + [n % 256]
  }

  function BeValue(s: Bytes): nat {
    if s == [] then 0 else BeValue(s[..|s| - 1]) * 256 + s[|s| - 1]
  }

  function Pow256(k: nat): (p: nat)
    ensures p > 0
  {
    if k == 0 then 1 else 256 * Pow256(k - 1)
  }

  lemma {:induction false} BeRoundTrip(n: nat)
    ensures BeValue(BeBytes(n)) == n
  {
    if n != 0 {
      BeRoundTrip(n / 256);
      var s := BeBytes(n);
      assert s[..|s| - 1] == BeBytes(n / 256);
    }
  }

  /** A byte string without a leading zero is the minimal form of its value. */
  lemma {:induction false} BeCanonical(s: Bytes)
    requires s == [] || s[0] != 0
    ensures BeBytes(BeValue(s)) == s
    ensures s != [] ==> BeValue(s) > 0
  {
    if s != [] {
      var front := s[..|s| - 1];
      BeCanonical(front);
      assert BeValue(s) / 256 == BeValue(front);
      assert s == front + [s[|s| - 1]];
    }
  }

  lemma {:induction false} BeLeading(n: nat)
    ensures n > 0 ==> BeBytes(n) != [] && BeBytes(n)[0] != 0
  {
    if n >= 256 {
      BeLeading(n / 256);
    }
  }

  /** The minimal form has exactly as many bytes as the value needs. */
  lemma {:induction false} BeLength(n: nat, k: nat)
    ensures n < Pow256(k) <==> |BeBytes(n)| <= k
    decreases k
  {
    if n == 0 {
      assert Pow256(k) > 0;
    } else if k > 0 {
      BeLength(n / 256, k - 1);
      assert n / 256 < Pow256(k - 1) <==> n < 256 * Pow256(k - 1);
    }
  }

  lemma Pow256Eight()
    ensures Pow256(8) == TWO64 && Pow256(1) == 256
  {
    assert Pow256(2) == 0x1_0000;
    assert Pow256(4) == 0x1_0000_0000;
    assert Pow256(6) == 0x1_0000_0000_0000;
  }

  lemma LengthBytes(n: nat)
    requires 0 < n < TWO64
    ensures 1 <= |BeBytes(n)| <= 8 && BeBytes(n)[0] != 0
    ensures n < 256 ==> |BeBytes(n)| == 1
  {
    Pow256Eight();
    BeLength(n, 8);
    BeLength(n, 1);
    BeLeading(n);
  }

  /** A string with a nonzero first byte is worth at least `256^(length - 1)`. */
  lemma ValueBelow(s: Bytes)
    requires |s| <= 8
    requires s == [] || s[0] != 0
    ensures BeValue(s) < TWO64
  {
    BeCanonical(s);
    BeLength(BeValue(s), 8);
    Pow256Eight();
  }

  // ── Encoding ───────────────────────────────────────────────────────────────

  /** The prefix of an item with a payload of `len` bytes. Lengths of 2^64 and
      more have no encoding; the prefix byte saturates there. */
  function HeaderPrefix(list: bool, len: nat): Bytes {
    var short := if list then 0xC0 else 0x80;
    if len < 56 then [short + len]
    else
      var width := |BeBytes(len)|;
      [if width > 8 then short + 63 else short + 55 + width] + BeBytes(len)
  }

  predicate SelfEncoded(list: bool, payload: Bytes) {
    !list && |payload| == 1 && payload[0] < 0x80
  }

  function EncodePayload(list: bool, payload: Bytes): Bytes {
    if SelfEncoded(list, payload) then payload
    else HeaderPrefix(list, |payload|) + payload
  }

  function EncodeString(s: Bytes): Bytes {
    EncodePayload(false, s)
  }

  function EncodeList(payload: Bytes): Bytes {
    EncodePayload(true, payload)
  }

  function EncodeUint(n: nat): Bytes {
    EncodeString(BeBytes(n))
  }

  // ── Decoding ───────────────────────────────────────────────────────────────

  /** The length that follows a long-form prefix. */
  function DecodeLongLength(buf: Bytes, width: nat): Result<Parsed<nat>, RlpError>
    requires 1 <= width <= 8
  {
    if |buf| < width then Err(InputTooShort)
    else if buf[0] == 0 then Err(LeadingZero)
    else
      var len := BeValue(buf[..width]);
      if len < 56 then Err(NonCanonicalSize) else Ok(Parsed(len, buf[width..]))
  }

  function DecodeHeader(buf: Bytes): (r: Result<Header, RlpError>)
    ensures r.Ok? ==> r.value.len <= |r.value.rest| <= |buf|
    ensures r.Ok? ==> buf != [] && (buf[0] < 0x80 <==> r.value.rest == buf)
    ensures r.Ok? && r.value.rest == buf ==> r.value.len == 1
  {
    if buf == [] then Err(InputTooShort) else
    var b := buf[0];
    if b < 0x80 then
      Ok(Header(false, 1, buf))
    else if b < 0xB8 then
      var rest, len := buf[1..], b - 0x80;
      if len == 1 && rest == [] then Err(InputTooShort)
      else if len == 1 && rest[0] < 0x80 then Err(NonCanonicalSingleByte)
      else Sized(false, len, rest)
    else if b < 0xC0 then
      var p :- DecodeLongLength(buf[1..], b - 0xB7);
      Sized(false, p.value, p.rest)
    else if b < 0xF8 then
      Sized(true, b - 0xC0, buf[1..])
    else
      var p :- DecodeLongLength(buf[1..], b - 0xF7);
      Sized(true, p.value, p.rest)
  }

  function Sized(list: bool, len: nat, rest: Bytes): Result<Header, RlpError> {
    if |rest| < len then Err(InputTooShort) else Ok(Header(list, len, rest))
  }

  /** The payload of the next item, which must be a list exactly when asked to be. */
  function DecodePayload(buf: Bytes, list: bool): (r: Result<Parsed<Bytes>, RlpError>)
    ensures r.Ok? ==> |r.value.rest| < |buf|
  {
    var h :- DecodeHeader(buf);
    if h.list != list then Err(if list then UnexpectedString else UnexpectedList)
    else Ok(Parsed(h.rest[..h.len], h.rest[h.len..]))
  }

  function DecodeUint(buf: Bytes, width: nat): (r: Result<Parsed<U64>, RlpError>)
    requires width <= 8
    ensures r.Ok? ==> |r.value.rest| < |buf|
  {
    var p :- DecodePayload(buf, false);
    if |p.value| > width then Err(Overflow)
    else if p.value != [] && p.value[0] == 0 then Err(LeadingZero)
    else
      ValueBelow(p.value);
      Ok(Parsed(BeValue(p.value), p.rest))
  }

  /** A byte string of exactly `width` bytes: addresses, topics, blooms. */
  function DecodeFixed(buf: Bytes, width: nat): (r: Result<Parsed<Bytes>, RlpError>)
    ensures r.Ok? ==> |r.value.rest| < |buf| && |r.value.value| == width
  {
    var p :- DecodePayload(buf, false);
    if |p.value| != width then Err(UnexpectedLength) else Ok(p)
  }

  // ── Round trips ────────────────────────────────────────────────────────────

  lemma LongLengthDecodes(n: nat, tail: Bytes)
    requires 56 <= n < TWO64
    ensures var len := BeBytes(n);
            1 <= |len| <= 8 && DecodeLongLength(len + tail, |len|) == Ok(Parsed(n, tail))
  {
    LengthBytes(n);
    BeRoundTrip(n);
    var len := BeBytes(n);
    assert (len + tail)[..|len|] == len;
    assert (len + tail)[|len|..] == tail;
  }

  lemma LongPrefixDecodes(list: bool, n: nat, tail: Bytes)
    requires 56 <= n < TWO64 && n <= |tail|
    ensures DecodeHeader(HeaderPrefix(list, n) + tail) == Ok(Header(list, n, tail))
  {
    hide DecodeLongLength, BeBytes;
    LengthBytes(n);
    LongLengthDecodes(n, tail);
    assert (HeaderPrefix(list, n) + tail)[1..] == BeBytes(n) + tail;
  }

  lemma PrefixDecodes(list: bool, n: nat, tail: Bytes)
    requires n < TWO64 && n <= |tail|
    requires !list && n == 1 ==> tail[0] >= 0x80
    ensures DecodeHeader(HeaderPrefix(list, n) + tail) == Ok(Header(list, n, tail))
  {
    if n < 56 {
      assert (HeaderPrefix(list, n) + tail)[1..] == tail;
    } else {
      LongPrefixDecodes(list, n, tail);
    }
  }

  lemma HeaderDecodes(list: bool, payload: Bytes, rest: Bytes)
    requires |payload| < TWO64
    requires !SelfEncoded(list, payload)
    ensures DecodeHeader(EncodePayload(list, payload) + rest) == Ok(Header(list, |payload|, payload + rest))
  {
    PrefixDecodes(list, |payload|, payload + rest);
    assert EncodePayload(list, payload) + rest == HeaderPrefix(list, |payload|) + (payload + rest);
  }

  /** Decoding undoes encoding, whatever bytes follow. */
  lemma PayloadRoundTrip(list: bool, payload: Bytes, rest: Bytes)
    requires |payload| < TWO64
    ensures DecodePayload(EncodePayload(list, payload) + rest, list) == Ok(Parsed(payload, rest))
  {
    if SelfEncoded(list, payload) {
      assert (payload + rest)[..1] == payload;
      assert (payload + rest)[1..] == rest;
    } else {
      HeaderDecodes(list, payload, rest);
      assert (payload + rest)[..|payload|] == payload;
      assert (payload + rest)[|payload|..] == rest;
    }
  }

  lemma LongLengthCanonical(buf: Bytes, width: nat)
    requires 1 <= width <= 8
    requires DecodeLongLength(buf, width).Ok?
    ensures var p := DecodeLongLength(buf, width).value;
            56 <= p.value < TWO64 && |BeBytes(p.value)| == width && buf == BeBytes(p.value) + p.rest
  {
    BeCanonical(buf[..width]);
    ValueBelow(buf[..width]);
    assert buf == buf[..width] + buf[width..];
  }

  lemma LongPrefix(b: Byte, len: nat, tail: Bytes)
    requires 56 <= len < TWO64 && 1 <= |BeBytes(len)| <= 8
    requires b == 0xB7 + |BeBytes(len)| || b == 0xF7 + |BeBytes(len)|
    ensures [b] + (BeBytes(len) + tail) == HeaderPrefix(b >= 0xC0, len) + tail
  {
  }

  lemma LongHeaderCanonical(buf: Bytes)
    requires DecodeHeader(buf).Ok? && (0xB8 <= buf[0] < 0xC0 || 0xF8 <= buf[0])
    ensures var h := DecodeHeader(buf).value;
            56 <= h.len < TWO64 && buf == HeaderPrefix(h.list, h.len) + h.rest && h.list == (buf[0] >= 0xC0)
  {
    hide DecodeLongLength, HeaderPrefix, BeBytes;
    var b, tail := buf[0], buf[1..];
    var width := if b < 0xC0 then b - 0xB7 else b - 0xF7;
    LongLengthCanonical(tail, width);
    var p := DecodeLongLength(tail, width).value;
    LongPrefix(b, p.value, p.rest);
    assert buf == [b] + tail;
  }

  /** The decoder is strict: it accepts only what the encoder produces. */
  lemma HeaderCanonical(buf: Bytes)
    requires DecodeHeader(buf).Ok?
    ensures var h := DecodeHeader(buf).value;
            && (buf[0] < 0x80 ==> h == Header(false, 1, buf))
            && (buf[0] >= 0x80 ==>
                  h.len < TWO64 && buf == HeaderPrefix(h.list, h.len) + h.rest
                  && !SelfEncoded(h.list, h.rest[..h.len]))
            && (buf[0] >= 0xC0 <==> h.list)
  {
    var b := buf[0];
    if 0xB8 <= b < 0xC0 || 0xF8 <= b {
      LongHeaderCanonical(buf);
    } else if 0x80 <= b {
      assert buf == [b] + buf[1..];
    }
  }

  lemma PayloadCanonical(buf: Bytes, list: bool)
    requires DecodePayload(buf, list).Ok?
    ensures var p := DecodePayload(buf, list).value;
            |p.value| < TWO64 && buf == EncodePayload(list, p.value) + p.rest
  {
    HeaderCanonical(buf);
    var h := DecodeHeader(buf).value;
    assert h.rest == h.rest[..h.len] + h.rest[h.len..];
    if buf[0] >= 0x80 {
      assert buf == HeaderPrefix(h.list, h.len) + h.rest[..h.len] + h.rest[h.len..];
    }
  }

  lemma UintRoundTrip(n: U64, width: nat, rest: Bytes)
    requires width <= 8 && n < Pow256(width)
    ensures DecodeUint(EncodeUint(n) + rest, width) == Ok(Parsed(n, rest))
  {
    BeLength(n, width);
    BeLeading(n);
    BeRoundTrip(n);
    PayloadRoundTrip(false, BeBytes(n), rest);
  }

  lemma EncodedLength(list: bool, payload: Bytes)
    ensures |payload| <= |EncodePayload(list, payload)|
    ensures EncodePayload(list, payload) != []
    ensures list ==> |payload| < |EncodePayload(list, payload)| && EncodePayload(list, payload)[0] >= 0xC0
    ensures !list && |payload| > 1 && |payload| < TWO64 ==> 0x80 <= EncodePayload(list, payload)[0] < 0xC0
  {
    if 56 <= |payload| < TWO64 {
      LengthBytes(|payload|);
    }
  }

  lemma PrefixLength(list: bool, len: nat)
    ensures 1 <= |HeaderPrefix(list, len)|
    ensures len < TWO64 ==> |HeaderPrefix(list, len)| <= 9
    ensures HeaderPrefix(list, len)[0] >= 0x80 && (list <==> HeaderPrefix(list, len)[0] >= 0xC0)
  {
    if len >= 56 {
      BeLeading(len);
      BeLength(len, 8);
      Pow256Eight();
    }
  }

  lemma LongPrefixLength(list: bool, len: nat)
    requires len >= TWO64
    ensures |HeaderPrefix(list, len)| > 9
  {
    BeLength(len, 8);
    Pow256Eight();
  }

  /** A payload that has an encoding shares it with no other payload. */
  lemma EncodeInjective(list: bool, a: Bytes, b: Bytes)
    requires |a| < TWO64 && EncodePayload(list, a) == EncodePayload(list, b)
    ensures a == b
  {
    hide HeaderPrefix, DecodePayload;
    PrefixLength(list, |a|);
    if |b| >= TWO64 {
      LongPrefixLength(list, |b|);
    } else {
      var encoded := EncodePayload(list, a);
      assert encoded + [] == encoded;
      PayloadRoundTrip(list, a, []);
      PayloadRoundTrip(list, b, []);
    }
  }

  /** Strict integers: only the minimal form is accepted. */
  lemma UintCanonical(buf: Bytes, width: nat)
    requires width <= 8 && DecodeUint(buf, width).Ok?
    ensures var p := DecodeUint(buf, width).value; buf == EncodeUint(p.value) + p.rest
  {
    hide EncodePayload;
    PayloadCanonical(buf, false);
    BeCanonical(DecodePayload(buf, false).value.value);
  }

  // ── Bytes of a prefix ──────────────────────────────────────────────────────

  /** The minimal form, digit by digit, the highest first. */
  lemma {:induction false} BeDigits(n: nat, i: nat)
    requires i < |BeBytes(n)|
    ensures BeBytes(n)[i] == n / Pow256(|BeBytes(n)| - 1 - i) % 256
  {
    var last := |BeBytes(n)| - 1;
    assert BeBytes(n) == BeBytes(n / 256) + [n % 256];
    if i < last {
      BeDigits(n / 256, i);
      DivDiv(n, Pow256(last - 1 - i));
      assert Pow256(last - i) == 256 * Pow256(last - 1 - i);
    } else {
      assert Pow256(0) == 1;
    }
  }

  lemma DivDiv(n: nat, p: nat)
    requires p > 0
    ensures n / 256 / p == n / (256 * p)
  {
    var q, r := n / 256 / p, n / 256 % p;
    assert n / 256 == p * q + r;
    var rest := 256 * r + n % 256;
    assert n == (256 * p) * q + rest;
    assert rest < 256 * p;
    Quotient(n, 256 * p, q, rest);
  }

  lemma Quotient(n: nat, d: nat, q: nat, r: nat)
    requires n == d * q + r && r < d
    ensures n / d == q
  {
    var more := n / d - q;
    assert d * (n / d) == d * q + d * more;
    assert d * more == r - n % d;
    NoSmallMultiple(d, more);
  }

  lemma NoSmallMultiple(d: int, k: int)
    ensures -d < d * k < d ==> k == 0
  {
    if k >= 1 {
      assert d * k == d + d * (k - 1);
    } else if k <= -1 {
      assert d * k == -d + d * (k + 1);
    }
  }

  /** Every prefix, byte by byte: up to 55 payload bytes one byte, 0x80 or 0xC0 plus the
      length; beyond, 0xB7 or 0xF7 plus the number of length digits, and the digits. */
  lemma PrefixBytes(list: bool, len: nat)
    requires len < TWO64
    ensures var prefix := HeaderPrefix(list, len);
            if len <= 55 then prefix == [(if list then 0xC0 else 0x80) + len]
            else
              && 2 <= |prefix| <= 9 && prefix[0] == (if list then 0xF7 else 0xB7) + (|prefix| - 1)
              && prefix[1] != 0
              && forall i | 1 <= i < |prefix| :: prefix[i] == len / Pow256(|prefix| - 1 - i) % 256
  {
    hide Pow256;
    if len > 55 {
      LengthBytes(len);
      forall i | 0 <= i < |BeBytes(len)| ensures BeBytes(len)[i] == len / Pow256(|BeBytes(len)| - 1 - i) % 256 {
        BeDigits(len, i);
      }
      var prefix := HeaderPrefix(list, len);
      forall i | 1 <= i < |prefix| ensures prefix[i] == len / Pow256(|prefix| - 1 - i) % 256 {
        assert prefix[i] == BeBytes(len)[i - 1];
      }
    }
  }

  /** A whole item: the prefix and the payload, except that a string of one byte below
      0x80 is itself. */
  lemma ItemBytes(list: bool, payload: Bytes)
    ensures EncodePayload(list, payload)
            == if !list && |payload| == 1 && payload[0] < 0x80 then payload
               else HeaderPrefix(list, |payload|) + payload
    ensures EncodeString([]) == [0x80] && EncodeList([]) == [0xC0]
    ensures EncodeUint(0) == [0x80] && EncodeUint(0x7F) == [0x7F] && EncodeUint(0x80) == [0x81, 0x80]
  {
    assert BeBytes(0x7F) == [0x7F] && BeBytes(0x80) == [0x80];
  }
}
