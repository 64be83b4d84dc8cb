/** Values shared by every part of the indexer: machine words, byte strings,
    logs and receipts. */
module Types {

  const TWO63: int := 0x8000_0000_0000_0000
  const TWO64: int := 0x1_0000_0000_0000_0000
  const U64_MAX: int := 0xFFFF_FFFF_FFFF_FFFF

  type Byte = b: int | 0 <= b < 256
  type Bytes = seq<Byte>
  type U64 = n: int | 0 <= n < 0x1_0000_0000_0000_0000
  type I64 = n: int | -0x8000_0000_0000_0000 <= n < 0x8000_0000_0000_0000

  /** A 20-byte account address. */
  type Address = s: Bytes | |s| == 20 witness seq(20, _ => 0)

  /** A 32-byte hash or log topic. */
  type B256 = s: Bytes | |s| == 32 witness seq(32, _ => 0)

  /** A 2048-bit logs bloom as its 256 bytes. */
  type Bloom = s: Bytes | |s| == 256 witness seq(256, _ => 0)

  /** Receipt type: 0 is the legacy receipt, 1 to 4 are the typed envelopes. */
  type TxType = t: int | 0 <= t <= 4

  datatype Option<+T> = None | Some(value: T)

  datatype Result<+T, +E> = Ok(value: T) | Err(error: E) {
    predicate IsFailure() {
      Err?
    }

    function PropagateFailure<U>(): Result<U, E>
      requires Err?
    {
      Err(error)
    }

    function Extract(): T
      requires Ok?
    {
      value
    }
  }

  datatype Log = Log(address: Address, topics: seq<B256>, data: Bytes)

  /** Post-Byzantium receipts carry a status flag, older ones a state root. */
  datatype Status = Success(ok: bool) | PostState(stateRoot: B256)

  datatype Receipt = Receipt(kind: TxType, status: Status, gasUsed: U64, bloom: Bloom, logs: seq<Log>)

  /** An archive stores a typed receipt or transaction as a byte string or as bare bytes. */
  datatype Form = Wrapped | Bare

  /** `u64 as i64`: the two's complement reinterpretation. */
  function AsI64(n: U64): I64 {
    if n < TWO63 then n else n - TWO64
  }

  /** `u64` addition in a release build, which wraps. */
  function WrappingAdd(a: U64, b: U64): U64 {
    (a + b) % TWO64
  }

  function Min(a: nat, b: nat): nat {
    if a < b then a else b
  }

  function SaturatingAdd(a: U64, b: U64): U64 {
    if a + b >= TWO64 then U64_MAX else a + b
  }
}
