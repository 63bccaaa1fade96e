/** The byte-level vocabulary shared by the wire codecs. */
module Bytes {
  type u8 = x: int | 0 <= x < 0x100
  type u32 = x: int | 0 <= x < 0x1_0000_0000
  type u64 = x: int | 0 <= x < 0x1_0000_0000_0000_0000
  type bytes = seq<u8>

  /** Every way in which the projection reports `ProjectionError`, one constructor per message family. */
  datatype Error =
    | TruncatedVarint
    | VarintOverflow
    | FieldNumberZero
    | FieldNumberOutOfRange
    | BadWireType
    | TruncatedFixed64
    | TruncatedFixed32
    | TruncatedLen
    | UnexpectedEndGroup
    | MismatchedEndGroup
    | GroupTooDeep
    | UnterminatedGroup
    | WrongWireType
    | InvalidUtf8
    | DepthExceeded
    | UnsupportedValue

  datatype Result<+T> = Ok(value: T) | Err(error: Error) {
    predicate IsFailure() {
      Err?
    }

    function PropagateFailure<U>(): Result<U>
      requires Err?
    {
      Err(error)
    }

    function Extract(): T
      requires Ok?
    {
      value
    }
  }

  /** `value as i64`. */
  function AsI64(v: u64): int {
    if v < 0x8000_0000_0000_0000 then v else v - 0x1_0000_0000_0000_0000
  }

  /** `i64::from(value as i32)`. */
  function AsI32(v: u64): int {
    var low := v % 0x1_0000_0000;
    if low < 0x8000_0000 then low else low - 0x1_0000_0000
  }

  /** `value as u64` for an `i64`. */
  function FromI64(i: int): u64
    requires -0x8000_0000_0000_0000 <= i < 0x8000_0000_0000_0000
  {
    if i < 0 then i + 0x1_0000_0000_0000_0000 else i
  }

  function Pow(base: nat, exponent: nat): nat {
    if exponent == 0 then 1 else base * Pow(base, exponent - 1)
  }

  /** `u64::from_le_bytes` and `u32::from_le_bytes`. */
  function LittleEndian(s: bytes): (v: nat)
    ensures v < Pow(256, |s|)
  {
    if |s| == 0 then 0 else s[0] + 256 * LittleEndian(s[1..])
  }

  /** `to_le_bytes`, for a word of `width` bytes. */
  function ToLittleEndian(v: nat, width: nat): (s: bytes)
    ensures |s| == width
  {
    if width == 0 then [] else [v % 256] + ToLittleEndian(v / 256, width - 1)
  }

  lemma {:induction false} LittleEndianRoundTrip(v: nat, width: nat)
    requires v < Pow(256, width)
    ensures LittleEndian(ToLittleEndian(v, width)) == v
  {
    if width > 0 {
      LittleEndianRoundTrip(v / 256, width - 1);
      assert ToLittleEndian(v, width)[1..] == ToLittleEndian(v / 256, width - 1);
    }
  }
}
