/** Base 128 varints: the bounded reader, its fast path, and the writer it undoes. */
module Varint {
  import opened Bytes

  const MAX_VARINT_BYTES := 10

  /** A value read from the front of a slice and the number of bytes it took. */
  datatype Read = Read(value: u64, used: nat)

  /** The base-128 number whose digits are the low seven bits of each byte, least significant first. */
  function Base128(s: bytes): nat {
    if |s| == 0 then 0 else s[0] % 128 + 128 * Base128(s[1..])
  }

  /** Largest number of values that can still be read when `index` bytes are behind us: 2^64 at 0, 2 at 9. */
  function Room(index: nat): nat
    requires index <= 9
  {
    2 * Pow(128, 9 - index)
  }

  /** What `read_varint` yields when byte number `index` of the varint is at the front of `s`. */
  function ReadFrom(s: bytes, index: nat): (r: Result<Read>)
    requires index <= MAX_VARINT_BYTES
    ensures r.Ok? ==> 1 <= r.value.used <= |s| && index + r.value.used <= MAX_VARINT_BYTES
    ensures r.Ok? ==> r.value.value < Room(index)
    decreases MAX_VARINT_BYTES - index
  {
    if index == MAX_VARINT_BYTES then Err(VarintOverflow)
    else if |s| == 0 then Err(TruncatedVarint)
    else if index == 9 && s[0] > 1 then Err(VarintOverflow)
    else if s[0] < 128 then
      RoomFitsDigit(index);
      Ok(Read(s[0], 1))
    else
      var rest :- ReadFrom(s[1..], index + 1);
      RoomShrinks(index);
      Ok(Read(s[0] % 128 + 128 * rest.value, rest.used + 1))
  }

  lemma RoomFitsDigit(index: nat)
    requires index <= 9
    ensures index < 9 ==> 128 <= Room(index)
    ensures Room(index) <= 0x1_0000_0000_0000_0000
  {
    PowMonotone(9 - index, 9);
    if index < 9 {
      PowMonotone(1, 9 - index);
    }
    assert Pow(128, 9) * 2 == 0x1_0000_0000_0000_0000;
  }

  lemma {:induction false} PowMonotone(small: nat, big: nat)
    requires small <= big
    ensures 1 <= Pow(128, small) <= Pow(128, big)
    decreases big
  {
    if small < big {
      PowMonotone(small, big - 1);
    } else if small > 0 {
      PowMonotone(small - 1, big - 1);
    }
  }

  lemma RoomShrinks(index: nat)
    requires index < 9
    ensures Room(index) == 128 * Room(index + 1)
    ensures Room(index) <= 0x1_0000_0000_0000_0000
  {
    RoomFitsDigit(index);
  }

  function ReadVarint(s: bytes): (r: Result<Read>)
    ensures r.Ok? ==> 1 <= r.value.used <= |s| && r.value.used <= MAX_VARINT_BYTES
  {
    ReadFrom(s, 0)
  }

  /** A complete varint: continuation bits on all but the last byte, and a tenth byte of at most 1. */
  ghost predicate IsVarint(s: bytes) {
    && 1 <= |s| <= 10
    && (forall i :: 0 <= i < |s| - 1 ==> s[i] >= 128)
    && s[|s| - 1] < 128
    && (|s| == 10 ==> s[9] <= 1)
  }

  lemma {:induction false} ReadFromMeaning(s: bytes, index: nat, n: nat)
    requires index < MAX_VARINT_BYTES
    requires 1 <= n <= |s| && index + n <= MAX_VARINT_BYTES
    requires forall i :: 0 <= i < n - 1 ==> s[i] >= 128
    requires s[n - 1] < 128
    requires index + n == MAX_VARINT_BYTES ==> s[n - 1] <= 1
    ensures ReadFrom(s, index).Ok?
    ensures ReadFrom(s, index).value.value == Base128(s[..n]) && ReadFrom(s, index).value.used == n
    decreases n
  {
    hide Room, ReadFrom;
    ReadFromStep(s, index);
    if n > 1 {
      assert s[0] >= 128;
      assert forall i :: 0 <= i < n - 2 ==> s[1..][i] == s[i + 1];
      ReadFromMeaning(s[1..], index + 1, n - 1);
      assert s[..n][1..] == s[1..][..n - 1];
    } else {
      assert s[..1][1..] == [];
    }
  }

  lemma {:induction false} ReadFromShape(s: bytes, index: nat)
    requires index <= MAX_VARINT_BYTES
    requires ReadFrom(s, index).Ok?
    ensures var n := ReadFrom(s, index).value.used;
            && (forall i :: 0 <= i < n - 1 ==> s[i] >= 128)
            && s[n - 1] < 128
            && (index + n == MAX_VARINT_BYTES ==> s[n - 1] <= 1)
    decreases MAX_VARINT_BYTES - index
  {
    if s[0] >= 128 {
      ReadFromShape(s[1..], index + 1);
      var n := ReadFrom(s, index).value.used;
      forall i | 0 <= i < n - 1 ensures s[i] >= 128 {
        if i > 0 {
          assert s[i] == s[1..][i - 1];
        }
      }
      assert s[n - 1] == s[1..][n - 2];
    }
  }

  /**
    * `read_varint` succeeds exactly on the complete varints of 1 to 10 bytes below 2^64, and yields their base-128
    * sum.
    */
  lemma ReadVarintExact(s: bytes, v: nat, n: nat)
    ensures ReadVarint(s).Ok? && ReadVarint(s).value.value == v && ReadVarint(s).value.used == n
            <==> n <= |s| && IsVarint(s[..n]) && v == Base128(s[..n])
  {
    if n <= |s| && IsVarint(s[..n]) {
      assert forall i :: 0 <= i < n ==> s[..n][i] == s[i];
      ReadFromMeaning(s, 0, n);
    }
    if ReadVarint(s).Ok? && ReadVarint(s).value.used == n {
      ReadFromShape(s, 0);
      assert forall i :: 0 <= i < n ==> s[..n][i] == s[i];
      ReadFromMeaning(s, 0, n);
    }
  }

  /** A successful read looks only at the bytes it uses. */
  lemma ReadVarintLocal(s: bytes, t: bytes)
    requires ReadVarint(s).Ok?
    requires ReadVarint(s).value.used <= |t|
    requires t[..ReadVarint(s).value.used] == s[..ReadVarint(s).value.used]
    ensures ReadVarint(t) == ReadVarint(s)
  {
    var r := ReadVarint(s).value;
    ReadVarintExact(s, r.value, r.used);
    ReadVarintExact(t, r.value, r.used);
  }

  /** `push_varint` and `encode_varint`: the bytes appended for `value`. */
  function PushVarint(value: nat): (s: bytes)
    ensures |s| >= 1
  {
    if value < 128 then [value] else [value % 128 + 128] + PushVarint(value / 128)
  }

  /** The digits of a longer value: the low one, then those of the rest. */
  lemma PushUnfolds(value: nat)
    requires value >= 128
    ensures PushVarint(value) == [value % 128 + 128] + PushVarint(value / 128)
  {
  }

  lemma {:induction false} PushVarintShape(value: nat, index: nat)
    requires index <= 9 && value < Room(index)
    ensures var s := PushVarint(value);
            && index + |s| <= MAX_VARINT_BYTES
            && (forall i :: 0 <= i < |s| - 1 ==> s[i] >= 128)
            && s[|s| - 1] < 128
            && (index + |s| == MAX_VARINT_BYTES ==> s[|s| - 1] <= 1)
            && Base128(s) == value
    decreases value
  {
    if value >= 128 {
      assert index < 9;
      RoomShrinks(index);
      PushVarintShape(value / 128, index + 1);
      assert PushVarint(value)[1..] == PushVarint(value / 128);
    }
  }

  /** Whatever follows, reading undoes pushing and leaves exactly what follows. */
  lemma ReadUndoesPush(value: u64, rest: bytes)
    ensures ReadVarint(PushVarint(value) + rest) == Ok(Read(value, |PushVarint(value)|))
  {
    var s := PushVarint(value);
    RoomFitsDigit(0);
    assert Room(0) == 0x1_0000_0000_0000_0000;
    PushVarintShape(value, 0);
    assert (s + rest)[..|s|] == s;
    ReadVarintExact(s + rest, value, |s|);
  }

  /** `varint_len`: the size table used to write length prefixes before the bytes exist. */
  function VarintLen(value: u64): nat {
    if value <= 0x7F then 1
    else if value <= 0x3FFF then 2
    else if value <= 0x1F_FFFF then 3
    else if value <= 0xFFF_FFFF then 4
    else if value <= 0x7_FFFF_FFFF then 5
    else if value <= 0x3FF_FFFF_FFFF then 6
    else if value <= 0x1_FFFF_FFFF_FFFF then 7
    else if value <= 0xFF_FFFF_FFFF_FFFF then 8
    else if value <= 0x7FFF_FFFF_FFFF_FFFF then 9
    else 10
  }

  lemma {:induction false} VarintLenIsPushed(value: u64)
    ensures VarintLen(value) == |PushVarint(value)|
    decreases value
  {
    if value >= 128 {
      VarintLenIsPushed(value / 128);
    }
  }

  /** `u64::from(byte & 0x7f) << (index * 7)`. */
  function Shifted(byte: u8, index: nat): nat {
    byte % 128 * Pow(128, index)
  }

  /** Puts the digits already collected below the value still to be read. */
  function Collected(rest: Result<Read>, low: nat, index: nat): Result<(nat, nat)> {
    match rest
    case Ok(r) => Ok((low + Pow(128, index) * r.value, index + r.used))
    case Err(e) => Err(e)
  }

  lemma ReadFromStep(s: bytes, index: nat)
    requires index < MAX_VARINT_BYTES && |s| > 0
    requires !(index == 9 && s[0] > 1)
    ensures s[0] < 128 ==> ReadFrom(s, index) == Ok(Read(s[0], 1))
    ensures s[0] >= 128 ==>
      match ReadFrom(s[1..], index + 1)
      case Ok(r) => ReadFrom(s, index).Ok? && ReadFrom(s, index).value.value == s[0] % 128 + 128 * r.value
                    && ReadFrom(s, index).value.used == r.used + 1
      case Err(e) => ReadFrom(s, index) == Err(e)
  {
    hide Room;
  }

  lemma PowStep(index: nat)
    ensures Pow(128, index + 1) == 128 * Pow(128, index)
  {
  }

  lemma CollectDigit(s: bytes, low: nat, index: nat)
    requires index < MAX_VARINT_BYTES && |s| > 0
    requires !(index == 9 && s[0] > 1)
    ensures s[0] < 128 ==> Collected(ReadFrom(s, index), low, index) == Ok((low + Shifted(s[0], index), index + 1))
    ensures s[0] >= 128 ==>
      Collected(ReadFrom(s, index), low, index)
      == Collected(ReadFrom(s[1..], index + 1), low + Shifted(s[0], index), index + 1)
  {
    hide ReadFrom, Pow;
    ReadFromStep(s, index);
    if s[0] >= 128 {
      var rest := ReadFrom(s[1..], index + 1);
      PowStep(index);
      if rest.Ok? {
        Regroup(low, Pow(128, index), s[0] % 128, rest.value.value);
      }
    }
  }

  lemma Regroup(low: nat, p: nat, d: nat, v: nat)
    ensures low + p * (d + 128 * v) == low + d * p + (128 * p) * v
  {
  }

  lemma CollectedFromStart(r: Result<Read>)
    ensures r.Ok? ==> Collected(r, 0, 0) == Ok((r.value.value, r.value.used))
    ensures r.Err? ==> Collected(r, 0, 0) == Err(r.error)
  {
  }

  /** `read_varint_multibyte`, the ten-round loop; the digits it ors in never overlap, so they are added. */
  method ReadVarintMultibyte(input: bytes) returns (r: Result<Read>)
    ensures r == ReadVarint(input)
  {
    var rest := input;
    var result: nat := 0;
    var index := 0;
    ghost var whole := Collected(ReadFrom(input, 0), 0, 0);
    CollectedFromStart(ReadFrom(input, 0));
    while index < 10
      invariant index <= 10 && index <= |input| && rest == input[index..]
      invariant Collected(ReadFrom(rest, index), result, index) == whole
    {
      if |rest| == 0 {
        return Err(TruncatedVarint);
      }
      var byte := rest[0];
      if index == 9 && byte > 1 {
        return Err(VarintOverflow);
      }
      CollectDigit(rest, result, index);
      result := result + Shifted(byte, index);
      if byte < 128 {
        return Ok(Read(result, index + 1));
      }
      rest := rest[1..];
      index := index + 1;
    }
    return Err(VarintOverflow);
  }

  /** `read_varint` with its one-byte fast path. */
  method ReadVarintFast(input: bytes) returns (r: Result<Read>)
    ensures r == ReadVarint(input)
  {
    if |input| > 0 && input[0] < 0x80 {
      return Ok(Read(input[0], 1));
    }
    r := ReadVarintMultibyte(input);
  }
}
