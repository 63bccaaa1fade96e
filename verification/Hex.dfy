/** Lower-case hex: the table encoder and the encoder that handles eight bytes in one 64-bit word. */
module Hex {
  const DIGITS: seq<bv8> :=
    [0x30, 0x31, 0x32, 0x33, 0x34, 0x35, 0x36, 0x37, 0x38, 0x39, 0x61, 0x62, 0x63, 0x64, 0x65, 0x66]

  function Digit(nibble: bv8): bv8
    requires nibble < 16
  {
    NibbleIsIndex(nibble);
    DIGITS[nibble as int]
  }

  lemma NibbleIsIndex(nibble: bv8)
    requires nibble < 16
    ensures nibble as int < 16
  {
  }

  function High(b: bv8): (nibble: bv8)
    ensures nibble < 16
  {
    b >> 4
  }

  function Low(b: bv8): (nibble: bv8)
    ensures nibble < 16
  {
    b & 0xf
  }

  /** Two digits for each byte, high nibble first. */
  function Encode(s: seq<bv8>): (r: seq<bv8>)
    ensures |r| == 2 * |s|
  {
    if |s| == 0 then [] else Encode(s[..|s| - 1]) + [Digit(High(s[|s| - 1])), Digit(Low(s[|s| - 1]))]
  }

  /** `dst` holds the digits of the first `n` bytes. */
  ghost predicate Holds(dst: seq<bv8>, s: seq<bv8>, n: nat) {
    && |dst| == 2 * |s| && n <= |s|
    && forall j :: 0 <= j < n ==> dst[2 * j] == Digit(High(s[j])) && dst[2 * j + 1] == Digit(Low(s[j]))
  }

  lemma {:induction false} HoldsIsEncode(dst: seq<bv8>, s: seq<bv8>)
    requires Holds(dst, s, |s|)
    ensures dst == Encode(s)
    decreases |s|
  {
    if |s| > 0 {
      var n := |s| - 1;
      assert Holds(dst[..2 * n], s[..n], n);
      HoldsIsEncode(dst[..2 * n], s[..n]);
      assert dst == dst[..2 * n] + [dst[2 * n], dst[2 * n + 1]];
    }
  }

  // ----- Reading digits back -----

  function Value(digit: bv8): bv8 {
    if digit < 0x3a then digit - 0x30 else digit - 0x57
  }

  /** A lower-case hex digit. */
  predicate IsDigit(b: bv8) {
    0x30 <= b <= 0x39 || 0x61 <= b <= 0x66
  }

  function Ascii(nibble: bv8): bv8 {
    if nibble < 10 then 0x30 + nibble else 0x57 + nibble
  }

  lemma DigitIsAscii(nibble: bv8)
    requires nibble < 16
    ensures Digit(nibble) == Ascii(nibble)
  {
    if
    case nibble == 0 =>
    case nibble == 1 =>
    case nibble == 2 =>
    case nibble == 3 =>
    case nibble == 4 =>
    case nibble == 5 =>
    case nibble == 6 =>
    case nibble == 7 =>
    case nibble == 8 =>
    case nibble == 9 =>
    case nibble == 10 =>
    case nibble == 11 =>
    case nibble == 12 =>
    case nibble == 13 =>
    case nibble == 14 =>
    case nibble == 15 =>
  }

  function Decode(digits: seq<bv8>): seq<bv8>
    requires |digits| % 2 == 0
  {
    if |digits| == 0 then []
    else
      var n := |digits| - 2;
      Decode(digits[..n]) + [(Value(digits[n]) << 4) | Value(digits[n + 1])]
  }

  lemma ByteOfDigits(b: bv8)
    ensures (Value(Digit(High(b))) << 4) | Value(Digit(Low(b))) == b
    ensures IsDigit(Digit(High(b))) && IsDigit(Digit(Low(b)))
  {
    hide Digit;
    DigitIsAscii(High(b));
    DigitIsAscii(Low(b));
  }

  lemma EncodeSnoc(s: seq<bv8>)
    requires |s| > 0
    ensures var n := |s| - 1;
            var pair := [Digit(High(s[n])), Digit(Low(s[n]))];
            Encode(s) == Encode(s[..n]) + pair && Encode(s)[..2 * n] == Encode(s[..n])
  {
  }

  /** Every byte comes back. */
  lemma {:induction false} DecodeUndoesEncode(s: seq<bv8>)
    ensures Decode(Encode(s)) == s
    decreases |s|
  {
    hide Encode, Digit, Value, High, Low;
    if |s| > 0 {
      var n := |s| - 1;
      DecodeUndoesEncode(s[..n]);
      ByteOfDigits(s[n]);
      EncodeSnoc(s);
      assert s == s[..n] + [s[n]];
    }
  }

  /** Only lower-case digits are written. */
  lemma {:induction false} EncodeWritesDigits(s: seq<bv8>)
    ensures forall i :: 0 <= i < |Encode(s)| ==> IsDigit(Encode(s)[i])
    decreases |s|
  {
    hide Encode, Digit, Value, High, Low;
    if |s| > 0 {
      EncodeWritesDigits(s[..|s| - 1]);
      ByteOfDigits(s[|s| - 1]);
      EncodeSnoc(s);
    }
  }

  // ----- The table encoder -----

  /** `hex_encode_into`. */
  method HexEncodeInto(out: seq<bv8>, s: seq<bv8>) returns (r: seq<bv8>)
    ensures r == out + Encode(s)
  {
    hide Encode, Digit;
    var dst := new bv8[2 * |s|](_ => 0);
    for i := 0 to |s|
      invariant Holds(dst[..], s, i)
    {
      dst[i * 2] := Digit(High(s[i]));
      dst[i * 2 + 1] := Digit(Low(s[i]));
    }
    HoldsIsEncode(dst[..], s);
    r := out + dst[..];
  }

  // ----- Words -----

  /** Byte `k` of a word, the most significant first. */
  function Byte(w: bv64, k: nat): bv8
    requires k < 8
  {
    match k
    case 0 => ((w >> 56) & 0xff) as bv8
    case 1 => ((w >> 48) & 0xff) as bv8
    case 2 => ((w >> 40) & 0xff) as bv8
    case 3 => ((w >> 32) & 0xff) as bv8
    case 4 => ((w >> 24) & 0xff) as bv8
    case 5 => ((w >> 16) & 0xff) as bv8
    case 6 => ((w >> 8) & 0xff) as bv8
    case 7 => (w & 0xff) as bv8
  }

  /** `to_be_bytes`. */
  function ToBytes(w: bv64): seq<bv8> {
    seq(8, k requires 0 <= k < 8 => Byte(w, k))
  }

  /** `from_be_bytes`. */
  function FromBytes(c: seq<bv8>): bv64
    requires |c| == 8
  {
    (c[0] as bv64 << 56) | (c[1] as bv64 << 48) | (c[2] as bv64 << 40) | (c[3] as bv64 << 32)
    | (c[4] as bv64 << 24) | (c[5] as bv64 << 16) | (c[6] as bv64 << 8) | c[7] as bv64
  }

  lemma BytesComeBack(c: seq<bv8>)
    requires |c| == 8
    ensures ToBytes(FromBytes(c)) == c
  {
  }

  const NIBBLES: bv64 := 0x0f0f_0f0f_0f0f_0f0f
  const ONES: bv64 := 0x0101_0101_0101_0101

  /** 1 in each lane whose nibble is 10 or more. */
  function Letters(x: bv64): bv64 {
    ((x + 0x0606_0606_0606_0606) >> 4) & ONES
  }

  /** What turns the digit after '9' into 'a', in each lane that is 1. */
  function Gap(ones: bv64): bv64 {
    ones * 0x27
  }

  /** The digit of the nibble in each lane. */
  function Spread(x: bv64): bv64 {
    x + 0x3030_3030_3030_3030 + Gap(Letters(x))
  }

  lemma SpreadLane(x: bv64, k: nat)
    requires x & !NIBBLES == 0 && k < 8
    ensures Byte(Spread(x), k) == Ascii(Byte(x, k)) && Byte(x, k) < 16
  {
    if
    case k == 0 =>
    case k == 1 =>
    case k == 2 =>
    case k == 3 =>
    case k == 4 =>
    case k == 5 =>
    case k == 6 =>
    case k == 7 =>
  }

  lemma NibbleLane(w: bv64, k: nat)
    requires k < 8
    ensures Byte((w >> 4) & NIBBLES, k) == High(Byte(w, k)) && Byte(w & NIBBLES, k) == Low(Byte(w, k))
  {
    if
    case k == 0 =>
    case k == 1 =>
    case k == 2 =>
    case k == 3 =>
    case k == 4 =>
    case k == 5 =>
    case k == 6 =>
    case k == 7 =>
  }

  lemma LettersAreOnes(x: bv64)
    requires x & !NIBBLES == 0
    ensures Letters(x) & !ONES == 0
  {
  }

  lemma ProductFits(ones: bv64)
    requires ones & !ONES == 0
    ensures Gap(ones) <= 0x2727_2727_2727_2727 && Gap(ones) as bv72 == ones as bv72 * 0x27
  {
  }

  lemma SumsFit(x: bv64, y: bv64)
    requires x & !NIBBLES == 0 && y <= 0x2727_2727_2727_2727
    ensures (x + 0x0606_0606_0606_0606) as bv72 == x as bv72 + 0x0606_0606_0606_0606
    ensures (x + 0x3030_3030_3030_3030 + y) as bv72 == x as bv72 + 0x3030_3030_3030_3030 + y as bv72
  {
  }

  /** None of the sums and products in `Spread` leaves 64 bits: computed in 72 bits they come out the same. */
  lemma SpreadNeverOverflows(x: bv64, gap: bv64)
    requires x & !NIBBLES == 0 && gap == Gap(Letters(x))
    ensures (x + 0x0606_0606_0606_0606) as bv72 == x as bv72 + 0x0606_0606_0606_0606
    ensures gap as bv72 == Letters(x) as bv72 * 0x27
    ensures (x + 0x3030_3030_3030_3030 + gap) as bv72 == x as bv72 + 0x3030_3030_3030_3030 + gap as bv72
  {
    hide Letters, Gap;
    LettersAreOnes(x);
    ProductFits(Letters(x));
    SumsFit(x, gap);
  }

  /** Lane by lane the word arithmetic looks up the table. */
  lemma LanesAreDigits(w: bv64, k: nat)
    requires k < 8
    ensures Byte(Spread((w >> 4) & NIBBLES), k) == Digit(High(Byte(w, k)))
    ensures Byte(Spread(w & NIBBLES), k) == Digit(Low(Byte(w, k)))
  {
    hide Byte, Spread, Digit;
    Masked(w);
    NibbleLane(w, k);
    SpreadLane((w >> 4) & NIBBLES, k);
    SpreadLane(w & NIBBLES, k);
    DigitIsAscii(High(Byte(w, k)));
    DigitIsAscii(Low(Byte(w, k)));
  }

  lemma Masked(w: bv64)
    ensures ((w >> 4) & NIBBLES) & !NIBBLES == 0 && (w & NIBBLES) & !NIBBLES == 0
  {
  }

  /** The body of the word loop. */
  method EncodeChunk(dst: array<bv8>, s: seq<bv8>, i: nat)
    requires 8 * i + 8 <= |s| && Holds(dst[..], s, 8 * i)
    modifies dst
    ensures Holds(dst[..], s, 8 * i + 8)
  {
    hide Digit, Byte, Spread, FromBytes, High, Low;
    var chunk := s[8 * i..8 * i + 8];
    var w := FromBytes(chunk);
    BytesComeBack(chunk);
    var h := ToBytes(Spread((w >> 4) & NIBBLES));
    var l := ToBytes(Spread(w & NIBBLES));
    var start := i * 16;
    for k := 0 to 8
      invariant Holds(dst[..], s, 8 * i + k)
    {
      LanesAreDigits(w, k);
      assert Byte(w, k) == ToBytes(w)[k] == chunk[k] == s[8 * i + k];
      dst[start + k * 2] := h[k];
      dst[start + k * 2 + 1] := l[k];
    }
  }

  /** `hex_encode_u64_into`: eight bytes at a time, and the rest through the table. */
  method HexEncodeU64Into(out: seq<bv8>, s: seq<bv8>) returns (r: seq<bv8>)
    ensures r == out + Encode(s)
  {
    hide Encode, Digit;
    var dst := new bv8[2 * |s|](_ => 0);
    var chunks := |s| / 8;
    for i := 0 to chunks
      invariant Holds(dst[..], s, 8 * i)
    {
      EncodeChunk(dst, s, i);
    }
    var done := 8 * chunks;
    for i := 0 to |s| - done
      invariant Holds(dst[..], s, done + i)
    {
      dst[done * 2 + i * 2] := Digit(High(s[done + i]));
      dst[done * 2 + i * 2 + 1] := Digit(Low(s[done + i]));
    }
    HoldsIsEncode(dst[..], s);
    r := out + dst[..];
  }
}
