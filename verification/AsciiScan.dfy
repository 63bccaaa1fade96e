/** `require_utf8`: eight bytes at a time through a mask, and the full validation only if that finds a high bit. */
module AsciiScan {
  import opened Bytes
  import opened Utf8
  import Hex
  import Decode

  const HIGH_BITS: bv64 := 0x8080_8080_8080_8080

  lemma HighBit(b: u8)
    ensures b as bv8 & 0x80 != 0 <==> b >= 0x80
  {
  }

  lemma MaskFindsHighBits(c: seq<bv8>)
    requires |c| == 8
    ensures Hex.FromBytes(c) & HIGH_BITS == 0 <==> forall k :: 0 <= k < 8 ==> c[k] & 0x80 == 0
  {
    assert (forall k :: 0 <= k < 8 ==> c[k] & 0x80 == 0) <==>
      c[0] & 0x80 == 0 && c[1] & 0x80 == 0 && c[2] & 0x80 == 0 && c[3] & 0x80 == 0
      && c[4] & 0x80 == 0 && c[5] & 0x80 == 0 && c[6] & 0x80 == 0 && c[7] & 0x80 == 0;
  }

  function Chunk(s: bytes): (c: seq<bv8>)
    requires |s| == 8
    ensures |c| == 8
  {
    seq(8, k requires 0 <= k < 8 => s[k] as bv8)
  }

  lemma MaskFindsAscii(s: bytes)
    requires |s| == 8
    ensures Hex.FromBytes(Chunk(s)) & HIGH_BITS == 0 <==> forall k :: 0 <= k < 8 ==> s[k] < 0x80
  {
    hide Hex.FromBytes;
    MaskFindsHighBits(Chunk(s));
    forall k | 0 <= k < 8 ensures Chunk(s)[k] & 0x80 == 0 <==> s[k] < 0x80 {
      HighBit(s[k]);
    }
  }

  /** The verdict is that of full validation on every input. */
  method RequireUtf8(s: bytes) returns (r: Result<bytes>)
    ensures r == if IsUtf8(s) then Ok(s) else Err(InvalidUtf8)
  {
    hide IsUtf8, Hex.FromBytes, Chunk;
    var i := 0;
    while i + 8 <= |s|
      invariant 0 <= i <= |s|
      invariant forall k :: 0 <= k < i ==> s[k] < 0x80
    {
      var chunk := Hex.FromBytes(Chunk(s[i..i + 8]));
      MaskFindsAscii(s[i..i + 8]);
      if chunk & HIGH_BITS != 0 {
        return Decode.RequireUtf8(s);
      }
      assert forall k :: i <= k < i + 8 ==> s[k] == s[i..i + 8][k - i];
      i := i + 8;
    }
    while i < |s|
      invariant 0 <= i <= |s|
      invariant forall k :: 0 <= k < i ==> s[k] < 0x80
    {
      if s[i] >= 0x80 {
        return Decode.RequireUtf8(s);
      }
      i := i + 1;
    }
    AsciiIsUtf8(s);
    return Ok(s);
  }
}
