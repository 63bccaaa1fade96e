/** Validity bitmaps: one bit for each row, set bit by bit in bytes or in 64-bit words. */
module Bitmap {

  // ----- Bits -----

  predicate Bit8(b: bv8, i: nat)
    requires i < 8
  {
    (b >> i as bv3) & 1 == 1
  }

  predicate Bit64(w: bv64, i: nat)
    requires i < 64
  {
    (w >> i as bv6) & 1 == 1
  }

  function Mask8(i: nat): bv8
    requires i < 8
  {
    1 << i as bv3
  }

  function Mask64(i: nat): bv64
    requires i < 64
  {
    1 << i as bv6
  }

  lemma IndexComesBack(i: nat)
    requires i < 64
    ensures (i as bv6) as int == i
  {
  }

  lemma OrSets64(w: bv64, s: bv6, t: bv6)
    ensures ((w | (1 << s)) >> t) & 1 == 1 <==> s == t || (w >> t) & 1 == 1
  {
  }

  lemma SetBit64(w: bv64, i: nat, j: nat)
    requires i < 64 && j < 64
    ensures Bit64(w | Mask64(i), j) <==> i == j || Bit64(w, j)
  {
    IndexComesBack(i);
    IndexComesBack(j);
    OrSets64(w, i as bv6, j as bv6);
  }

  lemma SmallIndexComesBack(i: nat)
    requires i < 8
    ensures (i as bv3) as int == i
  {
  }

  lemma OrSets8(b: bv8, s: bv3, t: bv3)
    ensures ((b | (1 << s)) >> t) & 1 == 1 <==> s == t || (b >> t) & 1 == 1
  {
  }

  lemma SetBit8(b: bv8, i: nat, j: nat)
    requires i < 8 && j < 8
    ensures Bit8(b | Mask8(i), j) <==> i == j || Bit8(b, j)
  {
    SmallIndexComesBack(i);
    SmallIndexComesBack(j);
    OrSets8(b, i as bv3, j as bv3);
  }

  /** Bytes with the same bits are equal. */
  lemma SameBits(a: bv8, b: bv8)
    requires forall i: nat :: i < 8 ==> (Bit8(a, i) <==> Bit8(b, i))
    ensures a == b
  {
    assert Bit8(a, 0) <==> Bit8(b, 0);
    assert Bit8(a, 1) <==> Bit8(b, 1);
    assert Bit8(a, 2) <==> Bit8(b, 2);
    assert Bit8(a, 3) <==> Bit8(b, 3);
    assert Bit8(a, 4) <==> Bit8(b, 4);
    assert Bit8(a, 5) <==> Bit8(b, 5);
    assert Bit8(a, 6) <==> Bit8(b, 6);
    assert Bit8(a, 7) <==> Bit8(b, 7);
  }

  /** Byte `k` of a word, the least significant first. */
  function Byte(w: bv64, k: nat): bv8
    requires k < 8
  {
    ((w >> (8 * k) as bv6) & 0xff) as bv8
  }

  /** `to_le_bytes`. */
  function ToBytes(w: bv64): seq<bv8> {
    seq(8, k requires 0 <= k < 8 => Byte(w, k))
  }

  lemma ShiftTwice(w: bv64, s: bv6, j: bv3)
    requires s & 7 == 0
    ensures ((((w >> s) & 0xff) as bv8) >> j) & 1 == 1 <==> (w >> (s | j as bv6)) & 1 == 1
  {
  }

  lemma IndexOfBit(k: nat, i: nat)
    requires k < 8 && i < 8
    ensures (8 * k) as bv6 & 7 == 0 && (8 * k) as bv6 | (i as bv3) as bv6 == (8 * k + i) as bv6
  {
    if
    case i == 0 =>
    case i == 1 =>
    case i == 2 =>
    case i == 3 =>
    case i == 4 =>
    case i == 5 =>
    case i == 6 =>
    case i == 7 =>
  }

  lemma BitOfByte(w: bv64, k: nat, i: nat)
    requires k < 8 && i < 8
    ensures Bit8(Byte(w, k), i) <==> Bit64(w, 8 * k + i)
  {
    IndexOfBit(k, i);
    ShiftTwice(w, (8 * k) as bv6, i as bv3);
  }

  // ----- Rows -----

  predicate RowBit(bits: seq<bv8>, row: nat)
    requires row < 8 * |bits|
  {
    Bit8(bits[row / 8], row % 8)
  }

  predicate RowBitOfWord(words: seq<bv64>, row: nat)
    requires row < 64 * |words|
  {
    Bit64(words[row / 64], row % 64)
  }

  /** The row is listed, and there is such a row. */
  ghost predicate Valid(facts: seq<nat>, rows: nat, row: nat) {
    row < rows && row in facts
  }

  /** One byte for each eight rows, rounded up, with exactly the bits of the listed rows. */
  ghost predicate IsValidity(bits: seq<bv8>, facts: seq<nat>, rows: nat) {
    && |bits| == (rows + 7) / 8
    && forall row: nat :: row < 8 * |bits| ==> (RowBit(bits, row) <==> Valid(facts, rows, row))
  }

  /** There is only one such bitmap. */
  lemma ValidityIsUnique(a: seq<bv8>, b: seq<bv8>, facts: seq<nat>, rows: nat)
    requires IsValidity(a, facts, rows) && IsValidity(b, facts, rows)
    ensures a == b
  {
    hide Bit8;
    forall k | 0 <= k < |a| ensures a[k] == b[k] {
      forall i: nat | i < 8 ensures Bit8(a[k], i) <==> Bit8(b[k], i) {
        var row := 8 * k + i;
        assert row / 8 == k && row % 8 == i;
        assert RowBit(a, row) <==> RowBit(b, row);
      }
      SameBits(a[k], b[k]);
    }
  }

  lemma SetRow(bits: seq<bv8>, row: nat, other: nat)
    requires row < 8 * |bits| && other < 8 * |bits|
    ensures RowBit(bits[row / 8 := bits[row / 8] | Mask8(row % 8)], other) <==> other == row || RowBit(bits, other)
  {
    hide Bit8, Mask8;
    if row / 8 == other / 8 {
      SetBit8(bits[row / 8], row % 8, other % 8);
    }
  }

  lemma SetRowOfWord(words: seq<bv64>, row: nat, other: nat)
    requires row < 64 * |words| && other < 64 * |words|
    ensures RowBitOfWord(words[row / 64 := words[row / 64] | Mask64(row % 64)], other)
            <==> other == row || RowBitOfWord(words, other)
  {
    hide Bit64, Mask64;
    if row / 64 == other / 64 {
      SetBit64(words[row / 64], row % 64, other % 64);
    }
  }

  lemma ZeroHasNoBits(i: nat)
    ensures i < 8 ==> !Bit8(0, i)
    ensures i < 64 ==> !Bit64(0, i)
  {
  }

  lemma ValidSnoc(facts: seq<nat>, n: nat, rows: nat, row: nat)
    requires n < |facts|
    ensures Valid(facts[..n + 1], rows, row) <==> Valid(facts[..n], rows, row) || (row == facts[n] && row < rows)
  {
    assert facts[..n + 1] == facts[..n] + [facts[n]];
  }

  /** `build_validity_bytes`. */
  method BuildValidityBytes(facts: seq<nat>, rows: nat) returns (r: seq<bv8>)
    ensures IsValidity(r, facts, rows)
  {
    hide Bit8, Mask8, RowBit, Valid;
    var bits := new bv8[(rows + 7) / 8](_ => 0);
    forall row: nat | row < 8 * bits.Length ensures RowBit(bits[..], row) <==> Valid(facts[..0], rows, row) {
      NothingSet(bits[..], facts, rows, row);
    }
    for n := 0 to |facts|
      invariant IsValidity(bits[..], facts[..n], rows)
    {
      var row := facts[n];
      ghost var before := bits[..];
      if row < rows {
        bits[row / 8] := bits[row / 8] | Mask8(row % 8);
        assert bits[..] == before[row / 8 := before[row / 8] | Mask8(row % 8)];
      }
      forall other: nat | other < 8 * bits.Length
        ensures RowBit(bits[..], other) <==> Valid(facts[..n + 1], rows, other)
      {
        ValidSnoc(facts, n, rows, other);
        if row < rows {
          SetRow(before, row, other);
        }
      }
    }
    assert facts[..|facts|] == facts;
    r := bits[..];
  }

  lemma NothingSet(bits: seq<bv8>, facts: seq<nat>, rows: nat, row: nat)
    requires row < 8 * |bits| && forall k :: 0 <= k < |bits| ==> bits[k] == 0
    ensures !RowBit(bits, row) && !Valid(facts[..0], rows, row)
  {
    ZeroHasNoBits(row % 8);
  }

  lemma NothingSetInWords(words: seq<bv64>, facts: seq<nat>, rows: nat, row: nat)
    requires row < 64 * |words| && forall k :: 0 <= k < |words| ==> words[k] == 0
    ensures !RowBitOfWord(words, row) && !Valid(facts[..0], rows, row)
  {
    ZeroHasNoBits(row % 64);
  }

  ghost predicate IsWordValidity(words: seq<bv64>, facts: seq<nat>, rows: nat) {
    && |words| == (rows + 63) / 64
    && forall row: nat :: row < 64 * |words| ==> (RowBitOfWord(words, row) <==> Valid(facts, rows, row))
  }

  /** The word loop of `build_validity_u64_chunked`. */
  method FillWords(facts: seq<nat>, rows: nat) returns (r: seq<bv64>)
    ensures IsWordValidity(r, facts, rows)
  {
    hide Bit64, Mask64, RowBitOfWord, Valid;
    var words := new bv64[(rows + 63) / 64](_ => 0);
    forall row: nat | row < 64 * words.Length ensures RowBitOfWord(words[..], row) <==> Valid(facts[..0], rows, row) {
      NothingSetInWords(words[..], facts, rows, row);
    }
    for n := 0 to |facts|
      invariant IsWordValidity(words[..], facts[..n], rows)
    {
      var row := facts[n];
      ghost var before := words[..];
      if row < rows {
        words[row / 64] := words[row / 64] | Mask64(row % 64);
        assert words[..] == before[row / 64 := before[row / 64] | Mask64(row % 64)];
      }
      forall other: nat | other < 64 * words.Length
        ensures RowBitOfWord(words[..], other) <==> Valid(facts[..n + 1], rows, other)
      {
        ValidSnoc(facts, n, rows, other);
        if row < rows {
          SetRowOfWord(before, row, other);
        }
      }
    }
    assert facts[..|facts|] == facts;
    r := words[..];
  }

  /** `out` is the bytes of the words, in order. */
  ghost predicate AreBytesOf(out: seq<bv8>, words: seq<bv64>) {
    |out| == 8 * |words| && forall k :: 0 <= k < |out| ==> out[k] == Byte(words[k / 8], k % 8)
  }

  lemma RowInBytes(out: seq<bv8>, words: seq<bv64>, row: nat)
    requires AreBytesOf(out, words) && row < 64 * |words|
    ensures RowBit(out, row) <==> RowBitOfWord(words, row)
  {
    hide Bit8, Bit64, Byte;
    var k := row / 8;
    assert k / 8 == row / 64 && 8 * (k % 8) + row % 8 == row % 64;
    BitOfByte(words[row / 64], k % 8, row % 8);
  }

  lemma AppendWord(out: seq<bv8>, words: seq<bv64>, n: nat)
    requires n < |words| && AreBytesOf(out, words[..n])
    ensures AreBytesOf(out + ToBytes(words[n]), words[..n + 1])
  {
    hide Byte;
    var more, prefix := out + ToBytes(words[n]), words[..n + 1];
    forall k | 0 <= k < |more| ensures more[k] == Byte(prefix[k / 8], k % 8) {
      if k < |out| {
        assert more[k] == out[k] && prefix[k / 8] == words[..n][k / 8];
      } else {
        assert k / 8 == n && k % 8 == k - 8 * n;
      }
    }
  }

  /** Cut to the rows, the bytes of the words are the bitmap. */
  lemma TruncatedIsValidity(out: seq<bv8>, words: seq<bv64>, facts: seq<nat>, rows: nat)
    requires AreBytesOf(out, words) && IsWordValidity(words, facts, rows)
    ensures (rows + 7) / 8 <= |out| && IsValidity(out[..(rows + 7) / 8], facts, rows)
  {
    hide Bit8, Bit64, RowBitOfWord, Valid;
    var r := out[..(rows + 7) / 8];
    forall row: nat | row < 8 * |r| ensures RowBit(r, row) <==> Valid(facts, rows, row) {
      RowInBytes(out, words, row);
      assert r[row / 8] == out[row / 8];
    }
  }

  /** `build_validity_u64_chunked`. */
  method BuildValidityU64Chunked(facts: seq<nat>, rows: nat) returns (r: seq<bv8>)
    ensures IsValidity(r, facts, rows)
  {
    hide AreBytesOf, IsValidity, IsWordValidity;
    var words := FillWords(facts, rows);
    var out: seq<bv8> := [];
    assert AreBytesOf(out, words[..0]) by {
      NoBytes(words);
    }
    for n := 0 to |words|
      invariant AreBytesOf(out, words[..n])
    {
      AppendWord(out, words, n);
      out := out + ToBytes(words[n]);
    }
    assert words[..|words|] == words;
    TruncatedIsValidity(out, words, facts, rows);
    r := out[..(rows + 7) / 8];
  }

  lemma NoBytes(words: seq<bv64>)
    ensures AreBytesOf([], words[..0])
  {
  }
}
