/**
  The bit reader of the SLDC decoder: a most-significant-bit-first view of
  the compressed byte buffer, with single-bit tests and big-endian reads of
  8-bit and 4-bit fields starting at any bit offset (not only at byte
  boundaries).
 */
module Bits {

  type byte = x: int | 0 <= x < 256
  type nibble = x: int | 0 <= x < 16

  function Pow2(n: nat): (r: nat)
    ensures r >= 1
  {
    if n == 0 then 1 else 2 * Pow2(n - 1)
  }

  /** The powers of two the decoder's fields use. */
  lemma {:induction false} Pow2Table()
    ensures Pow2(1) == 2 && Pow2(2) == 4 && Pow2(3) == 8 && Pow2(4) == 16 && Pow2(5) == 32 && Pow2(6) == 64
    ensures Pow2(8) == 256 && Pow2(10) == 1024
  {
  }

  /** The unsigned value of a bit string read big-endian (first bit most significant). */
  function UIntOf(bs: seq<bool>): (v: nat)
    ensures v < Pow2(|bs|)
  {
    if |bs| == 0 then 0
    else 2 * UIntOf(bs[..|bs| - 1]) + (if bs[|bs| - 1] then 1 else 0)
  }

  /** The `w`-bit big-endian representation of `v` (its low `w` bits). */
  function UIntBits(v: nat, w: nat): (bs: seq<bool>)
    ensures |bs| == w
  {
    if w == 0 then [] else UIntBits(v / 2, w - 1) + [v % 2 == 1]
  }

  /** Writing a value that fits in `w` bits and reading it back gives the value. */
  lemma {:induction false} UIntBitsRoundTrip(v: nat, w: nat)
    requires v < Pow2(w)
    ensures UIntOf(UIntBits(v, w)) == v
  {
    if w > 0 {
      UIntBitsRoundTrip(v / 2, w - 1);
      var bs := UIntBits(v, w);
      assert bs[..w - 1] == UIntBits(v / 2, w - 1);
    }
  }

  /** Reading a bit string and writing its value back at the same width gives the bits. */
  lemma {:induction false} UIntOfRoundTrip(bs: seq<bool>)
    ensures UIntBits(UIntOf(bs), |bs|) == bs
  {
    if |bs| > 0 {
      var init := bs[..|bs| - 1];
      UIntOfRoundTrip(init);
      var v := UIntOf(bs);
      assert v / 2 == UIntOf(init);
      assert bs == init + [bs[|bs| - 1]];
    }
  }

  /** A big-endian value splits at any point into a high and a low part. */
  lemma {:induction false} UIntOfAppend(a: seq<bool>, b: seq<bool>)
    ensures UIntOf(a + b) == UIntOf(a) * Pow2(|b|) + UIntOf(b)
  {
    if |b| == 0 {
      assert a + b == a;
    } else {
      var b' := b[..|b| - 1];
      var ab := a + b;
      assert ab[..|ab| - 1] == a + b';
      assert ab[|ab| - 1] == b[|b| - 1];
      UIntOfAppend(a, b');
      var x := if b[|b| - 1] then 1 else 0;
      var hi: int, p: int, lo: int := UIntOf(a), Pow2(|b'|), UIntOf(b');
      assert UIntOf(a + b') == hi * p + lo;
      assert UIntOf(ab) == 2 * UIntOf(a + b') + x;
      assert UIntOf(b) == 2 * lo + x;
      Recombine(hi, p, lo, x);
    }
  }

  /** The arithmetic step of `UIntOfAppend`: doubling distributes over the split. */
  lemma {:induction false} Recombine(hi: int, p: int, lo: int, x: int)
    ensures 2 * (hi * p + lo) + x == hi * (2 * p) + (2 * lo + x)
  {
    assert 2 * (hi * p) == hi * (2 * p);
  }

  /** A bit string reads as the largest value of its width exactly when every bit is set. */
  lemma {:induction false} AllOnes(bs: seq<bool>)
    ensures UIntOf(bs) == Pow2(|bs|) - 1 <==> forall t :: 0 <= t < |bs| ==> bs[t]
  {
    if |bs| > 0 {
      var init := bs[..|bs| - 1];
      AllOnes(init);
      if forall t :: 0 <= t < |bs| ==> bs[t] {
        assert forall t :: 0 <= t < |init| ==> init[t] by {
          forall t | 0 <= t < |init| ensures init[t] {
            assert init[t] == bs[t];
          }
        }
      }
      if UIntOf(bs) == Pow2(|bs|) - 1 {
        assert bs[|bs| - 1] && UIntOf(init) == Pow2(|init|) - 1;
        forall t | 0 <= t < |bs| ensures bs[t] {
          if t < |init| {
            assert init[t] == bs[t];
          }
        }
      }
    }
  }

  /** The eight bits of a byte, most significant first. */
  function ByteBits(b: byte): (bs: seq<bool>)
    ensures |bs| == 8
  {
    UIntBits(b, 8)
  }

  /** The four bits of a nibble, most significant first. */
  function NibbleBits(n: nibble): (bs: seq<bool>)
    ensures |bs| == 4
  {
    UIntBits(n, 4)
  }

  /** The bit view of a byte buffer: byte k occupies bits 8k .. 8k+7, most significant bit first. */
  function BitsOf(data: seq<byte>): (bits: seq<bool>)
    ensures |bits| == 8 * |data|
  {
    if |data| == 0 then [] else BitsOf(data[..|data| - 1]) + ByteBits(data[|data| - 1])
  }

  /** The unsigned `w`-bit field that starts at bit `i`, accumulated one bit at a time. */
  function Field(bits: seq<bool>, i: nat, w: nat): (v: nat)
    requires i + w <= |bits|
    ensures v < Pow2(w)
  {
    if w == 0 then 0 else 2 * Field(bits, i, w - 1) + (if bits[i + w - 1] then 1 else 0)
  }

  /** A field is the big-endian value of the bits it covers. */
  lemma {:induction false} FieldIsUIntOf(bits: seq<bool>, i: nat, w: nat)
    requires i + w <= |bits|
    ensures Field(bits, i, w) == UIntOf(bits[i..i + w])
  {
    if w > 0 {
      FieldIsUIntOf(bits, i, w - 1);
      assert bits[i..i + w][..w - 1] == bits[i..i + w - 1];
    }
  }

  /** The byte formed by bits `i .. i+7`, which need not be byte-aligned. */
  function ByteAt(bits: seq<bool>, i: nat): byte
    requires i + 8 <= |bits|
  {
    assert Pow2(8) == 256;
    Field(bits, i, 8)
  }

  /** The nibble formed by bits `i .. i+3`. */
  function NibbleAt(bits: seq<bool>, i: nat): nibble
    requires i + 4 <= |bits|
  {
    assert Pow2(4) == 16;
    Field(bits, i, 4)
  }

  /** A window of a bit string that matches `enc` matches it piecewise too. */
  lemma {:induction false} SliceWithin(bits: seq<bool>, c: nat, enc: seq<bool>, lo: nat, hi: nat)
    requires c + |enc| <= |bits| && bits[c..c + |enc|] == enc
    requires lo <= hi <= |enc|
    ensures bits[c + lo..c + hi] == enc[lo..hi]
  {
    var w := bits[c..c + |enc|];
    assert forall t :: lo <= t < hi ==> w[t] == bits[c + t];
    assert bits[c + lo..c + hi] == w[lo..hi];
  }

  /** Whether the bits `enc` lie in `bits` starting at bit `c`, checked one bit at a time. */
  predicate Laid(bits: seq<bool>, c: nat, enc: seq<bool>)
    decreases |enc|
  {
    c + |enc| <= |bits| && (|enc| == 0 || (bits[c] == enc[0] && Laid(bits, c + 1, enc[1..])))
  }

  /** Lying at `c` bit by bit is the window of `bits` at `c` being `enc`. */
  lemma {:induction false} LaidIsSlice(bits: seq<bool>, c: nat, enc: seq<bool>)
    ensures Laid(bits, c, enc) <==> c + |enc| <= |bits| && bits[c..c + |enc|] == enc
    decreases |enc|
  {
    if |enc| > 0 {
      LaidIsSlice(bits, c + 1, enc[1..]);
      if c + |enc| <= |bits| {
        var w := bits[c..c + |enc|];
        assert w == [bits[c]] + bits[c + 1..c + |enc|];
        assert enc == [enc[0]] + enc[1..];
      }
    }
  }

  /** Bits that lie at `c` in two parts: the first part at `c`, the second right after it. */
  lemma {:induction false} LaidSplit(bits: seq<bool>, c: nat, a: seq<bool>, b: seq<bool>)
    requires Laid(bits, c, a + b)
    ensures Laid(bits, c, a) && Laid(bits, c + |a|, b)
  {
    var enc := a + b;
    LaidIsSlice(bits, c, enc);
    SliceWithin(bits, c, enc, 0, |a|);
    SliceWithin(bits, c, enc, |a|, |enc|);
    assert enc[..|a|] == a && enc[|a|..] == b;
    LaidIsSlice(bits, c, a);
    LaidIsSlice(bits, c + |a|, b);
  }

  /** A field reads back the value whose bits were laid down at its position. */
  lemma {:induction false} FieldOfBits(bits: seq<bool>, i: nat, v: nat, w: nat)
    requires v < Pow2(w)
    requires i + w <= |bits| && bits[i..i + w] == UIntBits(v, w)
    ensures Field(bits, i, w) == v
  {
    UIntBitsRoundTrip(v, w);
    FieldIsUIntOf(bits, i, w);
  }

  /** A byte read is 255 exactly when all eight bits it covers are set. */
  lemma {:induction false} ByteAtAllOnes(bits: seq<bool>, i: nat)
    requires i + 8 <= |bits|
    ensures ByteAt(bits, i) == 0xFF <==> forall t :: i <= t < i + 8 ==> bits[t]
  {
    var s := bits[i..i + 8];
    FieldIsUIntOf(bits, i, 8);
    AllOnes(s);
    assert Pow2(8) == 256;
    assert forall t :: i <= t < i + 8 ==> bits[t] == s[t - i];
  }

  /** The aligned byte reads of the bit view give back the buffer. */
  lemma {:induction false} BitsOfAligned(data: seq<byte>, k: nat)
    requires k < |data|
    ensures BitsOf(data)[8 * k..8 * k + 8] == ByteBits(data[k])
    ensures ByteAt(BitsOf(data), 8 * k) == data[k]
  {
    var n := |data| - 1;
    var init := data[..n];
    assert BitsOf(data) == BitsOf(init) + ByteBits(data[n]);
    if k < n {
      BitsOfAligned(init, k);
      assert BitsOf(data)[8 * k..8 * k + 8] == BitsOf(init)[8 * k..8 * k + 8];
    } else {
      assert BitsOf(data)[8 * k..8 * k + 8] == ByteBits(data[n]);
    }
    FieldOfBits(BitsOf(data), 8 * k, data[k], 8);
  }

  /** The first bit of a bit string is set exactly when it reads at least half its range. */
  lemma {:induction false} TopBit(bs: seq<bool>)
    requires |bs| > 0
    ensures bs[0] <==> UIntOf(bs) >= Pow2(|bs| - 1)
  {
    assert bs == [bs[0]] + bs[1..];
    UIntOfAppend([bs[0]], bs[1..]);
    assert UIntOf([bs[0]]) == (if bs[0] then 1 else 0) by {
      assert [bs[0]][..0] == [];
    }
  }

  /** The most significant bit of a byte is set exactly when the byte is at least 0x80. */
  lemma {:induction false} ByteBitsTop(b: byte)
    ensures ByteBits(b)[0] <==> b >= 0x80
  {
    Pow2Table();
    UIntBitsRoundTrip(b, 8);
    TopBit(ByteBits(b));
  }
}
