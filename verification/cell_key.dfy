/**
 * The spatial grid's cell key: two Java `int` cell coordinates packed into one
 * Java `long` as `((long) cellX << 32) | (cellY & 0xffffffffL)`.
 *
 * Java integers are written out explicitly here: a value is an `int` when it
 * fits in 32 signed bits, a `long` when it fits in 64, and both conversions
 * between unsigned bit patterns and signed values are two's complement.
 */
module CellKey {

  const TWO31: int := 0x8000_0000
  const TWO32: int := 0x1_0000_0000
  const TWO63: int := 0x8000_0000_0000_0000
  const TWO64: int := 0x1_0000_0000_0000_0000

  predicate IsInt32(x: int) {
    -TWO31 <= x < TWO31
  }

  predicate IsInt64(x: int) {
    -TWO63 <= x < TWO63
  }

  /** `x & 0xffffffffL` of a sign-extended `int`: its low 32 bits, unsigned. */
  function Low32(x: int): (u: int)
    ensures 0 <= u < TWO32
  {
    x % TWO32
  }

  /** A 32-bit pattern read as a Java `int`. */
  function AsInt(u: int): (x: int)
    requires 0 <= u < TWO32
    ensures IsInt32(x)
    ensures Low32(x) == u
  {
    if u < TWO31 then u else u - TWO32
  }

  /** A 64-bit pattern read as a Java `long`. */
  function AsLong(u: int): (x: int)
    requires 0 <= u < TWO64
    ensures IsInt64(x)
    ensures x % TWO64 == u
  {
    if u < TWO63 then u else u - TWO64
  }

  /**
   * The packed key. The shift by 32 leaves the low 32 bits of `cx` in the high
   * word (the bits moved past bit 63 are lost), the mask leaves the low 32 bits
   * of `cy` in the low word, and since the two words share no bit the `|`
   * adds them.
   */
  function PackCell(cx: int, cy: int): (k: int)
    requires IsInt32(cx) && IsInt32(cy)
    ensures IsInt64(k)
  {
    AsLong(Low32(cx) * TWO32 + Low32(cy))
  }

  /** The high word of a key, read back as an `int`. */
  function CellX(k: int): (cx: int)
    requires IsInt64(k)
    ensures IsInt32(cx)
  {
    AsInt((k % TWO64) / TWO32)
  }

  /** The low word of a key, read back as an `int`. */
  function CellY(k: int): (cy: int)
    requires IsInt64(k)
    ensures IsInt32(cy)
  {
    AsInt(k % TWO32)
  }

  lemma AsIntLow32(x: int)
    requires IsInt32(x)
    ensures AsInt(Low32(x)) == x
  {
  }

  /** Both cell coordinates are recovered from their key. */
  lemma UnpackPack(cx: int, cy: int)
    requires IsInt32(cx) && IsInt32(cy)
    ensures CellX(PackCell(cx, cy)) == cx
    ensures CellY(PackCell(cx, cy)) == cy
  {
    var hi, lo := Low32(cx), Low32(cy);
    var u := hi * TWO32 + lo;
    assert 0 <= u < TWO64;
    var k := PackCell(cx, cy);
    assert k % TWO64 == u;
    assert u / TWO32 == hi;
    AsIntLow32(cx);
    assert k % TWO32 == lo by {
      assert k == u || k == u - TWO64;
      assert TWO64 == TWO32 * TWO32;
    }
    AsIntLow32(cy);
  }

  /** Packing is injective on pairs of Java ints: distinct cells never share a bucket. */
  lemma PackInjective(a: int, b: int, c: int, d: int)
    requires IsInt32(a) && IsInt32(b) && IsInt32(c) && IsInt32(d)
    ensures PackCell(a, b) == PackCell(c, d) <==> a == c && b == d
  {
    if PackCell(a, b) == PackCell(c, d) {
      UnpackPack(a, b);
      UnpackPack(c, d);
    }
  }

  /** Every `long` is the key of exactly the cell its two words name. */
  lemma PackUnpack(k: int)
    requires IsInt64(k)
    ensures PackCell(CellX(k), CellY(k)) == k
  {
    var u := k % TWO64;
    var hi, lo := u / TWO32, u % TWO32;
    assert u == hi * TWO32 + lo;
    assert 0 <= hi < TWO32;
    assert Low32(CellX(k)) == hi;
    assert k % TWO32 == lo by {
      assert TWO64 == TWO32 * TWO32;
    }
    assert Low32(CellY(k)) == lo;
  }

  /**
   * The same formula on bit patterns: `hi` and `lo` are the two coordinates'
   * 32-bit patterns. Java widens both with sign extension first, but the shift
   * pushes the widened bits of `cellX` past bit 63 and the mask clears those of
   * `cellY`, so only the two 32-bit patterns reach the key.
   */
  function PackBits(hi: bv32, lo: bv32): (k: bv64)
    ensures k >> 32 == hi as bv64
    ensures k & 0xffff_ffff == lo as bv64
  {
    var high := (hi as bv64) << 32;
    var low := lo as bv64;
    assert low < 0x1_0000_0000;
    assert high & 0xffff_ffff == 0;
    assert low >> 32 == 0;
    high | low
  }

  /** On bits, the shift-or-mask formula is the arithmetic `hi * 2^32 + lo` that `PackCell` uses. */
  lemma PackBitsIsArithmetic(hi: bv32, lo: bv32)
    ensures PackBits(hi, lo) == (hi as bv64) * 0x1_0000_0000 + (lo as bv64)
  {
  }
}
