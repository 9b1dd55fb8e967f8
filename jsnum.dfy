/** The few JavaScript number semantics the driver depends on, written out.
    JavaScript numbers are doubles; the driver only ever hands integers to
    its bitwise operators, so they are modelled as unbounded `int`s here. */
module JsNum {

  type Int8 = r: int | -128 <= r < 128

  const TwoTo32: int := 0x1_0000_0000
  const TwoTo31: int := 0x8000_0000

  /** ToInt32: the signed 32-bit value a bitwise operator sees. */
  function ToInt32(v: int): (r: int)
    ensures -TwoTo31 <= r < TwoTo31
    ensures (v - r) % TwoTo32 == 0
  {
    var m := v % TwoTo32;
    if m < TwoTo31 then m else m - TwoTo32
  }

  /** `v << 4` on a JavaScript number: a 32-bit shift whose result is signed. */
  function ShiftLeft4(v: int): int
  {
    ToInt32(v * 16)
  }

  /** The four-bit pattern of 0 <= n < 16. This is `n as bv8`, written as a
      table so that the solver works with sixteen constants instead of an
      integer-to-bit-vector conversion, which makes every proof about `Lo8`
      much more expensive. */
  function NibbleBits(n: int): (b: bv8)
    requires 0 <= n < 16
    ensures b <= 0x0F
  {
    if n < 8 then
      if n < 4 then
        if n == 0 then 0x0 else if n == 1 then 0x1 else if n == 2 then 0x2 else 0x3
      else
        if n == 4 then 0x4 else if n == 5 then 0x5 else if n == 6 then 0x6 else 0x7
    else
      if n < 12 then
        if n == 8 then 0x8 else if n == 9 then 0x9 else if n == 10 then 0xA else 0xB
      else
        if n == 12 then 0xC else if n == 13 then 0xD else if n == 14 then 0xE else 0xF
  }

  /** The low eight bits of the 32-bit two's complement of `v`: everything a
      mask such as `& 0xF0` can see. Its high nibble is bits 7..4 of `v`, its
      low nibble bits 3..0 (Dafny's `%` is Euclidean, which is exactly two's
      complement for negative `v`). */
  function Lo8(v: int): (b: bv8)
    ensures b >> 4 == NibbleBits(v % 256 / 16)
    ensures b & 0x0F == NibbleBits(v % 16)
  {
    var hi, lo := NibbleBits(v % 256 / 16), NibbleBits(v % 16);
    assert ((hi << 4) | lo) >> 4 == hi && ((hi << 4) | lo) & 0x0F == lo;
    (hi << 4) | lo
  }

  /** JavaScript `%`: the remainder of a division truncated toward zero, so
      it takes the sign of the dividend (Dafny's `%` never goes negative). */
  function JsRem(a: int, b: int): (r: int)
    requires b > 0
    ensures -b < r < b
    ensures a >= 0 ==> r == a % b
    ensures a < 0 ==> r == -JsRem(-a, b)
    decreases if a < 0 then 1 else 0
  {
    if a < 0 then -((-a) % b) else a % b
  }

  /** Bits 3..0 of `v` are bits 3..0 of its low byte. */
  lemma LowNibbleOfByte(v: int)
    ensures v % 256 % 16 == v % 16
  {
    var q, m := v / 256, v % 256;
    var h, l := m / 16, m % 16;
    assert v == 256 * q + m;
    assert m == 16 * h + l && 0 <= l < 16;
    assert v == 16 * (16 * q + h) + l;
  }

  /** Shifting left by four keeps, in the low byte, just the low nibble of
      `v` (the 32-bit wrap only touches higher bits). */
  lemma ShiftLeft4Mod256(v: int)
    ensures ShiftLeft4(v) % 256 == 16 * (v % 16)
  {
    var q, r := v / 16, v % 16;
    var d, m := v * 16 / TwoTo32, v * 16 % TwoTo32;
    assert v * 16 == TwoTo32 * d + m;
    assert m == 256 * (q - 0x100_0000 * d) + 16 * r;
    assert m % 256 == 16 * r;
    var w := ToInt32(v * 16);
    assert w == m || w == 256 * (q - 0x100_0000 * d - 0x100_0000) + 16 * r;
  }

  /** The low byte of `v << 4` is the low byte of `v` shifted by four: the
      low nibble of `v` moved into the high half, zeros below. */
  lemma ShiftLeft4LowByte(v: int)
    ensures Lo8(ShiftLeft4(v)) == Lo8(v) << 4
  {
    var m := ShiftLeft4(v) % 256;
    ShiftLeft4Mod256(v);
    assert m / 16 == v % 16 && m % 16 == 0;
    assert ShiftLeft4(v) % 16 == 0 by {
      LowNibbleOfByte(ShiftLeft4(v));
    }
    var a, b := Lo8(ShiftLeft4(v)), Lo8(v);
    assert a >> 4 == b & 0x0F && a & 0x0F == 0;
  }

  /** Only the residue modulo 256 reaches the low byte. */
  lemma Lo8Mod(v: int)
    ensures Lo8(v) == Lo8(v % 256)
  {
    var w := v % 256;
    assert w % 256 == w;
    LowNibbleOfByte(v);
    var a, b := Lo8(v), Lo8(w);
    assert a >> 4 == b >> 4 && a & 0x0F == b & 0x0F;
  }
}
