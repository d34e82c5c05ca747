/**
 * Java's primitive integer types, written out over Dafny's unbounded `int`:
 * 32-bit `int` with wrap-around, the signed `byte`, and the unsigned octet
 * that an `OutputStream` actually emits.
 */
module JavaTypes {

  const TWO_POW_32: int := 0x1_0000_0000

  /** Java `int`. */
  type Int32 = x: int | -0x8000_0000 <= x < 0x8000_0000

  /** Java `byte`: signed, two's complement. */
  type JByte = x: int | -0x80 <= x < 0x80

  /** One byte as it appears on the wire. */
  type Octet = x: int | 0 <= x < 0x100

  /** The value Java's `int` arithmetic keeps of an exact result: its low 32 bits read as two's complement. */
  function Wrap(x: int): (r: Int32)
    ensures (x - r) % TWO_POW_32 == 0
  {
    var m := x % TWO_POW_32;
    if m < 0x8000_0000 then m else m - TWO_POW_32
  }

  /** Wrapping is insensitive to adding multiples of 2^32. */
  lemma WrapCongruent(x: int, y: int)
    requires (x - y) % TWO_POW_32 == 0
    ensures Wrap(x) == Wrap(y)
  {
  }

  /**
   * Wrapping an intermediate result of `a * x + y` does not change the wrapped
   * end result: Java's overflow does not depend on when it happens.
   */
  lemma WrapMulAdd(a: int, x: int, y: int)
    ensures Wrap(a * Wrap(x) + y) == Wrap(a * x + y)
  {
    var w := Wrap(x);
    var k := (x - w) / TWO_POW_32;
    assert x - w == k * TWO_POW_32;
    assert (a * x + y) - (a * w + y) == (a * k) * TWO_POW_32;
    WrapCongruent(a * x + y, a * w + y);
  }

  /** `OutputStream.write(int)`: only the 8 low-order bits of the argument are written. */
  function LowByte(x: int): (r: Octet)
  {
    x % 0x100
  }

  /** `b & 0xFF`: the octet a signed Java byte is stored as. */
  function Unsigned(b: JByte): (r: Octet)
    ensures b >= 0 ==> r == b
    ensures b < 0 ==> r == b + 0x100
  {
    LowByte(b)
  }

  /** A Java `byte[]` as the octets it is written as. */
  function Octets(d: seq<JByte>): (r: seq<Octet>)
    ensures |r| == |d|
  {
    seq(|d|, i requires 0 <= i < |d| => Unsigned(d[i]))
  }
}
