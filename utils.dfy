/** Little-endian length prefixes (`Utils.uint32ToByteStreamLE` and the two-byte form `ScriptChunk.write` spells out). */
module Utils {
  import opened JavaTypes

  function Pow256(width: nat): (r: nat)
    ensures r >= 1
  {
    if width == 0 then 1 else 0x100 * Pow256(width - 1)
  }

  /** The `width` low-order bytes of `n`, least significant first. */
  function LittleEndian(n: nat, width: nat): (r: seq<Octet>)
    ensures |r| == width
  {
    if width == 0 then [] else [n % 0x100] + LittleEndian(n / 0x100, width - 1)
  }

  /** The number a little-endian byte sequence denotes. */
  function FromLittleEndian(s: seq<Octet>): (r: nat)
  {
    if s == [] then 0 else s[0] + 0x100 * FromLittleEndian(s[1..])
  }

  /** Reading back `width` little-endian bytes recovers any number that fits in them. */
  lemma {:induction false} LittleEndianRoundTrip(n: nat, width: nat)
    requires n < Pow256(width)
    ensures FromLittleEndian(LittleEndian(n, width)) == n
  {
    if width > 0 {
      var s := LittleEndian(n, width);
      assert s[0] == n % 0x100;
      assert s[1..] == LittleEndian(n / 0x100, width - 1);
      assert n / 0x100 < Pow256(width - 1);
      LittleEndianRoundTrip(n / 0x100, width - 1);
    }
  }

  /**
   * `Utils.uint32ToByteStreamLE(val, stream)`: the four bytes `val`, `val >> 8`,
   * `val >> 16`, `val >> 24`, each masked with 0xFF.
   */
  function Uint32ToBytesLE(n: nat): (r: seq<Octet>)
    ensures |r| == 4
    ensures n < TWO_POW_32 ==> FromLittleEndian(r) == n
  {
    LittleEndianRoundTrip(n % TWO_POW_32, 4);
    LittleEndian(n, 4)
  }
}
