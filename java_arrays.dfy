/**
 * The two `java.util.Arrays` helpers that `ScriptChunk.equals` and
 * `ScriptChunk.hashCode` call on a nullable `byte[]` (`None` is `null`).
 */
module JavaArrays {
  import opened Wrappers
  import opened JavaTypes

  /** `Arrays.equals(byte[], byte[])`: both null, or the same length and the same byte at every index. */
  function ArraysEquals(a: Option<seq<JByte>>, b: Option<seq<JByte>>): (r: bool)
    ensures r <==> a == b
  {
    match (a, b)
    case (None, None) => true
    case (Some(x), Some(y)) =>
      var same := |x| == |y| && forall i :: 0 <= i < |x| ==> x[i] == y[i];
      assert same ==> x == y;
      same
    case _ => false
  }

  /**
   * The exact (unbounded) value `Arrays.hashCode` folds a byte array into:
   * start from 1 and, byte by byte, multiply by 31 and add the byte.
   */
  function HashPolynomial(a: seq<JByte>): (r: int)
  {
    if a == [] then 1 else 31 * HashPolynomial(a[..|a| - 1]) + a[|a| - 1]
  }

  /**
   * `Arrays.hashCode(byte[])`: starting from 1, fold `31 * result + element`
   * over the array in `int` arithmetic; null hashes to 0. The wrapped fold is
   * the exact polynomial reduced once to 32 bits.
   */
  function ArraysHashCode(a: Option<seq<JByte>>): (r: Int32)
    ensures a.None? ==> r == 0
    ensures a.Some? ==> r == Wrap(HashPolynomial(a.value))
  {
    match a
    case None => 0
    case Some(s) => HashFold(s)
  }

  function HashFold(s: seq<JByte>): (r: Int32)
    ensures r == Wrap(HashPolynomial(s))
  {
    if s == [] then 1
    else
      var prefix := s[..|s| - 1];
      WrapMulAdd(31, HashPolynomial(prefix), s[|s| - 1]);
      Wrap(31 * HashFold(prefix) + s[|s| - 1])
  }
}
