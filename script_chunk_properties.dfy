/**
 * What the chunk codec guarantees: how its opcodes are classified, the shape
 * and failure cases of the wire form (with a reader that inverts it), the
 * minimal-push table and how it relates to both the encoding and BIP 62, and
 * the consistency of equality and hashing.
 */
module ScriptChunkProperties {
  import opened Wrappers
  import opened JavaTypes
  import opened ScriptOpCodes
  import opened Utils
  import opened Script

  // ---------------------------------------------------------------------
  // Classification

  /**
   * Every opcode is an opcode chunk or a pushdata chunk; the two overlap
   * exactly on OP_1NEGATE..OP_16, so neither is the other's complement.
   */
  lemma Classification(c: ScriptChunk)
    ensures c.IsOpCode() || c.IsPushData()
    ensures c.IsOpCode() && c.IsPushData() <==> OP_1NEGATE <= c.opcode <= OP_16
  {
  }

  // ---------------------------------------------------------------------
  // Wire form

  /** The number of length bytes that follow a push opcode. */
  function LengthPrefixWidth(opcode: int): (r: nat)
  {
    if opcode < OP_PUSHDATA1 then 0
    else if opcode == OP_PUSHDATA1 then 1
    else if opcode == OP_PUSHDATA2 then 2
    else 4
  }

  /**
   * Every header `write` can emit is the opcode followed by the length in
   * `LengthPrefixWidth(opcode)` little-endian bytes, and a length written in
   * a prefix fits its width.
   */
  lemma PushPrefixForm(opcode: Int32, n: nat)
    requires PushPrefix(opcode, n).Success?
    ensures PushPrefix(opcode, n).value == [opcode] + LittleEndian(n, LengthPrefixWidth(opcode))
    ensures opcode < OP_PUSHDATA1 ==> n == opcode
    ensures n < Pow256(LengthPrefixWidth(opcode)) || opcode < OP_PUSHDATA1
  {
  }

  /**
   * The six shapes of a written chunk (n is the payload length): a bare
   * opcode byte; a direct push `[n] ++ data`; `[0x4c, n] ++ data`;
   * `[0x4d, n & 0xFF, n >> 8] ++ data`; `[0x4e] ++ LE32(n) ++ data`.
   */
  lemma EncodeShape(c: ScriptChunk)
    requires c.Encode().Success?
    ensures c.IsOpCode() || c.data.None? ==> c.Encode().value == [LowByte(c.opcode)]
    ensures c.data.Some? ==>
      var out, d, n := c.Encode().value, c.data.value, |c.data.value|;
      && !c.IsOpCode()
      && |out| == 1 + LengthPrefixWidth(c.opcode) + n
      && (c.opcode < OP_PUSHDATA1 ==> c.opcode == n && out == [n] + Octets(d))
      && (c.opcode == OP_PUSHDATA1 ==> n <= 0xFF && out == [OP_PUSHDATA1, n] + Octets(d))
      && (c.opcode == OP_PUSHDATA2 ==> n <= 0xFFFF && out == [OP_PUSHDATA2, n % 0x100, n / 0x100] + Octets(d))
      && (c.opcode == OP_PUSHDATA4 ==> n <= MAX_SCRIPT_ELEMENT_SIZE && out == [OP_PUSHDATA4] + Uint32ToBytesLE(n) + Octets(d))
  {
    if c.data.Some? {
      var d, n := c.data.value, |c.data.value|;
      var prefix := PushPrefix(c.opcode, n).value;
      PushPrefixForm(c.opcode, n);
      assert c.Encode().value == prefix + Octets(d);
      if c.opcode == OP_PUSHDATA1 {
        assert prefix == [OP_PUSHDATA1, n];
      } else if c.opcode == OP_PUSHDATA2 {
        assert LittleEndian(n / 0x100, 1) == [n / 0x100];
        assert prefix == [OP_PUSHDATA2, n % 0x100, n / 0x100];
      }
    }
  }


  /**
   * `write` throws exactly when an opcode chunk carries data, a direct push's
   * length differs from its opcode, or a length is too large for its prefix
   * (0xFF, 0xFFFF, MAX_SCRIPT_ELEMENT_SIZE). A null-data chunk below the
   * opcode zone is always written.
   */
  lemma EncodeFailure(c: ScriptChunk)
    ensures c.Encode().Failure? <==>
      c.data.Some? &&
      var n := |c.data.value|;
      || c.IsOpCode()
      || (c.opcode < OP_PUSHDATA1 && n != c.opcode)
      || (c.opcode == OP_PUSHDATA1 && n > 0xFF)
      || (c.opcode == OP_PUSHDATA2 && n > 0xFFFF)
      || (c.opcode == OP_PUSHDATA4 && n > MAX_SCRIPT_ELEMENT_SIZE)
  {
  }

  /** A chunk read back from the wire: its opcode byte and, for a push, its payload. */
  datatype ParsedChunk = ParsedChunk(opcode: Octet, payload: Option<seq<Octet>>)

  /**
   * Reads one chunk from the front of `bytes`: an opcode above OP_PUSHDATA4
   * stands alone; any other opcode is followed by its length prefix (none for
   * a direct push) and that many payload bytes. Also returns how many bytes
   * were consumed; `None` when the input ends early.
   */
  function ParseChunk(bytes: seq<Octet>): (r: Option<(ParsedChunk, nat)>)
    ensures r.Some? ==> 1 <= r.value.1 <= |bytes|
  {
    if bytes == [] then None
    else if bytes[0] > OP_PUSHDATA4 then Some((ParsedChunk(bytes[0], None), 1))
    else
      var w := LengthPrefixWidth(bytes[0]);
      if |bytes| < 1 + w then None
      else
        var n := if w == 0 then bytes[0] else FromLittleEndian(bytes[1..1 + w]);
        if |bytes| < 1 + w + n then None
        else Some((ParsedChunk(bytes[0], Some(bytes[1 + w..1 + w + n])), 1 + w + n))
  }

  /** A nullable Java `byte[]` as the octets written for it. */
  function WireData(data: Option<seq<JByte>>): (r: Option<seq<Octet>>)
  {
    match data
    case None => None
    case Some(d) => Some(Octets(d))
  }

  /**
   * Reading back what `write` emitted, from a stream that continues with
   * `rest`, recovers the opcode and the payload, decodes the length prefix
   * to the payload length, and consumes exactly the written bytes. This holds
   * for every push with data and every opcode chunk whose opcode fits a byte.
   */
  lemma {:induction false} EncodeParseRoundTrip(c: ScriptChunk, rest: seq<Octet>)
    requires c.Encode().Success?
    requires c.data.Some? || OP_PUSHDATA4 < c.opcode <= 0xFF
    ensures 0 <= c.opcode <= 0xFF
    ensures ParseChunk(c.Encode().value + rest)
         == Some((ParsedChunk(c.opcode, WireData(c.data)), |c.Encode().value|))
  {
    if c.data.Some? {
      var d, n := c.data.value, |c.data.value|;
      var w := LengthPrefixWidth(c.opcode);
      var header := LittleEndian(n, w);
      PushPrefixForm(c.opcode, n);
      var bytes := c.Encode().value + rest;
      assert bytes == [c.opcode] + header + Octets(d) + rest;
      if w > 0 {
        assert bytes[1..1 + w] == header;
        LittleEndianRoundTrip(n, w);
      }
      assert bytes[1 + w..1 + w + n] == Octets(d);
    }
  }


  // ---------------------------------------------------------------------
  // Minimal pushes

  /**
   * For every payload exactly one opcode passes the minimal-push check, and
   * that opcode is a pushdata opcode, so the check can be asked of it.
   */
  lemma ShortestPushIsUnique(d: seq<JByte>)
    ensures ScriptChunk(MinimalPushOpcode(d), Some(d), -1).IsPushData()
    ensures forall op: Int32, loc: Int32 ::
      ScriptChunk(op, Some(d), loc).IsShortestPossiblePushData() == Success(true) <==> op == MinimalPushOpcode(d)
  {
  }

  /**
   * The check accepts a push exactly when its encoding is the shortest one
   * `write` can produce for that payload: among all opcodes that write a
   * payload of at most 0xFFFF bytes (other than a single byte 1..16, which
   * belongs to a number opcode without data), the minimal opcode succeeds
   * and writes the fewest bytes.
   */
  lemma MinimalPushIsShortestEncoding(d: seq<JByte>, op: Int32, loc: Int32)
    requires |d| <= 0xFFFF
    requires !(|d| == 1 && 1 <= d[0] <= 16)
    requires ScriptChunk(op, Some(d), loc).Encode().Success?
    ensures var best := ScriptChunk(MinimalPushOpcode(d), Some(d), loc);
            var mine := ScriptChunk(op, Some(d), loc);
            && best.Encode().Success?
            && |best.Encode().value| <= |mine.Encode().value|
            && mine.IsShortestPossiblePushData() == Success(|mine.Encode().value| == |best.Encode().value|)
  {
  }

  /**
   * The OP_PUSHDATA4 row of the table can never be used: it is demanded only
   * for payloads longer than 0xFFFF bytes, and `write` refuses those under
   * OP_PUSHDATA4 because they exceed MAX_SCRIPT_ELEMENT_SIZE.
   */
  lemma Pushdata4NeverWritten(d: seq<JByte>, loc: Int32)
    requires |d| > 0xFFFF
    ensures MinimalPushOpcode(d) == OP_PUSHDATA4
    ensures ScriptChunk(OP_PUSHDATA4, Some(d), loc).IsShortestPossiblePushData() == Success(true)
    ensures ScriptChunk(OP_PUSHDATA4, Some(d), loc).Encode() == Failure(IllegalState)
  {
  }

  /**
   * A single byte 1..16 is minimal only under its number opcode OP_1..OP_16,
   * which `write` refuses to emit with data attached: written as the bare
   * number opcode it takes one byte, where the direct push takes two.
   */
  lemma SmallNumberPush(b: JByte, loc: Int32)
    requires 1 <= b <= 16
    ensures ScriptChunk(OP_1 - 1 + b, Some([b]), loc).IsShortestPossiblePushData() == Success(true)
    ensures ScriptChunk(OP_1 - 1 + b, Some([b]), loc).Encode() == Failure(IllegalState)
    ensures ScriptChunk(OP_1 - 1 + b, None, loc).Encode() == Success([OP_1 - 1 + b])
    ensures ScriptChunk(1, Some([b]), loc).IsShortestPossiblePushData() == Success(false)
    ensures ScriptChunk(1, Some([b]), loc).Encode().Success?
    ensures ScriptChunk(1, Some([b]), loc).Encode().value == [1, b]
  {
  }

  /**
   * The minimal-push rule of BIP 62 ("Push operations"), on the unsigned
   * payload bytes: the empty push is OP_0, a single byte 1..16 is OP_1..OP_16,
   * the single byte 0x81 is OP_1NEGATE, up to 75 bytes the direct push of that
   * length, up to 255 bytes OP_PUSHDATA1, and up to 520 bytes OP_PUSHDATA2.
   * A payload over MAX_SCRIPT_ELEMENT_SIZE has no permitted push at all
   * (`None`); in particular OP_PUSHDATA4 is never the answer.
   */
  function Bip62MinimalOpcode(p: seq<Octet>): (r: Option<int>)
    ensures r.None? <==> |p| > MAX_SCRIPT_ELEMENT_SIZE
    ensures r != Some(OP_PUSHDATA4)
  {
    if |p| > MAX_SCRIPT_ELEMENT_SIZE then None
    else if p == [] then Some(OP_0)
    else if |p| == 1 && 1 <= p[0] <= 16 then Some(OP_1 - 1 + p[0])
    else if |p| == 1 && p[0] == 0x81 then Some(OP_1NEGATE)
    else if |p| <= 75 then Some(|p|)
    else if |p| <= 255 then Some(OP_PUSHDATA1)
    else Some(OP_PUSHDATA2)
  }

  /**
   * Up to MAX_SCRIPT_ELEMENT_SIZE bytes the check agrees with BIP 62 on every
   * payload except the single byte 0x81; above it BIP 62 permits no push,
   * which is where `OversizedPushDivergence` takes over.
   */
  lemma Bip62Agreement(d: seq<JByte>)
    ensures |d| <= MAX_SCRIPT_ELEMENT_SIZE ==>
      (Some(MinimalPushOpcode(d)) != Bip62MinimalOpcode(Octets(d)) <==> d == [-127])
    ensures |d| > MAX_SCRIPT_ELEMENT_SIZE ==> Bip62MinimalOpcode(Octets(d)).None?
  {
  }

  /**
   * Above MAX_SCRIPT_ELEMENT_SIZE bytes the code still names a minimal
   * opcode, OP_PUSHDATA2 up to 65535 bytes and OP_PUSHDATA4 beyond, and
   * `write` emits such a chunk in PUSHDATA2 form, where BIP 62 permits no
   * push of that payload.
   */
  lemma OversizedPushDivergence(d: seq<JByte>, loc: Int32)
    requires |d| > MAX_SCRIPT_ELEMENT_SIZE
    ensures Bip62MinimalOpcode(Octets(d)).None?
    ensures MinimalPushOpcode(d) == if |d| <= 0xFFFF then OP_PUSHDATA2 else OP_PUSHDATA4
    ensures ScriptChunk(MinimalPushOpcode(d), Some(d), loc).IsShortestPossiblePushData() == Success(true)
    ensures |d| <= 0xFFFF ==> ScriptChunk(OP_PUSHDATA2, Some(d), loc).Encode().Success?
  {
  }

  /**
   * The single byte 0x81 (the Java byte -127) is accepted only as a one-byte
   * direct push, writing two bytes, while BIP 62 demands OP_1NEGATE, which is
   * one byte written without data.
   */
  lemma NegativeOneDivergence(loc: Int32)
    ensures Octets([-127]) == [0x81]
    ensures Bip62MinimalOpcode([0x81]) == Some(OP_1NEGATE)
    ensures ScriptChunk(OP_1NEGATE, Some([-127]), loc).IsShortestPossiblePushData() == Success(false)
    ensures ScriptChunk(1, Some([-127]), loc).IsShortestPossiblePushData() == Success(true)
    ensures ScriptChunk(1, Some([-127]), loc).Encode().Success?
    ensures ScriptChunk(1, Some([-127]), loc).Encode().value == [1, 0x81]
    ensures ScriptChunk(OP_1NEGATE, None, loc).Encode() == Success([OP_1NEGATE])
  {
  }

  // ---------------------------------------------------------------------
  // Equality and hashing

  /** `equals` is reflexive, symmetric and transitive. */
  lemma EqualsIsEquivalence(a: ScriptChunk, b: ScriptChunk, c: ScriptChunk)
    ensures a.Equals(a)
    ensures a.Equals(b) <==> b.Equals(a)
    ensures a.Equals(b) && b.Equals(c) ==> a.Equals(c)
  {
  }

  /** Equal chunks have equal hash codes. */
  lemma EqualChunksHashEqual(a: ScriptChunk, b: ScriptChunk)
    requires a.Equals(b)
    ensures a.HashCode() == b.HashCode()
  {
  }

  /**
   * A chunk built without a parse position is never equal to the same
   * opcode and data built at a position in a program.
   */
  lemma UnplacedChunkDiffersFromPlaced(opcode: Int32, data: Option<seq<JByte>>, loc: Int32)
    requires loc >= 0
    ensures !NewChunk(opcode, data).Equals(NewChunkAt(opcode, data, loc))
    ensures NewChunk(opcode, data).Equals(NewChunk(opcode, data))
  {
  }

  /** Two chunks that differ only in their parse position are not equal. */
  lemma StartLocationDistinguishes(a: ScriptChunk, b: ScriptChunk)
    requires a.opcode == b.opcode && a.data == b.data
    requires a.startLocationInProgram != b.startLocationInProgram
    ensures !a.Equals(b)
  {
  }
}
