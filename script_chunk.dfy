/**
 * One element of a script program: either a bare opcode or a data push
 * (`ScriptChunk`), with its classification, the minimal-push rule of BIP 62,
 * its wire serialisation, and its value equality and hash.
 */
module Script {
  import opened Wrappers
  import opened JavaTypes
  import opened ScriptOpCodes
  import opened Streams
  import opened Utils
  import opened JavaArrays

  /** `Script.MAX_SCRIPT_ELEMENT_SIZE`: the largest payload a single push may carry. */
  const MAX_SCRIPT_ELEMENT_SIZE: nat := 520

  /** The unchecked exceptions the chunk operations throw. */
  datatype Exception =
    | IllegalState   // a failed `checkState`
    | NullPointer    // `data.length` read while `data` is null
    | Unimplemented  // `new RuntimeException("Unimplemented")`

  /**
   * The one opcode with which the minimal-push table accepts payload `d`:
   * OP_0 for the empty payload, OP_1..OP_16 for a single byte 1..16, the
   * direct push for other payloads shorter than OP_PUSHDATA1, and otherwise
   * the shortest length prefix that holds the length.
   */
  function MinimalPushOpcode(d: seq<JByte>): (op: Int32)
    ensures OP_0 <= op <= OP_16
    ensures op == OP_0 <==> d == []
    ensures op > OP_PUSHDATA4 ==> |d| == 1
  {
    if d == [] then OP_0
    else if |d| == 1 && 1 <= d[0] <= 16 then OP_1 - 1 + d[0]
    else if |d| < OP_PUSHDATA1 then |d|
    else if |d| <= 0xFF then OP_PUSHDATA1
    else if |d| <= 0xFFFF then OP_PUSHDATA2
    else OP_PUSHDATA4
  }

  /**
   * The header `write` puts in front of an `n`-byte payload pushed with
   * `opcode`: the opcode itself for a direct push, or the PUSHDATA marker
   * followed by the length in 1, 2 or 4 little-endian bytes. Each form checks
   * that the length fits before anything is written; only an opcode above
   * OP_PUSHDATA4 falls through to "Unimplemented".
   */
  function PushPrefix(opcode: Int32, n: nat): (r: Result<seq<Octet>, Exception>)
    ensures r == Failure(Unimplemented) <==> opcode > OP_PUSHDATA4
    ensures r.Success? ==> |r.value| >= 1 && r.value[0] == opcode
  {
    if opcode < OP_PUSHDATA1 then
      if n == opcode then Success([n]) else Failure(IllegalState)
    else if opcode == OP_PUSHDATA1 then
      if n <= 0xFF then Success([OP_PUSHDATA1] + LittleEndian(n, 1)) else Failure(IllegalState)
    else if opcode == OP_PUSHDATA2 then
      if n <= 0xFFFF then Success([OP_PUSHDATA2] + LittleEndian(n, 2)) else Failure(IllegalState)
    else if opcode == OP_PUSHDATA4 then
      if n <= MAX_SCRIPT_ELEMENT_SIZE then Success([OP_PUSHDATA4] + Uint32ToBytesLE(n)) else Failure(IllegalState)
    else
      Failure(Unimplemented)
  }

  /**
   * A chunk: `data` is `None` where the Java field is null, and
   * `startLocationInProgram` is -1 for a chunk that was not parsed.
   */
  datatype ScriptChunk = ScriptChunk(opcode: Int32, data: Option<seq<JByte>>, startLocationInProgram: Int32)
  {
    /**
     * A single byte of non-pushdata content. Every other opcode falls into
     * exactly one of the four push forms `write` dispatches on.
     */
    predicate IsOpCode()
      ensures !IsOpCode() <==>
        opcode < OP_PUSHDATA1 || opcode == OP_PUSHDATA1 || opcode == OP_PUSHDATA2 || opcode == OP_PUSHDATA4
    {
      opcode > OP_PUSHDATA4
    }

    /**
     * Pushdata content: the direct and length-prefixed pushes, and the
     * single-byte pushes OP_1NEGATE..OP_16 (OP_RESERVED, 0x50, included).
     */
    predicate IsPushData()
      ensures IsPushData() <==> opcode <= OP_PUSHDATA4 || OP_1NEGATE <= opcode <= OP_16
    {
      opcode <= OP_16
    }

    /** The parse offset; asking a chunk that was not parsed fails its `checkState`. */
    function GetStartLocationInProgram(): (r: Result<Int32, Exception>)
      ensures r.Success? <==> startLocationInProgram >= 0
      ensures r.Success? ==> r.value == startLocationInProgram
      ensures r.Failure? ==> r.error == IllegalState
    {
      if startLocationInProgram >= 0 then Success(startLocationInProgram) else Failure(IllegalState)
    }

    /**
     * Whether this push uses the smallest possible form for its payload.
     * The payload bytes are signed, so the comparison with 0x81 (129) never
     * holds and the payload {0x81} is taken as a direct one-byte push.
     */
    function IsShortestPossiblePushData(): (r: Result<bool, Exception>)
      ensures !IsPushData() ==> r == Failure(IllegalState)
      ensures IsPushData() && data.None? ==> r == Failure(NullPointer)
      ensures IsPushData() && data.Some? ==> r == Success(opcode == MinimalPushOpcode(data.value))
    {
      if !IsPushData() then Failure(IllegalState)
      else if data.None? then Failure(NullPointer)
      else
        var d := data.value;
        if |d| == 0 then Success(opcode == OP_0)
        else if |d| == 1 && 0x01 <= d[0] <= 0x10 then Success(opcode == OP_1 + d[0] - 1)
        else if |d| == 1 && d[0] == 0x81 then Success(opcode == OP_1NEGATE)
        else if |d| < OP_PUSHDATA1 then Success(opcode == |d|)
        else if |d| < 256 then Success(opcode == OP_PUSHDATA1)
        else if |d| < 65536 then Success(opcode == OP_PUSHDATA2)
        else Success(opcode == OP_PUSHDATA4)
    }

    /**
     * The bytes `write` emits, or the exception it throws. The first byte is
     * always the opcode, a payload always comes last and unchanged, and the
     * only exception that can occur is a failed `checkState`.
     */
    function Encode(): (r: Result<seq<Octet>, Exception>)
      ensures r.Failure? ==> r.error == IllegalState
      ensures r.Success? ==> |r.value| >= 1 && r.value[0] == LowByte(opcode)
      ensures r.Success? && data.Some? ==>
                |data.value| < |r.value| && r.value[|r.value| - |data.value|..] == Octets(data.value)
    {
      if IsOpCode() then
        if data.Some? then Failure(IllegalState) else Success([LowByte(opcode)])
      else if data.Some? then
        match PushPrefix(opcode, |data.value|)
        case Success(prefix) => Success(prefix + Octets(data.value))
        case Failure(e) => Failure(e)
      else
        Success([LowByte(opcode)])
    }

    /**
     * `write(OutputStream)`: appends this chunk's wire form to `sink`. Every
     * check comes before the first byte is written, so a call that throws
     * leaves the sink as it was.
     */
    method Write(sink: ByteSink) returns (outcome: Outcome<Exception>)
      modifies sink
      ensures Encode().Success? ==> outcome == Pass && sink.written == old(sink.written) + Encode().value
      ensures Encode().Failure? ==> outcome == Fail(Encode().error) && sink.written == old(sink.written)
    {
      if IsOpCode() {
        if data.Some? {
          return Fail(IllegalState);
        }
        sink.Write(opcode);
      } else if data.Some? {
        outcome := WriteDataPush(sink, data.value);
        return;
      } else {
        sink.Write(opcode);  // a small-number chunk
      }
      return Pass;
    }

    /**
     * The data branch of `write`: check the payload length against the push
     * form, then write the header the form calls for and the payload.
     */
    method WriteDataPush(sink: ByteSink, d: seq<JByte>) returns (outcome: Outcome<Exception>)
      requires !IsOpCode() && data == Some(d)
      modifies sink
      ensures PushPrefix(opcode, |d|).Success? ==>
                outcome == Pass && sink.written == old(sink.written) + PushPrefix(opcode, |d|).value + Octets(d)
      ensures PushPrefix(opcode, |d|).Failure? ==>
                outcome == Fail(PushPrefix(opcode, |d|).error) && sink.written == old(sink.written)
    {
      ghost var prefix := PushPrefix(opcode, |d|);
      if opcode < OP_PUSHDATA1 {
        if |d| != opcode {
          return Fail(IllegalState);
        }
        sink.Write(opcode);
      } else if opcode == OP_PUSHDATA1 {
        if |d| > 0xFF {
          return Fail(IllegalState);
        }
        sink.Write(OP_PUSHDATA1);
        sink.Write(|d|);
        assert prefix.value == [OP_PUSHDATA1, |d|];
      } else if opcode == OP_PUSHDATA2 {
        if |d| > 0xFFFF {
          return Fail(IllegalState);
        }
        sink.Write(OP_PUSHDATA2);
        sink.Write(|d| % 0x100);  // 0xFF & data.length
        sink.Write(|d| / 0x100);  // data.length >> 8, for a non-negative length
        assert LittleEndian(|d| / 0x100, 1) == [|d| / 0x100];
        assert prefix.value == [OP_PUSHDATA2, |d| % 0x100, |d| / 0x100];
      } else if opcode == OP_PUSHDATA4 {
        if |d| > MAX_SCRIPT_ELEMENT_SIZE {
          return Fail(IllegalState);
        }
        sink.Write(OP_PUSHDATA4);
        sink.WriteOctets(Uint32ToBytesLE(|d|));
      } else {
        return Fail(Unimplemented);
      }
      assert sink.written == old(sink.written) + prefix.value;
      sink.WriteArray(d);
      return Pass;
    }

    /** `equals`: opcode, start location and data (byte-wise, null only equal to null) must all match. */
    function Equals(other: ScriptChunk): (r: bool)
      ensures r <==> this == other
    {
      if opcode != other.opcode then false
      else if startLocationInProgram != other.startLocationInProgram then false
      else ArraysEquals(data, other.data)
    }

    /**
     * `hashCode`: the 31-multiplier fold of opcode, data hash and start
     * location in `int` arithmetic, which is the exact polynomial in the three
     * fields (and the data bytes) reduced once to 32 bits.
     */
    function HashCode(): (r: Int32)
      ensures r == Wrap(961 * opcode
                        + 31 * (if data.Some? then HashPolynomial(data.value) else 0)
                        + startLocationInProgram)
    {
      var h := ArraysHashCode(data);
      var withData := Wrap(31 * opcode + h);
      WrapMulAdd(31, 31 * opcode + h, startLocationInProgram);
      WrapMulAdd(31, if data.Some? then HashPolynomial(data.value) else 0, 961 * opcode + startLocationInProgram);
      Wrap(31 * withData + startLocationInProgram)
    }
  }

  /**
   * The three-argument constructor: a chunk holding exactly the given fields;
   * a non-negative start location can be read back.
   */
  function NewChunkAt(opcode: Int32, data: Option<seq<JByte>>, startLocationInProgram: Int32): (r: ScriptChunk)
    ensures r.opcode == opcode && r.data == data && r.startLocationInProgram == startLocationInProgram
    ensures startLocationInProgram >= 0 ==> r.GetStartLocationInProgram() == Success(startLocationInProgram)
  {
    ScriptChunk(opcode, data, startLocationInProgram)
  }

  /** The two-argument constructor: start location -1, so the chunk has no parse position. */
  function NewChunk(opcode: Int32, data: Option<seq<JByte>>): (r: ScriptChunk)
    ensures r.opcode == opcode && r.data == data && r.startLocationInProgram == -1
    ensures r.GetStartLocationInProgram() == Failure(IllegalState)
  {
    NewChunkAt(opcode, data, -1)
  }
}
