/** The `java.io.OutputStream` that a chunk is serialised into, as the byte sequence written so far. */
module Streams {
  import opened JavaTypes

  class ByteSink {
    /** Every byte written to the stream, oldest first. */
    var written: seq<Octet>

    constructor ()
      ensures written == []
    {
      written := [];
    }

    /** `OutputStream.write(int b)`: writes the 8 low-order bits of `b`. */
    method Write(b: int)
      modifies this
      ensures written == old(written) + [LowByte(b)]
    {
      written := written + [LowByte(b)];
    }

    /** `OutputStream.write(byte[] data)`: writes every byte of `data`, in order. */
    method WriteArray(data: seq<JByte>)
      modifies this
      ensures written == old(written) + Octets(data)
    {
      written := written + Octets(data);
    }

    /** Appends bytes already in wire form (what a helper writing to the stream produces). */
    method WriteOctets(bytes: seq<Octet>)
      modifies this
      ensures written == old(written) + bytes
    {
      written := written + bytes;
    }
  }
}
