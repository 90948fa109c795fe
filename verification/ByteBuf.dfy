/** The bounded response buffer that the engine and the listener append to. */
module ByteBuf {
  import opened Bytes
  import opened Limits
  import opened Engine

  /** memcpy into an array. */
  method Copy(dst: array<byte>, at: nat, src: seq<byte>)
    requires at + |src| <= dst.Length
    modifies dst
    ensures dst[..] == old(dst[..at]) + src + old(dst[at + |src|..])
  {
    forall i | 0 <= i < |src| {
      dst[at + i] := src[i];
    }
  }

  class Buffer {
    const data: array<byte>
    var size: nat

    ghost predicate Valid()
      reads this
    {
      data.Length == BYTEBUF_MAX && size <= BYTEBUF_MAX
    }

    function Contents(): seq<byte>
      requires Valid()
      reads this, data
    {
      data[..size]
    }

    constructor ()
      ensures Valid() && Contents() == [] && fresh(data)
      ensures forall i | 0 <= i < data.Length :: data[i] == 0
    {
      data := new byte[BYTEBUF_MAX](_ => 0);
      size := 0;
    }

    /** A buffer of at most the full capacity, if the heap grants it. */
    static method Alloc(maxSize: nat, granted: bool) returns (buffer: Buffer?)
      ensures buffer == null <==> maxSize > BYTEBUF_MAX || !granted
      ensures buffer != null ==> fresh(buffer) && fresh(buffer.data) && buffer.Valid() && buffer.Contents() == []
    {
      buffer := null;
      if maxSize <= BYTEBUF_MAX && granted {
        buffer := new Buffer();
      }
    }

    method Reset()
      requires Valid()
      modifies this
      ensures Valid() && Contents() == []
    {
      size := 0;
    }

    /** A request that does not fit, or a size that is already out of bounds, changes nothing. */
    method AppendBytes(bytes: seq<byte>)
      requires data.Length == BYTEBUF_MAX
      modifies this, data
      ensures old(size) + |bytes| <= BYTEBUF_MAX ==>
                size == old(size) + |bytes| && data[..size] == old(data[..size]) + bytes
      ensures old(size) + |bytes| > BYTEBUF_MAX ==> size == old(size) && data[..] == old(data[..])
    {
      if size > BYTEBUF_MAX || |bytes| > BYTEBUF_MAX - size {
        return;
      }
      Copy(data, size, bytes);
      size := size + |bytes|;
    }

    method AppendByte(b: byte)
      requires data.Length == BYTEBUF_MAX
      modifies this, data
      ensures old(size) < BYTEBUF_MAX ==>
                size == old(size) + 1 && data[..size] == old(data[..size]) + [b]
      ensures old(size) >= BYTEBUF_MAX ==> size == old(size) && data[..] == old(data[..])
    {
      if size >= BYTEBUF_MAX {
        return;
      }
      data[size] := b;
      size := size + 1;
    }

    method GetByte(index: nat) returns (b: byte)
      requires Valid()
      ensures b == if index < |Contents()| then Contents()[index] else 0
    {
      b := if index < size then data[index] else 0;
    }

    /** The engine's appends, one by one: what precedes them is never disturbed. */
    method AppendEach(appends: seq<seq<byte>>, ghost prologue: seq<byte>, ghost body: seq<byte>)
      requires Valid() && Contents() == prologue + body
      modifies this, data
      ensures Valid() && Contents() == prologue + AppendedAll(|prologue|, body, appends)
    {
      ghost var done := body;
      for i := 0 to |appends|
        invariant Valid() && Contents() == prologue + done
        invariant AppendedAll(|prologue|, done, appends[i..]) == AppendedAll(|prologue|, body, appends)
      {
        assert appends[i..][1..] == appends[i + 1..];
        done := Appended(|prologue|, done, appends[i]);
        AppendBytes(appends[i]);
      }
    }
  }
}
