/**
 * The parts of the platform's memory-mapped file and view stream that the console
 * program relies on: a read-only byte stream with a settable position.
 */
module Streams {

  newtype byte = x: int | 0 <= x < 256

  /** How many bytes a read of `count` bytes at `position` delivers from `length` bytes of data. */
  function ReadCount(length: int, position: int, count: int): (n: nat)
    requires 0 <= count
    ensures n <= count && (position < length ==> position + n <= length)
    ensures n == 0 <==> (position >= length || count == 0)
    ensures position < length ==> n == if count <= length - position then count else length - position
  {
    if position < length then (if count < length - position then count else length - position) else 0
  }

  /** A read-only view of a file's bytes, read from a current position. */
  class ViewStream {
    const data: seq<byte>
    var position: nat
    var closed: bool

    constructor (data: seq<byte>)
      ensures this.data == data && position == 0 && !closed
    {
      this.data := data;
      position := 0;
      closed := false;
    }

    /**
     * Fills the start of `buffer` with the bytes from the current position, as many as
     * remain and fit; the rest of `buffer` is left as it was, and the position advances
     * past what was read.
     */
    method Read(buffer: array<byte>) returns (n: nat)
      requires !closed
      modifies this, buffer
      ensures n == ReadCount(|data|, old(position), buffer.Length)
      ensures old(position) + n <= |data| || n == 0
      ensures n > 0 ==> buffer[..n] == data[old(position)..old(position) + n]
      ensures buffer[n..] == old(buffer[n..])
      ensures position == old(position) + n && !closed
    {
      n := ReadCount(|data|, position, buffer.Length);
      forall i | 0 <= i < n {
        buffer[i] := data[position + i];
      }
      position := position + n;
    }

    method Close()
      modifies this
      ensures closed && position == old(position)
    {
      closed := true;
    }
  }

  /** A read-only memory mapping of a whole file. */
  class MappedFile {
    const bytes: seq<byte>
    var disposed: bool

    constructor (bytes: seq<byte>)
      ensures this.bytes == bytes && !disposed
    {
      this.bytes := bytes;
      disposed := false;
    }

    /** A fresh stream over the first `length` bytes of the mapping, positioned at 0. */
    method CreateViewStream(length: nat) returns (stream: ViewStream)
      requires length <= |bytes|
      ensures fresh(stream) && stream.data == bytes[..length] && stream.position == 0 && !stream.closed
    {
      stream := new ViewStream(bytes[..length]);
    }

    method Dispose()
      modifies this
      ensures disposed
    {
      disposed := true;
    }
  }
}
