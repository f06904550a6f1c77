/**
 * The console program's binary-content heuristic: a file whose first bytes contain a
 * NUL byte is taken to be binary.
 */
module ConsoleFileProvider {
  import opened Streams

  /** The size of the probe buffer. */
  const ProbeSize: nat := 128

  /** How many buffer bytes the probe inspects for a file of `fileLength` bytes. */
  function ProbeLimit(fileLength: int): (n: nat)
    ensures n <= ProbeSize
    ensures 0 <= fileLength ==> n <= fileLength
    ensures n == if 0 <= fileLength < ProbeSize then fileLength else ProbeSize
  {
    if 0 <= fileLength < ProbeSize then fileLength else ProbeSize
  }

  /** The probe buffer after one read at `position`: the bytes read, then the zeros it was created with. */
  function ProbeBuffer(data: seq<byte>, position: nat): (buffer: seq<byte>)
    ensures |buffer| == ProbeSize
    ensures forall i :: 0 <= i < ProbeSize ==>
      buffer[i] == if position + i < |data| then data[position + i] else 0
  {
    var n := ReadCount(|data|, position, ProbeSize);
    seq(ProbeSize, i requires 0 <= i < ProbeSize => if i < n then data[position + i] else 0)
  }

  /** Some inspected buffer byte is NUL. */
  predicate NulWithin(buffer: seq<byte>, limit: nat)
    requires limit <= |buffer|
  {
    exists i :: 0 <= i < limit && buffer[i] == 0
  }

  /**
   * Reads up to 128 bytes from the stream's position and reports whether one of the
   * first `fileLength` of them (all 128 for a longer file) is NUL. Only when the whole
   * buffer was inspected without finding one is the position put back; a shorter file,
   * and a binary one, leave it after the bytes read.
   */
  method IsBinary(stream: ViewStream, fileLength: int) returns (binary: bool)
    requires !stream.closed
    modifies stream
    ensures binary == NulWithin(ProbeBuffer(stream.data, old(stream.position)), ProbeLimit(fileLength))
    ensures fileLength == 0 ==> !binary
    ensures stream.position ==
      if !binary && ProbeLimit(fileLength) == ProbeSize then old(stream.position)
      else old(stream.position) + ReadCount(|stream.data|, old(stream.position), ProbeSize)
    ensures !stream.closed
  {
    var originalPosition := stream.position;
    var buffer := new byte[ProbeSize](_ => 0);
    ghost var before := buffer[..];
    var n := stream.Read(buffer);
    ghost var probe := ProbeBuffer(stream.data, originalPosition);
    ReadFillsProbe(stream.data, originalPosition, before, buffer[..], n);
    for i := 0 to buffer.Length
      invariant forall j :: 0 <= j < i ==> probe[j] != 0
      invariant 0 <= fileLength ==> i <= fileLength
    {
      if i == fileLength {
        return false;
      }
      if buffer[i] == 0 {
        return true;
      }
    }
    stream.position := originalPosition;
    return false;
  }

  /**
   * One read into a zeroed 128-byte buffer leaves exactly the probe buffer: the bytes
   * read, then the untouched zeros.
   */
  lemma ReadFillsProbe(data: seq<byte>, position: nat, before: seq<byte>, after: seq<byte>, n: nat)
    requires |before| == |after| == ProbeSize && forall i :: 0 <= i < ProbeSize ==> before[i] == 0
    requires n == ReadCount(|data|, position, ProbeSize)
    requires n > 0 ==> after[..n] == data[position..position + n]
    requires after[n..] == before[n..]
    ensures after == ProbeBuffer(data, position)
  {
    var probe := ProbeBuffer(data, position);
    forall i | 0 <= i < ProbeSize
      ensures after[i] == probe[i]
    {
      if i < n {
        assert after[..n][i] == after[i];
      } else {
        assert after[n..][i - n] == after[i] && before[n..][i - n] == before[i];
      }
    }
  }

  /**
   * Probing a stream at position 0 finds a NUL exactly when one of the file's first
   * min(128, length) bytes is NUL; an empty file is never binary.
   */
  lemma ProbeFromStart(data: seq<byte>)
    ensures NulWithin(ProbeBuffer(data, 0), ProbeLimit(|data|)) <==>
      exists i :: 0 <= i < |data| && i < ProbeSize && data[i] == 0
    ensures |data| == 0 ==> !NulWithin(ProbeBuffer(data, 0), ProbeLimit(|data|))
  {
    var buffer := ProbeBuffer(data, 0);
    if exists i :: 0 <= i < |data| && i < ProbeSize && data[i] == 0 {
      var i :| 0 <= i < |data| && i < ProbeSize && data[i] == 0;
      assert buffer[i] == 0;
    }
  }

  /** Bytes beyond the 128 the probe reads never change its verdict. */
  lemma ProbeIgnoresLaterBytes(data: seq<byte>, tail: seq<byte>, position: nat, fileLength: int)
    requires position + ProbeSize <= |data|
    ensures NulWithin(ProbeBuffer(data + tail, position), ProbeLimit(fileLength)) ==
      NulWithin(ProbeBuffer(data, position), ProbeLimit(fileLength))
  {
    var b1, b2 := ProbeBuffer(data + tail, position), ProbeBuffer(data, position);
    assert forall i :: 0 <= i < ProbeSize ==> b1[i] == b2[i];
  }
}
