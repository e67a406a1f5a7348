/** A byte stream read and written in pieces.  `pending` holds every byte the peer will send
    before it closes its end; a read blocks until at least one is there.  How many
    bytes one read returns is left open, so whatever is proved about a caller of
    Read holds for every way of cutting the stream into pieces. */
module Pipe {
  import opened BigEndian

  class BytePipe {
    var pending: seq<byte>

    constructor (bytes: seq<byte>)
      ensures pending == bytes
    {
      pending := bytes;
    }

    /** read(2), g_socket_receive: between 1 and `want` bytes; none only at end of file. */
    method Read(want: nat) returns (chunk: seq<byte>)
      requires 0 < want
      modifies this
      ensures chunk + pending == old(pending)
      ensures |chunk| <= want
      ensures chunk == [] <==> old(pending) == []
    {
      if pending == [] {
        return [];
      }
      var k :| 1 <= k <= want && k <= |pending|;
      chunk := pending[..k];
      pending := pending[k..];
    }

    /** write(2): any first part of the data, none of it if the write fails. */
    method Write(data: seq<byte>) returns (whole: bool)
      modifies this
      ensures old(pending) <= pending <= old(pending) + data
      ensures whole <==> pending == old(pending) + data
    {
      var n :| 0 <= n <= |data|;
      assert pending + data[..n] == (pending + data)[..|pending| + n];
      pending, whole := pending + data[..n], n == |data|;
    }
  }
}
