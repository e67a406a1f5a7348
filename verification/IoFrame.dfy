/** The hyperstart stream frame (shim/shim.h) and the shim's reader for it. */
module IoFrame {
  import opened BigEndian
  import opened Pipe

  const STREAM_HEADER_SIZE := 12
  const STREAM_HEADER_LENGTH_OFFSET := 8
  const HYPERSTART_MAX_RECV_BYTES := 10240
  const BUFSIZ := 8192

  /** One stream message: eight bytes of sequence number, four of total length,
      then the payload. */
  datatype Frame = Frame(stream: uint64, payload: seq<byte>)

  predicate WellSized(f: Frame) {
    STREAM_HEADER_SIZE + |f.payload| <= HYPERSTART_MAX_RECV_BYTES
  }

  predicate AllWellSized(fs: seq<Frame>) {
    forall i :: 0 <= i < |fs| ==> WellSized(fs[i])
  }

  /** The low 32 bits of the length. */
  function LengthField(f: Frame): (s: seq<byte>)
    ensures |s| == 4
    ensures WellSized(f) ==> Get32(s) == STREAM_HEADER_SIZE + |f.payload|
  {
    var len := STREAM_HEADER_SIZE + |f.payload|;
    Put32(if len < TWO_TO_THE_32 then len else len % TWO_TO_THE_32)
  }

  function Encode(f: Frame): (s: seq<byte>)
    ensures |s| == STREAM_HEADER_SIZE + |f.payload|
  {
    Put64(f.stream) + LengthField(f) + f.payload
  }

  function EncodeAll(fs: seq<Frame>): seq<byte> {
    if fs == [] then [] else Encode(fs[0]) + EncodeAll(fs[1..])
  }

  lemma {:induction false} EncodeAllAppend(fs: seq<Frame>, gs: seq<Frame>)
    ensures EncodeAll(fs + gs) == EncodeAll(fs) + EncodeAll(gs)
  {
    if fs == [] {
      assert fs + gs == gs;
    } else {
      assert (fs + gs)[1..] == fs[1..] + gs;
      EncodeAllAppend(fs[1..], gs);
    }
  }

  lemma Parts<T>(a: seq<T>, b: seq<T>, c: seq<T>, tail: seq<T>)
    ensures (a + b + c + tail)[..|a|] == a
    ensures (a + b + c + tail)[|a|..|a| + |b|] == b
    ensures (a + b + c + tail)[..|a + b + c|] == a + b + c
    ensures (a + b + c + tail)[|a + b + c|..] == tail
    ensures (a + b + c)[|a| + |b|..] == c
  {
  }

  /** The fields of a frame can be read back from its encoding. */
  lemma HeaderOfEncode(f: Frame, tail: seq<byte>)
    requires WellSized(f)
    ensures Get64((Encode(f) + tail)[..8]) == f.stream
    ensures Get32((Encode(f) + tail)[STREAM_HEADER_LENGTH_OFFSET..STREAM_HEADER_SIZE])
         == STREAM_HEADER_SIZE + |f.payload|
    ensures (Encode(f) + tail)[..|Encode(f)|] == Encode(f)
    ensures (Encode(f) + tail)[|Encode(f)|..] == tail
    ensures Encode(f)[STREAM_HEADER_SIZE..] == f.payload
  {
    Parts(Put64(f.stream), LengthField(f), f.payload, tail);
  }

  /** What read_IO_message can come back with: a buffer and the length field read
      from it; a message over the limit; or the end of the stream, on which the
      shim exits. */
  datatype ReadResult =
    | Message(buf: seq<byte>, stream: uint64, streamLen: nat)
    | TooBig
    | EndOfFile

  /** The first message of a byte stream, and what is left behind it.  A length
      field of at most 12 ends the message at the header. */
  function NextMessage(s: seq<byte>): (r: (ReadResult, seq<byte>))
  {
    if |s| < STREAM_HEADER_SIZE then (EndOfFile, [])
    else
      var len := Get32(s[STREAM_HEADER_LENGTH_OFFSET..STREAM_HEADER_SIZE]);
      if len <= STREAM_HEADER_SIZE then
        (Message(s[..STREAM_HEADER_SIZE], Get64(s[..8]), len), s[STREAM_HEADER_SIZE..])
      else if len > HYPERSTART_MAX_RECV_BYTES then (TooBig, s[STREAM_HEADER_SIZE..])
      else if |s| < len then (EndOfFile, [])
      else (Message(s[..len], Get64(s[..8]), len), s[len..])
  }

  /** The reader hands out a message with its payload exactly when the bytes start with a
      well-sized frame, and then it is that frame. */
  lemma MessageIff(s: seq<byte>)
    ensures (exists f :: WellSized(f) && Encode(f) <= s)
       <==> NextMessage(s).0.Message? && NextMessage(s).0.streamLen >= STREAM_HEADER_SIZE
    ensures forall f :: WellSized(f) && Encode(f) <= s ==>
              NextMessage(s) == (Message(Encode(f), f.stream, |Encode(f)|), s[|Encode(f)|..])
  {
    hide Encode, NextMessage, WellSized;
    forall f | WellSized(f) && Encode(f) <= s
      ensures NextMessage(s) == (Message(Encode(f), f.stream, |Encode(f)|), s[|Encode(f)|..])
    {
      assert s == Encode(f) + s[|Encode(f)|..];
      NextMessageOfFrame(f, s[|Encode(f)|..]);
    }
    var r := NextMessage(s).0;
    if r.Message? && r.streamLen >= STREAM_HEADER_SIZE {
      FrameOfMessage(s);
      var f := Frame(r.stream, r.buf[STREAM_HEADER_SIZE..]);
      assert WellSized(f) && Encode(f) <= s;
    }
  }

  lemma FrameOfMessage(s: seq<byte>)
    requires NextMessage(s).0.Message? && NextMessage(s).0.streamLen >= STREAM_HEADER_SIZE
    ensures var r := NextMessage(s).0;
            && |r.buf| >= STREAM_HEADER_SIZE
            && var f := Frame(r.stream, r.buf[STREAM_HEADER_SIZE..]); WellSized(f) && Encode(f) <= s
  {
    var r := NextMessage(s).0;
    var f := Frame(r.stream, r.buf[STREAM_HEADER_SIZE..]);
    PutOfGet64(s[..8]);
    PutOfGet32(s[STREAM_HEADER_LENGTH_OFFSET..STREAM_HEADER_SIZE]);
    hide Put64, Put32, Get64, Get32;
    assert r.buf == s[..8] + s[8..12] + r.buf[12..];
    assert Encode(f) == r.buf;
  }

  /** read_IO_message: fills a 12-byte buffer, then one resized to the announced
      length, from reads of any size.  The outcome depends only on the bytes, never
      on how they arrive, and no store falls outside the current buffer. */
  method ReadIoMessage(io: BytePipe) returns (r: ReadResult)
    modifies io
    ensures (r, io.pending) == NextMessage(old(io.pending))
  {
    ghost var input := io.pending;
    var buf := new byte[STREAM_HEADER_SIZE];
    var needRead, bytesRead, streamLen := STREAM_HEADER_SIZE, 0, 0;
    while bytesRead < needRead
      invariant 0 <= bytesRead <= needRead == buf.Length
      invariant fresh(buf)
      invariant bytesRead <= |input| && buf[..bytesRead] == input[..bytesRead]
      invariant io.pending == input[bytesRead..]
      invariant bytesRead < STREAM_HEADER_SIZE ==> streamLen == 0 && needRead == STREAM_HEADER_SIZE
      invariant bytesRead >= STREAM_HEADER_SIZE ==>
                  && streamLen == Get32(input[STREAM_HEADER_LENGTH_OFFSET..STREAM_HEADER_SIZE])
                  && if streamLen > STREAM_HEADER_SIZE
                     then streamLen == needRead <= HYPERSTART_MAX_RECV_BYTES
                     else bytesRead == needRead == STREAM_HEADER_SIZE
      decreases |io.pending|
    {
      var want := needRead - bytesRead;
      if want > BUFSIZ {
        want := BUFSIZ;
      }
      ghost var before := io.pending;
      var chunk := io.Read(want);
      if chunk == [] {
        return EndOfFile;
      }
      assert before[..|chunk|] == chunk && before[|chunk|..] == io.pending;
      assert input[..bytesRead] + before == input;
      StoreChunk(buf, bytesRead, chunk);
      bytesRead := bytesRead + |chunk|;

      if streamLen == 0 && bytesRead >= STREAM_HEADER_SIZE {
        assert bytesRead == STREAM_HEADER_SIZE;
        var field := buf[STREAM_HEADER_LENGTH_OFFSET..STREAM_HEADER_SIZE];
        assert field == input[STREAM_HEADER_LENGTH_OFFSET..STREAM_HEADER_SIZE];
        streamLen := Get32(field);
        if streamLen == STREAM_HEADER_SIZE {
          break;
        }
        if streamLen > HYPERSTART_MAX_RECV_BYTES {
          return TooBig;
        }
        if streamLen > STREAM_HEADER_SIZE {
          needRead := streamLen;
          buf := Resize(buf, streamLen);
        }
      }
    }
    assert buf[..] == input[..bytesRead];
    assert buf[..8] == input[..8];
    r := Message(buf[..], Get64(buf[..8]), streamLen);
  }

  /** The bytes a read stores behind the ones already in the buffer. */
  method StoreChunk(buf: array<byte>, offset: nat, chunk: seq<byte>)
    requires offset + |chunk| <= buf.Length
    modifies buf
    ensures buf[..] == old(buf[..offset]) + chunk + old(buf[offset + |chunk|..])
  {
    var i := 0;
    while i < |chunk|
      invariant 0 <= i <= |chunk|
      invariant forall j :: 0 <= j < buf.Length ==> buf[j] == if offset <= j < offset + i then chunk[j - offset] else old(buf[j])
    {
      buf[offset + i] := chunk[i];
      i := i + 1;
    }
  }

  /** realloc to a larger size keeps the old bytes. */
  method Resize(buf: array<byte>, size: nat) returns (r: array<byte>)
    requires buf.Length <= size
    ensures fresh(r) && r.Length == size && r[..buf.Length] == buf[..]
  {
    r := new byte[size](i requires 0 <= i < size reads buf => if i < buf.Length then buf[i] else 0);
  }

  /** Reading inverts writing: the reader takes exactly one frame off the front. */
  lemma NextMessageOfFrame(f: Frame, tail: seq<byte>)
    requires WellSized(f)
    ensures NextMessage(Encode(f) + tail)
         == (Message(Encode(f), f.stream, STREAM_HEADER_SIZE + |f.payload|), tail)
  {
    HeaderOfEncode(f, tail);
  }

  /** Every frame of a byte stream, read one after the other until something other
      than a whole message of at least header size turns up. */
  function DecodeAll(s: seq<byte>): (r: (seq<Frame>, seq<byte>))
    decreases |s|
  {
    var (m, rest) := NextMessage(s);
    if m.Message? && m.streamLen >= STREAM_HEADER_SIZE then
      var (fs, left) := DecodeAll(rest);
      ([Frame(m.stream, m.buf[STREAM_HEADER_SIZE..])] + fs, left)
    else ([], s)
  }

  /** Iterating the reader inverts concatenation of frames, and leaves a cut-off
      last frame alone. */
  lemma {:induction false} DecodeOfEncodeAll(fs: seq<Frame>, partial: seq<byte>)
    requires AllWellSized(fs)
    requires NextMessage(partial).0.EndOfFile?
    ensures DecodeAll(EncodeAll(fs) + partial) == (fs, partial)
  {
    if fs == [] {
      assert EncodeAll(fs) + partial == partial;
    } else {
      var tail := EncodeAll(fs[1..]) + partial;
      assert EncodeAll(fs) + partial == Encode(fs[0]) + tail;
      NextMessageOfFrame(fs[0], tail);
      HeaderOfEncode(fs[0], tail);
      DecodeOfEncodeAll(fs[1..], partial);
      assert [fs[0]] + fs[1..] == fs;
    }
  }

  /** Framing is unambiguous: two frame sequences with the same bytes are the same. */
  lemma EncodeAllInjective(fs: seq<Frame>, gs: seq<Frame>)
    requires AllWellSized(fs) && AllWellSized(gs)
    requires EncodeAll(fs) == EncodeAll(gs)
    ensures fs == gs
  {
    DecodeOfEncodeAll(fs, []);
    DecodeOfEncodeAll(gs, []);
    assert EncodeAll(fs) + [] == EncodeAll(fs);
    assert EncodeAll(gs) + [] == EncodeAll(gs);
  }

  method StoreHeader(buf: array<byte>, stream: uint64, len: uint32)
    requires buf.Length >= STREAM_HEADER_SIZE
    modifies buf
    ensures buf[..8] == Put64(stream) && buf[8..12] == Put32(len) && buf[12..] == old(buf[12..])
  {
    SetBigEndian64(buf, 0, stream);
    ghost var mid := buf[..];
    assert mid == Put64(stream) + mid[8..] && mid[12..] == old(buf[12..]);
    SetBigEndian32(buf, STREAM_HEADER_LENGTH_OFFSET, len);
    assert buf[..] == mid[..8] + Put32(len) + mid[12..];
  }

  /** handle_stdin: one read of stdin becomes one frame; end of file becomes the empty frame
      that tells hyperstart about it.  If the read fails nothing happens.  The frame is
      written once: what the write leaves over, all of it if the write fails, is not sent again. */
  method HandleStdin(ioSeqNo: uint64, stdin: BytePipe, proxy: BytePipe) returns (failed: bool, eof: bool, whole: bool)
    requires stdin != proxy
    modifies stdin, proxy
    ensures failed ==> !eof && !whole && stdin.pending == old(stdin.pending) && proxy.pending == old(proxy.pending)
    ensures !failed ==> (eof <==> old(stdin.pending) == [])
    ensures !failed ==>
              exists data :: |data| <= BUFSIZ && data + stdin.pending == old(stdin.pending)
                          && (data == [] <==> eof)
                          && WellSized(Frame(ioSeqNo, data))
                          && old(proxy.pending) <= proxy.pending <= old(proxy.pending) + Encode(Frame(ioSeqNo, data))
                          && (whole <==> proxy.pending == old(proxy.pending) + Encode(Frame(ioSeqNo, data)))
  {
    failed, eof, whole := *, false, false;
    if failed {
      return;
    }
    var buf := new byte[BUFSIZ + STREAM_HEADER_SIZE];
    var data := stdin.Read(BUFSIZ);
    eof := data == [];
    StoreChunk(buf, STREAM_HEADER_SIZE, data);
    var len := |data| + STREAM_HEADER_SIZE;
    ghost var body := buf[12..];
    assert body[..|data|] == data;
    StoreHeader(buf, ioSeqNo, len);
    assert buf[12..len] == body[..|data|];
    assert buf[..len] == buf[..8] + buf[8..12] + buf[12..len] == Encode(Frame(ioSeqNo, data));
    whole := proxy.Write(buf[..len]);
  }
}
