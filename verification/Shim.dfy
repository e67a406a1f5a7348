/** The shim's end of the I/O channel (shim/shim.c): frames become bytes on stdout
    and stderr, an empty frame announces the end of output and the next one-byte
    frame carries the exit status. */
module Shim {
  import opened BigEndian
  import opened Pipe
  import opened IoFrame
  import opened Option

  /** `io` is the sequence number the shim was started with; stderr is one above. */
  datatype ShimState = ShimState(io: uint64, exiting: bool, status: Option<byte>,
                                 out: seq<byte>, err: seq<byte>)

  function Start(io: uint64): ShimState {
    ShimState(io, false, None, [], [])
  }

  function ErrSeq(io: uint64): uint64 {
    Wrap64(io + 1)
  }

  predicate Own(f: Frame, io: uint64) {
    f.stream == io || f.stream == ErrSeq(io)
  }

  /** One pass of handle_proxy_output over a frame, all writes succeeding. */
  function Consume(s: ShimState, f: Frame): (r: ShimState)
    ensures r.io == s.io
  {
    if s.status.Some? || !Own(f, s.io) then s
    else if !s.exiting && f.payload == [] then s.(exiting := true)
    else if s.exiting && |f.payload| == 1 then s.(status := Some(f.payload[0]))
    else if f.stream == s.io then s.(out := s.out + f.payload)
    else s.(err := s.err + f.payload)
  }

  function Run(s: ShimState, fs: seq<Frame>): (r: ShimState)
    ensures r.io == s.io
  {
    if fs == [] then s else Consume(Run(s, fs[..|fs| - 1]), fs[|fs| - 1])
  }

  lemma {:induction false} RunAppend(s: ShimState, fs: seq<Frame>, f: Frame)
    ensures Run(s, fs + [f]) == Consume(Run(s, fs), f)
  {
    assert (fs + [f])[..|fs|] == fs;
  }

  // ------------------------------------------------------------------
  // What the machine should do, said without running it.

  /** `i` is the first empty frame on one of the shim's own streams. */
  ghost predicate FirstEmpty(fs: seq<Frame>, io: uint64, i: nat) {
    && i < |fs| && Own(fs[i], io) && fs[i].payload == []
    && forall k :: 0 <= k < i && Own(fs[k], io) ==> fs[k].payload != []
  }

  /** `j` is the first own one-byte frame behind the first own empty frame. */
  ghost predicate ExitAt(fs: seq<Frame>, io: uint64, j: nat) {
    && j < |fs| && Own(fs[j], io) && |fs[j].payload| == 1
    && exists i :: 0 <= i < j && FirstEmpty(fs, io, i)
          && forall k :: i < k < j && Own(fs[k], io) ==> |fs[k].payload| != 1
  }

  /** In-order concatenation of the payloads tagged with one sequence number. */
  function Payloads(fs: seq<Frame>, stream: uint64): seq<byte> {
    if fs == [] then []
    else
      var f := fs[|fs| - 1];
      Payloads(fs[..|fs| - 1], stream) + if f.stream == stream then f.payload else []
  }

  lemma PayloadsAppend(fs: seq<Frame>, f: Frame, stream: uint64)
    ensures Payloads(fs + [f], stream)
         == Payloads(fs, stream) + if f.stream == stream then f.payload else []
  {
    assert (fs + [f])[..|fs|] == fs;
  }

  ghost predicate SeenEmpty(fs: seq<Frame>, io: uint64) {
    exists i :: 0 <= i < |fs| && FirstEmpty(fs, io, i)
  }

  ghost predicate Exits(fs: seq<Frame>, io: uint64) {
    exists j :: 0 <= j < |fs| && ExitAt(fs, io, j)
  }

  lemma ExitAtPrefix(fs: seq<Frame>, f: Frame, io: uint64, j: nat)
    requires j < |fs|
    ensures ExitAt(fs + [f], io, j) <==> ExitAt(fs, io, j)
    ensures FirstEmpty(fs + [f], io, j) <==> FirstEmpty(fs, io, j)
  {
    var gs := fs + [f];
    assert forall k :: 0 <= k < |fs| ==> gs[k] == fs[k];
    forall i | 0 <= i < |fs|
      ensures FirstEmpty(gs, io, i) <==> FirstEmpty(fs, io, i)
    {
    }
  }

  /** Whether a frame is the exit frame is decided by then. */
  lemma {:induction false} ExitAtEnd(fs: seq<Frame>, io: uint64, j: nat)
    requires ExitAt(fs, io, j)
    ensures ExitAt(fs[..j + 1], io, j)
  {
    if j + 1 == |fs| {
      assert fs[..j + 1] == fs;
    } else {
      var gs := fs[..|fs| - 1];
      assert gs + [fs[|fs| - 1]] == fs && gs[..j + 1] == fs[..j + 1];
      ExitAtPrefix(gs, fs[|fs| - 1], io, j);
      ExitAtEnd(gs, io, j);
    }
  }

  lemma SeenEmptyAppend(fs: seq<Frame>, f: Frame, io: uint64)
    ensures SeenEmpty(fs + [f], io)
       <==> SeenEmpty(fs, io) || (Own(f, io) && f.payload == [])
  {
    var gs := fs + [f];
    assert forall k :: 0 <= k < |fs| ==> gs[k] == fs[k];
    if SeenEmpty(fs, io) {
      var i :| 0 <= i < |fs| && FirstEmpty(fs, io, i);
      ExitAtPrefix(fs, f, io, i);
      assert FirstEmpty(gs, io, i);
    } else {
      NoEmptyBefore(fs, io, |fs|);
      if Own(f, io) && f.payload == [] {
        assert gs[|fs|] == f;
        assert FirstEmpty(gs, io, |fs|);
      } else if SeenEmpty(gs, io) {
        var i :| 0 <= i < |gs| && FirstEmpty(gs, io, i);
        if i < |fs| { ExitAtPrefix(fs, f, io, i); }
      }
    }
  }

  /** With no first empty frame there is no empty frame at all. */
  lemma {:induction false} NoEmptyBefore(fs: seq<Frame>, io: uint64, n: nat)
    requires n <= |fs| && !SeenEmpty(fs, io)
    ensures forall k :: 0 <= k < n && Own(fs[k], io) ==> fs[k].payload != []
  {
    if n > 0 {
      NoEmptyBefore(fs, io, n - 1);
      if Own(fs[n - 1], io) && fs[n - 1].payload == [] {
        assert FirstEmpty(fs, io, n - 1);
      }
    }
  }

  /** As long as nothing has exited, an own one-byte frame exits exactly when an own
      empty frame has gone before. */
  lemma ExitsAppend(fs: seq<Frame>, f: Frame, io: uint64)
    requires !Exits(fs, io)
    ensures ExitAt(fs + [f], io, |fs|)
       <==> SeenEmpty(fs, io) && Own(f, io) && |f.payload| == 1
    ensures Exits(fs + [f], io) <==> ExitAt(fs + [f], io, |fs|)
  {
    var gs := fs + [f];
    assert forall k :: 0 <= k < |fs| ==> gs[k] == fs[k];
    forall j | 0 <= j < |fs|
      ensures !ExitAt(gs, io, j)
    {
      ExitAtPrefix(fs, f, io, j);
    }
    if ExitAt(gs, io, |fs|) {
      var i :| 0 <= i < |fs| && FirstEmpty(gs, io, i);
      ExitAtPrefix(fs, f, io, i);
    }
    if SeenEmpty(fs, io) && Own(f, io) && |f.payload| == 1 {
      var i :| 0 <= i < |fs| && FirstEmpty(fs, io, i);
      ExitAtPrefix(fs, f, io, i);
      NoOneByteAfter(fs, io, i, |fs|);
      assert FirstEmpty(gs, io, i);
    }
  }

  lemma {:induction false} NoOneByteAfter(fs: seq<Frame>, io: uint64, i: nat, n: nat)
    requires i < n <= |fs| && FirstEmpty(fs, io, i) && !Exits(fs, io)
    ensures forall k :: i < k < n && Own(fs[k], io) ==> |fs[k].payload| != 1
  {
    if n > i + 1 {
      NoOneByteAfter(fs, io, i, n - 1);
      if Own(fs[n - 1], io) && |fs[n - 1].payload| == 1 {
        assert ExitAt(fs, io, n - 1);
      }
    }
  }

  /** Over every frame sequence: until the exit frame the shim has written exactly
      the payloads of its two streams, each to its own descriptor, and it is
      draining exactly when an own empty frame has been seen. */
  lemma {:induction false} RunBeforeExit(fs: seq<Frame>, io: uint64)
    requires !Exits(fs, io)
    ensures Run(Start(io), fs)
         == ShimState(io, SeenEmpty(fs, io), None, Payloads(fs, io), Payloads(fs, ErrSeq(io)))
  {
    if fs != [] {
      var gs, f := fs[..|fs| - 1], fs[|fs| - 1];
      assert gs + [f] == fs;
      NoExitInPrefix(gs, f, io);
      RunBeforeExit(gs, io);
      SeenEmptyAppend(gs, f, io);
      ExitsAppend(gs, f, io);
      assert io != ErrSeq(io);
    }
  }

  lemma NoExitInPrefix(fs: seq<Frame>, f: Frame, io: uint64)
    requires !Exits(fs + [f], io)
    ensures !Exits(fs, io)
  {
    if Exits(fs, io) {
      var j :| 0 <= j < |fs| && ExitAt(fs, io, j);
      ExitAtPrefix(fs, f, io, j);
      assert false;
    }
  }

  /** The exit: the shim stops at frame `j` with that frame's byte as status, the
      earlier payloads written in full and nothing written afterwards. */
  lemma {:induction false} RunAtExit(fs: seq<Frame>, io: uint64, j: nat)
    requires ExitAt(fs, io, j)
    ensures Run(Start(io), fs)
         == ShimState(io, true, Some(fs[j].payload[0]),
                      Payloads(fs[..j], io), Payloads(fs[..j], ErrSeq(io)))
  {
    var gs, f := fs[..|fs| - 1], fs[|fs| - 1];
    assert gs + [f] == fs;
    if j < |gs| {
      ExitAtPrefix(gs, f, io, j);
      RunAtExit(gs, io, j);
      assert gs[..j] == fs[..j];
    } else {
      if Exits(gs, io) {
        var k :| 0 <= k < |gs| && ExitAt(gs, io, k);
        ExitAtPrefix(gs, f, io, k);
        OneExit(fs, io, k, j);
      }
      RunBeforeExit(gs, io);
      ExitsAppend(gs, f, io);
    }
  }

  lemma OneExit(fs: seq<Frame>, io: uint64, j: nat, k: nat)
    requires ExitAt(fs, io, j) && ExitAt(fs, io, k)
    ensures j == k
  {
    var a :| 0 <= a < j && FirstEmpty(fs, io, a)
          && forall m :: a < m < j && Own(fs[m], io) ==> |fs[m].payload| != 1;
    var b :| 0 <= b < k && FirstEmpty(fs, io, b)
          && forall m :: b < m < k && Own(fs[m], io) ==> |fs[m].payload| != 1;
    assert a == b;
  }

  /** The shim exits on a frame sequence exactly when the sequence holds an exit
      frame. */
  lemma ExitsIff(fs: seq<Frame>, io: uint64)
    ensures Run(Start(io), fs).status.Some? <==> Exits(fs, io)
  {
    if Exits(fs, io) {
      var j :| 0 <= j < |fs| && ExitAt(fs, io, j);
      RunAtExit(fs, io, j);
    } else {
      RunBeforeExit(fs, io);
    }
  }

  // ------------------------------------------------------------------
  // The process itself.

  /** What one message does to the shim.  A length field over the limit or below the
      header size makes it do nothing. */
  function Absorb(s: ShimState, m: ReadResult): ShimState
    requires m.Message? ==> |m.buf| >= STREAM_HEADER_SIZE
    requires m.Message? && m.streamLen > STREAM_HEADER_SIZE ==> |m.buf| == m.streamLen
  {
    if !m.Message? || m.streamLen < STREAM_HEADER_SIZE then s
    else Consume(s, Frame(m.stream, m.buf[STREAM_HEADER_SIZE..]))
  }

  /** With a whole frame next on the channel, one pass of the loop is Consume. */
  lemma AbsorbOfFrame(s: ShimState, f: Frame, tail: seq<byte>)
    requires WellSized(f)
    ensures NextMessage(Encode(f) + tail).1 == tail
    ensures Absorb(s, NextMessage(Encode(f) + tail).0) == Consume(s, f)
  {
    NextMessageOfFrame(f, tail);
    HeaderOfEncode(f, tail);
  }

  /** Any other bytes change nothing: a message too long or shorter than its header is passed
      over. */
  lemma AbsorbElse(s: ShimState, bytes: seq<byte>)
    requires forall f :: WellSized(f) ==> !(Encode(f) <= bytes)
    ensures Absorb(s, NextMessage(bytes).0) == s
  {
    MessageIff(bytes);
    hide Encode, WellSized, Consume;
  }

  lemma OnePart(base: seq<byte>, data: seq<byte>, offset: nat, n: nat)
    requires offset + n <= |data|
    ensures base + data[..offset] + data[offset..offset + n] == base + data[..offset + n]
  {
    assert data[..offset] + data[offset..offset + n] == data[..offset + n];
  }

  /** The running shim.  `failed` records err_exit, taken at end of file. */
  class Process {
    const ioSeqNo: uint64
    var exiting: bool
    var status: Option<byte>
    var failed: bool
    var out: seq<byte>
    var err: seq<byte>

    constructor (seqNo: uint64)
      ensures ioSeqNo == seqNo && State() == Start(seqNo) && !failed
    {
      ioSeqNo, exiting, status, failed, out, err := seqNo, false, None, false, [], [];
    }

    ghost function State(): ShimState
      reads this
    {
      ShimState(ioSeqNo, exiting, status, out, err)
    }

    /** write(2) on stdout or stderr, repeated until the payload is gone or a write
        fails; each write may take any part of what is left. */
    method WriteAll(toStdout: bool, data: seq<byte>) returns (complete: bool)
      modifies this`out, this`err
      ensures exists n :: 0 <= n <= |data| && (complete <==> n == |data|)
                && out == (if toStdout then old(out) + data[..n] else old(out))
                && err == (if toStdout then old(err) else old(err) + data[..n])
    {
      var offset := 0;
      while offset < |data|
        invariant 0 <= offset <= |data|
        invariant out == (if toStdout then old(out) + data[..offset] else old(out))
        invariant err == (if toStdout then old(err) else old(err) + data[..offset])
      {
        var ret :| -1 <= ret <= |data| - offset;
        if ret <= 0 {
          return false;
        }
        var part := data[offset..offset + ret];
        OnePart(old(out), data, offset, ret);
        OnePart(old(err), data, offset, ret);
        if toStdout { out := out + part; } else { err := err + part; }
        offset := offset + ret;
      }
      assert data[..offset] == data;
      return true;
    }

    /** handle_proxy_output: takes exactly one message off the channel, whatever
        sizes the reads come in, and acts on it.  A failed write loses only a tail
        of that message's payload. */
    method HandleProxyOutput(io: BytePipe) returns (complete: bool)
      requires status.None? && !failed
      modifies this, io
      ensures io.pending == NextMessage(old(io.pending)).1
      ensures failed <==> NextMessage(old(io.pending)).0.EndOfFile?
      ensures complete ==> State() == Absorb(old(State()), NextMessage(old(io.pending)).0)
      ensures !complete ==>
                && exiting == old(exiting) && status.None?
                && old(out) <= out <= Absorb(old(State()), NextMessage(old(io.pending)).0).out
                && old(err) <= err <= Absorb(old(State()), NextMessage(old(io.pending)).0).err
    {
      var m := ReadIoMessage(io);
      complete := true;
      if m.EndOfFile? {
        failed := true;
        return;
      }
      if m.TooBig? || m.streamLen <= 0 || m.streamLen > HYPERSTART_MAX_RECV_BYTES {
        return;
      }
      var toStdout;
      if m.stream == ioSeqNo {
        toStdout := true;
      } else if m.stream == ErrSeq(ioSeqNo) {
        toStdout := false;
      } else {
        return;
      }
      if !exiting && m.streamLen == STREAM_HEADER_SIZE {
        exiting := true;
        return;
      } else if exiting && m.streamLen == STREAM_HEADER_SIZE + 1 {
        status := Some(m.buf[STREAM_HEADER_SIZE]);
        return;
      }
      complete := WriteAll(toStdout, m.buf[STREAM_HEADER_SIZE..]);
    }
  }
}
