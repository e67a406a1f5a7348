/** Receiving QMP messages (src/network.c): a byte stream cut at CRLF, whatever pieces
    it arrives in. */
module Qmp {
  import opened BigEndian
  import opened Option
  import opened Pipe

  const CR: byte := 13
  const LF: byte := 10
  const NUL: byte := 0
  const CC_OCI_NET_BUF_SIZE := 2048

  predicate SepAt(s: seq<byte>, i: nat) {
    i + 1 < |s| && s[i] == CR && s[i + 1] == LF
  }

  ghost predicate HasSep(s: seq<byte>) {
    exists i :: SepAt(s, i)
  }

  /** The separator g_strstr_len finds: the first one, provided no NUL comes before it. */
  function FindSep(s: seq<byte>): (r: Option<nat>)
    ensures r.Some? ==> SepAt(s, r.value) && NUL !in s[..r.value] && forall j :: 0 <= j < r.value ==> !SepAt(s, j)
    ensures r.None? && NUL !in s ==> !HasSep(s)
  {
    FindSepFrom(s, 0)
  }

  function FindSepFrom(s: seq<byte>, i: nat): (r: Option<nat>)
    requires i <= |s|
    ensures r.Some? ==>
              && i <= r.value && SepAt(s, r.value) && NUL !in s[i..r.value]
              && forall j :: i <= j < r.value ==> !SepAt(s, j)
    ensures r.None? && NUL !in s ==> forall j :: i <= j ==> !SepAt(s, j)
    decreases |s| - i
  {
    if i == |s| || s[i] == NUL then None
    else if SepAt(s, i) then Some(i)
    else
      var r := FindSepFrom(s, i + 1);
      assert r.Some? ==> s[i..r.value] == [s[i]] + s[i + 1..r.value];
      r
  }

  /** Complete messages, and the bytes behind the last separator. */
  function Split(s: seq<byte>): (r: (seq<seq<byte>>, seq<byte>))
    decreases |s|
  {
    match FindSep(s)
    case None => ([], s)
    case Some(i) =>
      var (msgs, rest) := Split(s[i + 2..]);
      ([s[..i]] + msgs, rest)
  }

  /** Messages as they go over the wire. */
  function Join(msgs: seq<seq<byte>>): seq<byte> {
    if msgs == [] then [] else msgs[0] + [CR, LF] + Join(msgs[1..])
  }

  ghost predicate Clean(msgs: seq<seq<byte>>) {
    forall i :: 0 <= i < |msgs| ==> NUL !in msgs[i] && !HasSep(msgs[i])
  }

  /** Nothing is lost or made up: the messages, each with its separator, and the
      leftover are the input. */
  lemma {:induction false} JoinOfSplit(s: seq<byte>)
    ensures Join(Split(s).0) + Split(s).1 == s
    decreases |s|
  {
    if FindSep(s).Some? {
      var i := FindSep(s).value;
      var tail := s[i + 2..];
      JoinOfSplit(tail);
      var (msgs, rest) := Split(tail);
      assert ([s[..i]] + msgs)[1..] == msgs;
      CutAtSep(s, i, Join(msgs), rest);
    }
  }

  lemma CutAtSep(s: seq<byte>, i: nat, joined: seq<byte>, rest: seq<byte>)
    requires SepAt(s, i) && joined + rest == s[i + 2..]
    ensures s[..i] + [CR, LF] + joined + rest == s
  {
    assert s[..i] + [CR, LF] + (joined + rest) == s;
  }

  /** No message holds a separator, and no separator is left behind. */
  lemma {:induction false} SplitClean(s: seq<byte>)
    ensures Clean(Split(s).0)
    ensures NUL !in s ==> !HasSep(Split(s).1)
    decreases |s|
  {
    if FindSep(s).Some? {
      var i := FindSep(s).value;
      SplitClean(s[i + 2..]);
      NoSepInPrefix(s, i);
    }
  }

  lemma NoSepInPrefix(s: seq<byte>, i: nat)
    requires i <= |s| && forall j :: 0 <= j < i ==> !SepAt(s, j)
    ensures !HasSep(s[..i])
  {
    if HasSep(s[..i]) {
      var j :| SepAt(s[..i], j);
      assert SepAt(s, j);
    }
  }

  /** A separator does not appear any earlier because of the bytes around a message. */
  lemma FindSepOfMessage(m: seq<byte>, tail: seq<byte>)
    requires NUL !in m && !HasSep(m)
    ensures FindSep(m + [CR, LF] + tail) == Some(|m|)
  {
    FindSepScan(m, tail, 0);
  }

  lemma {:induction false} FindSepScan(m: seq<byte>, tail: seq<byte>, i: nat)
    requires NUL !in m && !HasSep(m) && i <= |m|
    ensures FindSepFrom(m + [CR, LF] + tail, i) == Some(|m|)
    decreases |m| - i
  {
    var s := m + [CR, LF] + tail;
    if i < |m| {
      assert s[i] == m[i] && m[i] in m;
      assert !SepAt(m, i);
      FindSepScan(m, tail, i + 1);
    } else {
      assert s[|m|] == CR && s[|m| + 1] == LF;
    }
  }

  /** So the split is the only one there is: any way of writing the input as clean
      messages and a clean leftover is the one Split finds. */
  lemma {:induction false} SplitUnique(msgs: seq<seq<byte>>, rest: seq<byte>)
    requires Clean(msgs) && NUL !in rest && !HasSep(rest)
    ensures Split(Join(msgs) + rest) == (msgs, rest)
  {
    if msgs == [] {
      assert Join(msgs) + rest == rest;
    } else {
      var tail := Join(msgs[1..]) + rest;
      var s := Join(msgs) + rest;
      assert s == msgs[0] + [CR, LF] + tail;
      FindSepOfMessage(msgs[0], tail);
      SplitUnique(msgs[1..], rest);
      assert s[..|msgs[0]|] == msgs[0] && s[|msgs[0]| + 2..] == tail;
      assert [msgs[0]] + msgs[1..] == msgs;
    }
  }

  /** Cutting the input anywhere, even inside a separator, makes no difference: split the
      first part, then go on with its leftover in front of the second. */
  lemma {:induction false} SplitAppend(a: seq<byte>, b: seq<byte>)
    ensures var (m, r) := Split(a); var (m', r') := Split(r + b);
            Split(a + b) == (m + m', r')
    decreases |a|
  {
    match FindSep(a)
    case None =>
      var (m', r') := Split(a + b);
      assert [] + m' == m';
    case Some(i) =>
      FindSepExtend(a, b, 0);
      assert (a + b)[i + 2..] == a[i + 2..] + b && (a + b)[..i] == a[..i];
      SplitAppend(a[i + 2..], b);
      var (m, r) := Split(a[i + 2..]);
      var (m', r') := Split(r + b);
      assert [a[..i]] + m + m' == [a[..i]] + (m + m');
  }

  lemma {:induction false} FindSepExtend(a: seq<byte>, b: seq<byte>, i: nat)
    requires i <= |a| && FindSepFrom(a, i).Some?
    ensures FindSepFrom(a + b, i) == FindSepFrom(a, i)
    decreases |a| - i
  {
    if !SepAt(a, i) {
      FindSepExtend(a, b, i + 1);
    }
  }

  /** A shorter input has the same messages only if it is not shorter, once the whole
      ends with a separator. */
  lemma AllMessagesMeansAllBytes(a: seq<byte>, b: seq<byte>)
    requires Split(a + b).1 == [] && |Split(a).0| == |Split(a + b).0|
    ensures b == [] && Split(a).1 == []
  {
    SplitAppend(a, b);
    var (m, r) := Split(a);
    assert Split(r + b).0 == [];
    assert r + b == [];
  }

  /** How cc_oci_qmp_msg_recv ends: with the messages; with the socket failing; or in the
      assertion that nothing may be left over. */
  datatype Outcome =
    | Received(msgs: seq<seq<byte>>)
    | SocketFailed(msgs: seq<seq<byte>>)
    | AssertionFailed(msgs: seq<seq<byte>>, leftover: seq<byte>)

  /** cc_oci_qmp_msg_recv.  In every case the messages are those of the bytes read so
      far.  A stream of exactly the expected messages is received whatever its pieces. */
  method QmpMsgRecv(socket: BytePipe, expectedCount: nat) returns (r: Outcome)
    requires 0 < expectedCount
    modifies socket
    ensures exists consumed ::
              && consumed + socket.pending == old(socket.pending)
              && r.msgs == Split(consumed).0
              && match r {
                   case Received(msgs) => |msgs| == expectedCount && Split(consumed).1 == []
                   case AssertionFailed(msgs, leftover) => |msgs| == expectedCount && leftover == Split(consumed).1 != []
                   case SocketFailed(msgs) => |msgs| != expectedCount && socket.pending == []
                 }
    ensures forall msgs :: old(socket.pending) == Join(msgs) && Clean(msgs) && |msgs| == expectedCount ==>
              r == Received(msgs) && socket.pending == []
  {
    assert Split([]) == ([], []);
    hide Split, Join, Clean;
    ghost var input := socket.pending;
    ghost var consumed := [];
    var received, msgs: seq<seq<byte>> := [], [];
    while true
      invariant consumed + socket.pending == input
      invariant (msgs, received) == Split(consumed)
      invariant |msgs| != expectedCount
      decreases |socket.pending|
    {
      var chunk := socket.Read(CC_OCI_NET_BUF_SIZE);
      if chunk == [] {
        r := SocketFailed(msgs);
        assert consumed == input;
        break;
      }
      SplitAppend(consumed, chunk);
      received := received + chunk;
      consumed := consumed + chunk;
      msgs, received := TakeMessages(msgs, received);
      if |msgs| == expectedCount {
        r := if received != [] then AssertionFailed(msgs, received) else Received(msgs);
        break;
      }
    }
    forall want | input == Join(want) && Clean(want) && |want| == expectedCount
      ensures r == Received(want) && socket.pending == []
    {
      WholeInput(want, consumed, socket.pending);
    }
  }

  /** Of an input of clean messages, as many messages mean all of it, and so does its end. */
  lemma WholeInput(want: seq<seq<byte>>, consumed: seq<byte>, pending: seq<byte>)
    requires consumed + pending == Join(want) && Clean(want)
    ensures pending == [] ==> Split(consumed) == (want, [])
    ensures |Split(consumed).0| == |want| ==> pending == [] && Split(consumed) == (want, [])
  {
    SplitUnique(want, []);
    assert Join(want) + [] == Join(want);
    if |Split(consumed).0| == |want| { AllMessagesMeansAllBytes(consumed, pending); }
    if pending == [] { assert consumed + pending == consumed; }
    hide Split, Join, Clean;
  }

  /** The inner loop: take complete messages off the front of the buffer. */
  method TakeMessages(msgs0: seq<seq<byte>>, received0: seq<byte>)
    returns (msgs: seq<seq<byte>>, received: seq<byte>)
    ensures msgs == msgs0 + Split(received0).0 && received == Split(received0).1
  {
    msgs, received := msgs0, received0;
    while true
      invariant msgs + Split(received).0 == msgs0 + Split(received0).0
      invariant Split(received).1 == Split(received0).1
      decreases |received|
    {
      if received == [] {
        break;
      }
      var p := FindSep(received);
      if p.None? {
        break;
      }
      var msg := received[..p.value];
      assert msgs + Split(received).0 == msgs + [msg] + Split(received[p.value + 2..]).0;
      msgs := msgs + [msg];
      received := received[p.value + 2..];
    }
  }
}
