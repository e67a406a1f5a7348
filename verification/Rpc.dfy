/** The framing of requests and responses between the proxy and its clients
    (proxy/api/protocol.go, proxy/protocol.go, src/proxy.c, shim/shim.c). */
module Rpc {
  import opened BigEndian
  import opened Option

  const HEADER_LENGTH := 8

  // ------------------------------------------------------------------
  // A stream in pieces.  Unlike a blocking read of a fixed size, Go's Read returns at
  // most one piece, and ReadMessage takes its header from a single Read, so where the
  // pieces end matters.

  function Flat(chunks: seq<seq<byte>>): seq<byte> {
    if chunks == [] then [] else chunks[0] + Flat(chunks[1..])
  }

  predicate NoneEmpty(chunks: seq<seq<byte>>) {
    forall i :: 0 <= i < |chunks| ==> chunks[i] != []
  }

  /** The pieces without their first `n` bytes. */
  function Drop(chunks: seq<seq<byte>>, n: nat): (r: seq<seq<byte>>)
    requires NoneEmpty(chunks) && n <= |Flat(chunks)|
    ensures NoneEmpty(r) && Flat(r) == Flat(chunks)[n..]
  {
    if n == 0 then chunks
    else if n < |chunks[0]| then
      var r := [chunks[0][n..]] + chunks[1..];
      assert r[1..] == chunks[1..];
      r
    else
      var r := Drop(chunks[1..], n - |chunks[0]|);
      assert Flat(chunks)[n..] == Flat(chunks[1..])[n - |chunks[0]|..];
      r
  }

  /** A piece ends after the first `x` bytes. */
  predicate IsCut(chunks: seq<seq<byte>>, x: nat) {
    x == 0 || (chunks != [] && |chunks[0]| <= x && IsCut(chunks[1..], x - |chunks[0]|))
  }

  lemma {:induction false} DropDrop(chunks: seq<seq<byte>>, m: nat, n: nat)
    requires NoneEmpty(chunks) && m + n <= |Flat(chunks)|
    ensures Drop(Drop(chunks, m), n) == Drop(chunks, m + n)
    decreases |chunks|
  {
    if m == 0 {
    } else if m < |chunks[0]| {
      var rest := Drop(chunks, m);
      assert rest[1..] == chunks[1..] && rest[0] == chunks[0][m..];
      if 0 < n < |rest[0]| { assert rest[0][n..] == chunks[0][m + n..]; }
    } else {
      DropDrop(chunks[1..], m - |chunks[0]|, n);
    }
  }

  lemma {:induction false} CutAfterDrop(chunks: seq<seq<byte>>, n: nat, x: nat)
    requires NoneEmpty(chunks) && n <= |Flat(chunks)| && 0 < x
    ensures IsCut(Drop(chunks, n), x) <==> IsCut(chunks, n + x)
    decreases |chunks|
  {
    if n == 0 {
    } else if n < |chunks[0]| {
      var rest := Drop(chunks, n);
      assert rest[1..] == chunks[1..] && |rest[0]| == |chunks[0]| - n;
    } else {
      CutAfterDrop(chunks[1..], n - |chunks[0]|, x);
    }
  }

  /** A connection whose incoming bytes arrive in the given pieces. */
  class Connection {
    var chunks: seq<seq<byte>>
    var sent: seq<byte>

    constructor (pieces: seq<seq<byte>>)
      ensures chunks == pieces && sent == []
    {
      chunks, sent := pieces, [];
    }

    method Read(want: nat) returns (data: seq<byte>)
      requires 0 < want && NoneEmpty(chunks)
      modifies this`chunks
      ensures NoneEmpty(chunks)
      ensures data == [] <==> old(chunks) == []
      ensures old(chunks) != [] ==>
                && |data| == (if want <= |old(chunks)[0]| then want else |old(chunks)[0]|)
                && |data| <= |Flat(old(chunks))| && data == Flat(old(chunks))[..|data|]
                && chunks == Drop(old(chunks), |data|)
      ensures old(chunks) == [] ==> chunks == []
    {
      if chunks == [] {
        return [];
      }
      var head := chunks[0];
      if want < |head| {
        data := head[..want];
        chunks := [head[want..]] + chunks[1..];
      } else {
        data := head;
        chunks := chunks[1..];
        assert Drop(old(chunks), |head|) == Drop(chunks, 0);
      }
    }

    /** A write that fails may have sent any first part. */
    method Write(data: seq<byte>) returns (ok: bool)
      modifies this`sent
      ensures old(sent) <= sent <= old(sent) + data
      ensures ok <==> sent == old(sent) + data
    {
      var n :| 0 <= n <= |data|;
      assert sent + data[..n] == (sent + data)[..|sent| + n];
      sent := sent + data[..n];
      ok := n == |data|;
    }
  }

  // ------------------------------------------------------------------
  // Messages.

  predicate Framable(data: seq<byte>) {
    |data| < TWO_TO_THE_32
  }

  predicate AllFramable(msgs: seq<seq<byte>>) {
    forall i :: 0 <= i < |msgs| ==> Framable(msgs[i])
  }

  /** WriteMessage: the low 32 bits of the length, four bytes of flags, the data. */
  function Frame(data: seq<byte>): (s: seq<byte>)
    ensures |s| == HEADER_LENGTH + |data|
  {
    Put32(if Framable(data) then |data| else |data| % TWO_TO_THE_32) + [0, 0, 0, 0] + data
  }

  /** The length modulo 2^32, no flags, and the data as it is. */
  lemma FrameParts(data: seq<byte>)
    ensures var s := Frame(data);
            && |s| == HEADER_LENGTH + |data|
            && Get32(s[..4]) == |data| % TWO_TO_THE_32 && s[4..8] == [0, 0, 0, 0] && s[HEADER_LENGTH..] == data
  {
    var n: uint32 := if Framable(data) then |data| else |data| % TWO_TO_THE_32;
    assert n == |data| % TWO_TO_THE_32;
    assert Frame(data)[..4] == Put32(n);
  }

  function FrameAll(msgs: seq<seq<byte>>): seq<byte> {
    if msgs == [] then [] else Frame(msgs[0]) + FrameAll(msgs[1..])
  }

  datatype ReadOutcome = Data(data: seq<byte>) | EndOfStream | ShortHeader

  /** What ReadMessage makes of the pieces, and the pieces it leaves. */
  function ReadSpec(chunks: seq<seq<byte>>): (r: (ReadOutcome, seq<seq<byte>>))
    requires NoneEmpty(chunks)
    ensures NoneEmpty(r.1)
  {
    if chunks == [] then (EndOfStream, [])
    else if |chunks[0]| < HEADER_LENGTH then (ShortHeader, chunks[1..])
    else
      var all := Flat(chunks);
      var need := Get32(all[..4]);
      if |all| < HEADER_LENGTH + need then (EndOfStream, [])
      else (Data(all[HEADER_LENGTH..HEADER_LENGTH + need]), Drop(chunks, HEADER_LENGTH + need))
  }

  lemma TakeMore(all: seq<byte>, rest: seq<byte>, n: nat, part: seq<byte>)
    requires n <= |all| && rest == all[n..] && |part| <= |rest| && part == rest[..|part|]
    ensures n + |part| <= |all| && all[..n] + part == all[..n + |part|]
  {
  }

  /** The loop that fills the data buffer. */
  method ReadBody(conn: Connection, need: nat) returns (data: seq<byte>)
    requires NoneEmpty(conn.chunks)
    modifies conn`chunks
    ensures NoneEmpty(conn.chunks)
    ensures |Flat(old(conn.chunks))| < need ==> |data| < need && conn.chunks == []
    ensures need <= |Flat(old(conn.chunks))| ==>
              data == Flat(old(conn.chunks))[..need] && conn.chunks == Drop(old(conn.chunks), need)
  {
    ghost var body := conn.chunks;
    assert Drop(body, 0) == body && Flat([]) == [];
    hide Drop, Flat, NoneEmpty;
    data := [];
    while |data| < need
      invariant |data| <= need && NoneEmpty(conn.chunks)
      invariant |data| <= |Flat(body)| && data == Flat(body)[..|data|]
      invariant conn.chunks == Drop(body, |data|)
    {
      ghost var before := conn.chunks;
      var part := conn.Read(need - |data|);
      if part == [] {
        assert Flat(before) == [];
        return;
      }
      DropDrop(body, |data|, |part|);
      TakeMore(Flat(body), Flat(before), |data|, part);
      data := data + part;
    }
  }

  method ReadMessage(conn: Connection) returns (r: ReadOutcome)
    requires NoneEmpty(conn.chunks)
    modifies conn`chunks
    ensures (r, conn.chunks) == ReadSpec(old(conn.chunks))
  {
    ghost var start := conn.chunks;
    ghost var all := Flat(start);
    var buf := conn.Read(HEADER_LENGTH);
    if buf == [] {
      return EndOfStream;
    }
    if |buf| != HEADER_LENGTH {
      assert Drop(start, |buf|) == Drop(start[1..], 0);
      return ShortHeader;
    }
    assert buf[..4] == all[..4];
    var need := Get32(buf[..4]);
    assert Flat(conn.chunks) == all[HEADER_LENGTH..];
    var data := ReadBody(conn, need);
    if |data| < need {
      return EndOfStream;
    }
    DropDrop(start, HEADER_LENGTH, need);
    assert all[HEADER_LENGTH..HEADER_LENGTH + need] == all[HEADER_LENGTH..][..need];
    r := Data(data);
  }

  /** The next `k` messages, or nothing as soon as one cannot be read. */
  function ReadAll(chunks: seq<seq<byte>>, k: nat): Option<seq<seq<byte>>>
    requires NoneEmpty(chunks)
    decreases k
  {
    if k == 0 then Some([])
    else
      var (m, rest) := ReadSpec(chunks);
      if !m.Data? then None
      else
        var more := ReadAll(rest, k - 1);
        if more.None? then None else Some([m.data] + more.value)
  }

  /** Some piece ends strictly inside the header that starts after `start` bytes. */
  ghost predicate CutInside(chunks: seq<seq<byte>>, start: nat) {
    exists x :: start < x < start + HEADER_LENGTH && IsCut(chunks, x)
  }

  function HeaderStart(msgs: seq<seq<byte>>, i: nat): nat
    requires i <= |msgs|
  {
    |FrameAll(msgs[..i])|
  }

  /** Some piece ends strictly inside some header. */
  ghost predicate HeaderCut(chunks: seq<seq<byte>>, msgs: seq<seq<byte>>) {
    exists i :: 0 <= i < |msgs| && CutInside(chunks, HeaderStart(msgs, i))
  }

  lemma CutInsideAfterDrop(chunks: seq<seq<byte>>, n: nat, start: nat)
    requires NoneEmpty(chunks) && n <= |Flat(chunks)|
    ensures CutInside(Drop(chunks, n), start) <==> CutInside(chunks, n + start)
  {
    if CutInside(Drop(chunks, n), start) {
      var x :| start < x < start + HEADER_LENGTH && IsCut(Drop(chunks, n), x);
      CutAfterDrop(chunks, n, x);
      assert IsCut(chunks, n + x);
    }
    if CutInside(chunks, n + start) {
      var x :| n + start < x < n + start + HEADER_LENGTH && IsCut(chunks, x);
      CutAfterDrop(chunks, n, x - n);
      assert IsCut(Drop(chunks, n), x - n);
    }
  }

  lemma HeaderStartNext(msgs: seq<seq<byte>>, i: nat)
    requires i < |msgs|
    ensures HeaderStart(msgs, 0) == 0
    ensures HeaderStart(msgs, i + 1) == |Frame(msgs[0])| + HeaderStart(msgs[1..], i)
  {
    assert msgs[..i + 1][1..] == msgs[1..][..i];
  }

  /** The first message's header, then the others behind it. */
  lemma HeaderCutStep(chunks: seq<seq<byte>>, msgs: seq<seq<byte>>)
    requires msgs != [] && NoneEmpty(chunks) && |Frame(msgs[0])| <= |Flat(chunks)|
    ensures HeaderCut(chunks, msgs)
       <==> CutInside(chunks, 0) || HeaderCut(Drop(chunks, |Frame(msgs[0])|), msgs[1..])
  {
    var n, rest := |Frame(msgs[0])|, Drop(chunks, |Frame(msgs[0])|);
    HeaderStartNext(msgs, 0);
    if HeaderCut(chunks, msgs) {
      var i :| 0 <= i < |msgs| && CutInside(chunks, HeaderStart(msgs, i));
      if i > 0 {
        HeaderStartNext(msgs, i - 1);
        CutInsideAfterDrop(chunks, n, HeaderStart(msgs[1..], i - 1));
        assert CutInside(rest, HeaderStart(msgs[1..], i - 1));
      }
    }
    if CutInside(chunks, 0) {
      assert CutInside(chunks, HeaderStart(msgs, 0));
    }
    if HeaderCut(rest, msgs[1..]) {
      var i :| 0 <= i < |msgs[1..]| && CutInside(rest, HeaderStart(msgs[1..], i));
      HeaderStartNext(msgs, i);
      CutInsideAfterDrop(chunks, n, HeaderStart(msgs[1..], i));
      assert CutInside(chunks, HeaderStart(msgs, i + 1));
    }
  }

  /** The first piece holds a whole header exactly when no piece ends inside it. */
  lemma FirstHeaderWhole(chunks: seq<seq<byte>>)
    requires NoneEmpty(chunks) && |Flat(chunks)| >= HEADER_LENGTH
    ensures |chunks[0]| >= HEADER_LENGTH <==> !CutInside(chunks, 0)
  {
    if |chunks[0]| < HEADER_LENGTH {
      assert IsCut(chunks[1..], 0);
      assert IsCut(chunks, |chunks[0]|);
    }
  }

  lemma ReadSpecOfFrame(chunks: seq<seq<byte>>, data: seq<byte>, tail: seq<byte>)
    requires NoneEmpty(chunks) && Framable(data) && Flat(chunks) == Frame(data) + tail
    requires |chunks[0]| >= HEADER_LENGTH
    ensures ReadSpec(chunks) == (Data(data), Drop(chunks, |Frame(data)|))
  {
    var all := Flat(chunks);
    assert all[..4] == Put32(|data|);
    assert all[HEADER_LENGTH..HEADER_LENGTH + |data|] == data;
  }

  /** What the first message of some frames gives, if its header is whole and if it is not. */
  lemma ReadFirst(chunks: seq<seq<byte>>, msgs: seq<seq<byte>>)
    requires NoneEmpty(chunks) && AllFramable(msgs) && Flat(chunks) == FrameAll(msgs) && msgs != []
    ensures chunks != []
    ensures |chunks[0]| >= HEADER_LENGTH <==> !CutInside(chunks, 0)
    ensures |chunks[0]| < HEADER_LENGTH ==> ReadAll(chunks, |msgs|) == None
    ensures |chunks[0]| >= HEADER_LENGTH ==>
              var rest := Drop(chunks, |Frame(msgs[0])|);
              && NoneEmpty(rest) && Flat(rest) == FrameAll(msgs[1..])
              && ReadAll(chunks, |msgs|)
                 == match ReadAll(rest, |msgs| - 1) case None => None case Some(more) => Some([msgs[0]] + more)
  {
    FirstHeaderWhole(chunks);
    if |chunks[0]| >= HEADER_LENGTH {
      ReadSpecOfFrame(chunks, msgs[0], FrameAll(msgs[1..]));
      hide ReadSpec, Frame, CutInside;
    }
  }

  lemma FirstKept(msgs: seq<seq<byte>>, more: seq<seq<byte>>)
    requires msgs != []
    ensures [msgs[0]] + more == msgs <==> more == msgs[1..]
  {
    assert ([msgs[0]] + more)[1..] == more;
  }

  /** Reading inverts writing, for every sequence of messages and every way of cutting
      their bytes into pieces, exactly when no piece ends inside a header. */
  lemma {:induction false} ReadAllIff(chunks: seq<seq<byte>>, msgs: seq<seq<byte>>)
    requires NoneEmpty(chunks) && AllFramable(msgs) && Flat(chunks) == FrameAll(msgs)
    ensures ReadAll(chunks, |msgs|) == Some(msgs) <==> !HeaderCut(chunks, msgs)
    ensures ReadAll(chunks, |msgs|).Some? ==> ReadAll(chunks, |msgs|).value == msgs
    decreases |msgs|
  {
    if msgs != [] {
      assert |Frame(msgs[0])| <= |FrameAll(msgs)| && AllFramable(msgs[1..]);
      hide *;
      ReadFirst(chunks, msgs);
      HeaderCutStep(chunks, msgs);
      if |chunks[0]| >= HEADER_LENGTH {
        var rest := Drop(chunks, |Frame(msgs[0])|);
        ReadAllIff(rest, msgs[1..]);
        var more := ReadAll(rest, |msgs| - 1);
        if more.Some? { FirstKept(msgs, more.value); }
      }
    }
  }

  /** A header that arrives in two pieces cannot be read. */
  lemma SplitHeaderFails()
    ensures Flat([[0, 0, 0, 0], [0, 0, 0, 0]]) == FrameAll([[]])
    ensures ReadAll([[0, 0, 0, 0], [0, 0, 0, 0]], 1) == None
  {
    var chunks: seq<seq<byte>> := [[0, 0, 0, 0], [0, 0, 0, 0]];
    EmptyFrame();
    assert chunks[1..] == [[0, 0, 0, 0]] && [[0, 0, 0, 0]][1..] == [];
    hide Frame;
    var one: seq<seq<byte>> := [[]];
    assert one[1..] == [];
  }

  lemma EmptyFrame()
    ensures Frame([]) == [0, 0, 0, 0, 0, 0, 0, 0]
  {
    assert Put32(0) == [0, 0, 0, 0];
  }

  // ------------------------------------------------------------------
  // The two writers in C.

  /** cc_proxy_msg_write: the length is counted in UTF-8 characters, and that many bytes
      are written.  `text` is the message as a sequence of encoded characters. */
  function ProxyMsgWrite(text: seq<seq<byte>>): seq<byte>
    requires NoneEmpty(text) && |text| < TWO_TO_THE_32
  {
    FlatLength(text);
    Put32(|text|) + [0, 0, 0, 0] + Flat(text)[..|text|]
  }

  lemma {:induction false} FlatLength(text: seq<seq<byte>>)
    requires NoneEmpty(text)
    ensures |text| <= |Flat(text)|
    ensures |text| == |Flat(text)| <==> forall i :: 0 <= i < |text| ==> |text[i]| == 1
  {
    if text != [] {
      FlatLength(text[1..]);
      assert forall i :: 1 <= i < |text| ==> text[i] == text[1..][i - 1];
    }
  }

  /** It writes the frame the proxy expects exactly when every character is one byte. */
  lemma ProxyMsgWriteIff(text: seq<seq<byte>>)
    requires NoneEmpty(text) && Framable(Flat(text))
    ensures |text| < TWO_TO_THE_32
    ensures ProxyMsgWrite(text) == Frame(Flat(text)) <==> forall i :: 0 <= i < |text| ==> |text[i]| == 1
  {
    FlatLength(text);
    var data := Flat(text);
    if |text| == |data| {
      assert data[..|text|] == data;
    } else {
      assert |ProxyMsgWrite(text)| != |Frame(data)|;
    }
  }

  /** What is written is always a frame: of the text's first bytes, as many as it has
      characters. */
  lemma ProxyMsgWriteIs(text: seq<seq<byte>>)
    requires NoneEmpty(text) && |text| < TWO_TO_THE_32
    ensures |text| <= |Flat(text)| && ProxyMsgWrite(text) == Frame(Flat(text)[..|text|])
  {
    FlatLength(text);
  }

  /** One character of two bytes: the length says one, and the second byte is missing. */
  lemma TwoByteCharacter(b: byte, c: byte)
    ensures ProxyMsgWrite([[b, c]]) == Put32(1) + [0, 0, 0, 0] + [b] && ProxyMsgWrite([[b, c]]) != Frame([b, c])
  {
    var text := [[b, c]];
    assert text[1..] == [] && Flat(text) == [b, c];
    hide Put32, Frame;
  }

  /** get_proxy_ctl_msg in the shim counts bytes and writes the same frame. */
  method GetProxyCtlMsg(json: seq<byte>) returns (msg: array<byte>, len: nat)
    requires Framable(json)
    ensures fresh(msg) && len < msg.Length && msg[..len] == Frame(json)
  {
    len := |json| + HEADER_LENGTH;
    msg := new byte[len + 1](i => 0);
    ghost var zeros := msg[4..];
    assert zeros[..4] == [0, 0, 0, 0];
    SetBigEndian32(msg, 0, |json|);
    assert msg[4..8] == zeros[..4];
    ghost var header := msg[..HEADER_LENGTH];
    assert header == Put32(|json|) + [0, 0, 0, 0];
    var i := 0;
    while i < |json|
      invariant 0 <= i <= |json|
      invariant msg[..HEADER_LENGTH] == header
      invariant msg[HEADER_LENGTH..HEADER_LENGTH + i] == json[..i]
    {
      msg[HEADER_LENGTH + i] := json[i];
      i := i + 1;
    }
    assert msg[..len] == msg[..HEADER_LENGTH] + msg[HEADER_LENGTH..len];
  }

  // ------------------------------------------------------------------
  // Serving a client.

  datatype Request = Request(id: string, data: seq<byte>)

  datatype HandlerResponse<R> = HandlerResponse(err: Option<string>, results: Option<R>, file: bool)

  datatype Response<R> = Response(success: bool, error: string, results: Option<R>)

  /** What the connection loop depends on: the registered handlers, which act on state of
      type S, and the JSON layer. */
  datatype Server<!S, !R> = Server(
    ids: set<string>,
    handle: (S, Request) -> (S, HandlerResponse<R>),
    parse: seq<byte> -> Option<Request>,
    marshal: Response<R> -> seq<byte>)

  const FILE_TAG: byte := 70  // 'F'

  datatype Reply<R> = Reply(file: bool, response: Response<R>)

  /** A request for one of the registered handlers. */
  predicate Known<S, R>(srv: Server<S, R>, req: Request) {
    req.id != "" && req.id in srv.ids
  }

  /** handleRequest, with the file the handler may have attached.  A known request is
      answered with its handler's results, file and error text, the empty text standing for
      success; any other gets an error, and nothing else. */
  function HandleRequest<S, R>(srv: Server<S, R>, st: S, req: Request): (r: (S, Reply<R>))
    ensures Known(srv, req) ==>
              var (st', hr) := srv.handle(st, req);
              && r.0 == st'
              && r.1.file == hr.file
              && r.1.response.results == hr.results
              && (r.1.response.success <==> hr.err.None?)
              && r.1.response.error == (if hr.err.Some? then hr.err.value else "")
    ensures !Known(srv, req) ==>
              && r.0 == st && !r.1.file
              && !r.1.response.success && r.1.response.results == None && r.1.response.error != ""
  {
    if req.id == "" then (st, Reply(false, Response(false, "no 'id' field in request", None)))
    else if req.id !in srv.ids then (st, Reply(false, Response(false, "no payload named '" + req.id + "'", None)))
    else
      var (st', hr) := srv.handle(st, req);
      if hr.err.Some? then (st', Reply(hr.file, Response(false, hr.err.value, hr.results)))
      else (st', Reply(hr.file, Response(true, "", hr.results)))
  }

  /** An optional byte that carries the file descriptor, then one response frame. */
  function EncodeReply<S, R>(srv: Server<S, R>, r: Reply<R>): seq<byte> {
    (if r.file then [FILE_TAG] else []) + Frame(srv.marshal(r.response))
  }

  function EncodeReplies<S, R>(srv: Server<S, R>, rs: seq<Reply<R>>): seq<byte> {
    if rs == [] then [] else EncodeReply(srv, rs[0]) + EncodeReplies(srv, rs[1..])
  }

  /** One reply per request, in order, each made by the state the earlier ones left; the
      first request that is not JSON ends the connection. */
  function Replies<S, R>(srv: Server<S, R>, st: S, msgs: seq<seq<byte>>): (rs: seq<Reply<R>>)
    ensures |rs| <= |msgs|
    ensures |rs| == |msgs| <==> forall i :: 0 <= i < |msgs| ==> srv.parse(msgs[i]).Some?
  {
    if msgs == [] then []
    else if srv.parse(msgs[0]).None? then []
    else
      var (st', r) := HandleRequest(srv, st, srv.parse(msgs[0]).value);
      var rs := Replies(srv, st', msgs[1..]);
      assert forall i :: 1 <= i < |msgs| ==> msgs[i] == msgs[1..][i - 1];
      [r] + rs
  }

  /** What Serve writes for the pieces that arrive. */
  function ServeSpec<S, R>(srv: Server<S, R>, st: S, chunks: seq<seq<byte>>): seq<byte>
    requires NoneEmpty(chunks)
    decreases |Flat(chunks)|
  {
    var (m, rest) := ReadSpec(chunks);
    if !m.Data? || srv.parse(m.data).None? then []
    else
      var (st', r) := HandleRequest(srv, st, srv.parse(m.data).value);
      EncodeReply(srv, r) + ServeSpec(srv, st', rest)
  }

  /** WriteFd if there is a file, then WriteMessage; it stops at the first write that fails. */
  method SendReply<S, R>(srv: Server<S, R>, conn: Connection, r: Reply<R>) returns (ok: bool)
    modifies conn`sent
    ensures old(conn.sent) <= conn.sent <= old(conn.sent) + EncodeReply(srv, r)
    ensures ok <==> conn.sent == old(conn.sent) + EncodeReply(srv, r)
  {
    var data := srv.marshal(r.response);
    var frame := Frame(data);
    ghost var start, tag := conn.sent, if r.file then [FILE_TAG] else [];
    Regroup(start, tag, frame);
    assert frame == frame[..HEADER_LENGTH] + frame[HEADER_LENGTH..];
    Regroup(start + tag, frame[..HEADER_LENGTH], frame[HEADER_LENGTH..]);
    hide Frame;
    if r.file {
      ok := conn.Write([FILE_TAG]);
      if !ok { return; }
    }
    ok := conn.Write(frame[..HEADER_LENGTH]);
    if !ok { return; }
    ok := conn.Write(frame[HEADER_LENGTH..]);
  }

  /** One turn of the loop: a request read and answered, or the end; `broken` if the answer
      could not be written. */
  method ServeOne<S, R>(srv: Server<S, R>, conn: Connection, st: S)
    returns (done: bool, broken: bool, st': S, ghost reply: seq<byte>)
    requires NoneEmpty(conn.chunks)
    modifies conn
    ensures NoneEmpty(conn.chunks)
    ensures done && !broken ==> conn.sent == old(conn.sent) && ServeSpec(srv, st, old(conn.chunks)) == []
    ensures broken ==> done && old(conn.sent) <= conn.sent < old(conn.sent) + ServeSpec(srv, st, old(conn.chunks))
    ensures !done ==>
              && |Flat(conn.chunks)| < |Flat(old(conn.chunks))|
              && conn.sent == old(conn.sent) + reply
              && ServeSpec(srv, st, old(conn.chunks)) == reply + ServeSpec(srv, st', conn.chunks)
  {
    var m := ReadMessage(conn);
    st' := st;
    if !m.Data? {
      return true, false, st, [];
    }
    var req := srv.parse(m.data);
    if req.None? {
      return true, false, st, [];
    }
    var (next, r) := HandleRequest(srv, st, req.value);
    ghost var before := conn.sent;
    var ok := SendReply(srv, conn, r);
    hide EncodeReply, ReadSpec, HandleRequest;
    reply := EncodeReply(srv, r);
    if !ok {
      Regroup(before, reply, ServeSpec(srv, next, conn.chunks));
      return true, true, next, reply;
    }
    return false, false, next, reply;
  }

  /** Serve.  What has been sent is the answers, or a first part of them if a write failed. */
  method Serve<S, R>(srv: Server<S, R>, conn: Connection, st0: S) returns (broken: bool)
    requires NoneEmpty(conn.chunks)
    modifies conn
    ensures old(conn.sent) <= conn.sent <= old(conn.sent) + ServeSpec(srv, st0, old(conn.chunks))
    ensures broken <==> conn.sent != old(conn.sent) + ServeSpec(srv, st0, old(conn.chunks))
  {
    var st := st0;
    ghost var rest := ServeSpec(srv, st0, conn.chunks);
    ghost var goal := conn.sent + rest;
    hide ServeSpec;
    while true
      invariant NoneEmpty(conn.chunks)
      invariant rest == ServeSpec(srv, st, conn.chunks)
      invariant conn.sent + rest == goal && old(conn.sent) <= conn.sent
      decreases |Flat(conn.chunks)|
    {
      ghost var before := conn.sent;
      var done, failed, st', reply := ServeOne(srv, conn, st);
      if done {
        return failed;
      }
      Regroup(before, reply, ServeSpec(srv, st', conn.chunks));
      st, rest := st', ServeSpec(srv, st', conn.chunks);
    }
  }

  lemma Regroup(a: seq<byte>, b: seq<byte>, c: seq<byte>)
    ensures a + (b + c) == a + b + c
  {
  }

  /** Over every sequence of requests and every way its bytes may arrive with headers
      whole, the client gets exactly the replies, in the order of its requests. */
  lemma {:induction false} ServeAnswersInOrder<S, R>(srv: Server<S, R>, st: S, chunks: seq<seq<byte>>, msgs: seq<seq<byte>>)
    requires NoneEmpty(chunks) && AllFramable(msgs) && Flat(chunks) == FrameAll(msgs) && !HeaderCut(chunks, msgs)
    ensures ServeSpec(srv, st, chunks) == EncodeReplies(srv, Replies(srv, st, msgs))
    decreases |msgs|
  {
    if msgs == [] {
      if chunks != [] { assert false; }
    } else {
      var data, tail := msgs[0], FrameAll(msgs[1..]);
      FirstHeaderWhole(chunks);
      HeaderCutStep(chunks, msgs);
      ReadSpecOfFrame(chunks, data, tail);
      if srv.parse(data).Some? {
        var (st', r) := HandleRequest(srv, st, srv.parse(data).value);
        ServeAnswersInOrder(srv, st', Drop(chunks, |Frame(data)|), msgs[1..]);
        var rs := Replies(srv, st', msgs[1..]);
        assert ([r] + rs)[1..] == rs;
      }
    }
  }

  /** The state when request `i` is handled, by the handlers of the earlier ones alone. */
  function StateAt<S, R>(srv: Server<S, R>, st: S, reqs: seq<Request>): S {
    if reqs == [] then st
    else
      var (before, req) := (StateAt(srv, st, reqs[..|reqs| - 1]), reqs[|reqs| - 1]);
      if Known(srv, req) then srv.handle(before, req).0 else before
  }

  /** The requests of some messages, up to the first that is not JSON. */
  function Requests<S, R>(srv: Server<S, R>, msgs: seq<seq<byte>>): (reqs: seq<Request>) {
    if msgs == [] || srv.parse(msgs[0]).None? then []
    else [srv.parse(msgs[0]).value] + Requests(srv, msgs[1..])
  }

  lemma {:induction false} StateAtCons<S, R>(srv: Server<S, R>, st: S, req: Request, reqs: seq<Request>)
    ensures StateAt(srv, st, [req] + reqs)
         == StateAt(srv, if Known(srv, req) then srv.handle(st, req).0 else st, reqs)
  {
    var all := [req] + reqs;
    if reqs == [] {
      assert all[..0] == [];
    } else {
      assert all[..|all| - 1] == [req] + reqs[..|reqs| - 1] && all[|all| - 1] == reqs[|reqs| - 1];
      StateAtCons(srv, st, req, reqs[..|reqs| - 1]);
    }
  }

  /** Over every sequence of messages: there is one reply for each request, and reply `i`
      carries the results, the error text and the file of its own handler, run on the state
      that the handlers of the earlier requests left. */
  lemma {:induction false} RepliesAre<S, R>(srv: Server<S, R>, st: S, msgs: seq<seq<byte>>, i: nat)
    requires i < |Requests(srv, msgs)|
    ensures |Replies(srv, st, msgs)| == |Requests(srv, msgs)|
    ensures var (reqs, r) := (Requests(srv, msgs), Replies(srv, st, msgs)[i]);
            var hr := srv.handle(StateAt(srv, st, reqs[..i]), reqs[i]).1;
            if Known(srv, reqs[i]) then
              && r.file == hr.file && r.response.results == hr.results
              && (r.response.success <==> hr.err.None?)
              && r.response.error == (if hr.err.Some? then hr.err.value else "")
            else !r.file && !r.response.success && r.response.results == None
    decreases |msgs|
  {
    var (req, rest) := (srv.parse(msgs[0]).value, Requests(srv, msgs[1..]));
    var st' := HandleRequest(srv, st, req).0;
    ReplyCount(srv, st', msgs[1..]);
    if i > 0 {
      RepliesAre(srv, st', msgs[1..], i - 1);
      assert ([req] + rest)[..i] == [req] + rest[..i - 1];
      StateAtCons(srv, st, req, rest[..i - 1]);
    }
    hide StateAt;
  }

  lemma {:induction false} ReplyCount<S, R>(srv: Server<S, R>, st: S, msgs: seq<seq<byte>>)
    ensures |Replies(srv, st, msgs)| == |Requests(srv, msgs)|
    decreases |msgs|
  {
    if msgs != [] && srv.parse(msgs[0]).Some? {
      ReplyCount(srv, HandleRequest(srv, st, srv.parse(msgs[0]).value).0, msgs[1..]);
    }
  }

  /** What a client does that knows which of its requests return a file: take the byte that
      comes with the file, then a frame. */
  function ClientReads(files: seq<bool>, s: seq<byte>): Option<seq<seq<byte>>>
    decreases |files|
  {
    if files == [] then Some([])
    else if files[0] && s == [] then None
    else
      var body := if files[0] then s[1..] else s;
      if |body| < HEADER_LENGTH || |body| < HEADER_LENGTH + Get32(body[..4]) then None
      else
        var end := HEADER_LENGTH + Get32(body[..4]);
        var rest := ClientReads(files[1..], body[end..]);
        if rest.None? then None else Some([body[HEADER_LENGTH..end]] + rest.value)
  }

  function Files<R>(rs: seq<Reply<R>>): seq<bool> {
    if rs == [] then [] else [rs[0].file] + Files(rs[1..])
  }

  function Texts<S, R>(srv: Server<S, R>, rs: seq<Reply<R>>): seq<seq<byte>> {
    if rs == [] then [] else [srv.marshal(rs[0].response)] + Texts(srv, rs[1..])
  }

  ghost predicate TextsFramable<S, R>(srv: Server<S, R>, rs: seq<Reply<R>>) {
    forall i :: 0 <= i < |rs| ==> Framable(srv.marshal(rs[i].response))
  }

  /** Such a client gets every response back as it was marshalled. */
  lemma {:induction false} RepliesDecodable<S, R>(srv: Server<S, R>, rs: seq<Reply<R>>)
    requires TextsFramable(srv, rs)
    ensures ClientReads(Files(rs), EncodeReplies(srv, rs)) == Some(Texts(srv, rs))
  {
    hide Frame, Framable;
    if rs != [] {
      assert Framable(srv.marshal(rs[0].response));
      assert forall i :: 1 <= i < |rs| ==> rs[i] == rs[1..][i - 1];
      RepliesDecodable(srv, rs[1..]);
      ClientStep(rs[0].file, Files(rs[1..]), srv.marshal(rs[0].response), EncodeReplies(srv, rs[1..]));
      hide ClientReads;
    }
  }

  lemma ClientStep(file: bool, files: seq<bool>, data: seq<byte>, tail: seq<byte>)
    requires Framable(data)
    ensures ClientReads([file] + files, (if file then [FILE_TAG] else []) + Frame(data) + tail)
         == match ClientReads(files, tail) case None => None case Some(rest) => Some([data] + rest)
  {
    var s := (if file then [FILE_TAG] else []) + Frame(data) + tail;
    OneReply(data, tail);
    hide Frame;
    assert (if file then s[1..] else s) == Frame(data) + tail;
    assert ([file] + files)[1..] == files;
  }

  lemma OneReply(data: seq<byte>, tail: seq<byte>)
    requires Framable(data)
    ensures var body := Frame(data) + tail;
            && |body| >= HEADER_LENGTH + |data| && Get32(body[..4]) == |data|
            && body[HEADER_LENGTH..HEADER_LENGTH + |data|] == data && body[HEADER_LENGTH + |data|..] == tail
  {
    FrameParts(data);
    var body := Frame(data) + tail;
    assert body[..4] == Frame(data)[..4] && |data| % TWO_TO_THE_32 == |data|;
    assert body[HEADER_LENGTH..HEADER_LENGTH + |data|] == Frame(data)[HEADER_LENGTH..];
    hide Frame;
  }

  lemma FramePrefixFree(a: seq<byte>, s: seq<byte>, b: seq<byte>, t: seq<byte>)
    requires Framable(a) && Framable(b) && Frame(a) + s == Frame(b) + t
    ensures a == b && s == t
  {
    OneReply(a, s);
    OneReply(b, t);
  }
}
