/** The whole I/O path as a step system: the routing table, the goroutine that reads
    frames from the VM, one socket per session cut into arbitrary reads, one shim per
    session, and stdin going the other way.  Steps are as fine as the source's locks
    and system calls, and any of them may come next. */
module Multiplexer {
  import opened BigEndian
  import opened IoFrame
  import opened Option
  import opened Shim
  import opened Vm

  /** A session and the shim behind it.  `born` and `gone` are positions in the log of
      frames the VM has sent: the session had its routes in between. */
  datatype Endpoint = Endpoint(
    session: Session, born: nat, gone: Option<nat>, open: bool,
    fifo: seq<byte>, buf: seq<byte>, shim: ShimState, taken: nat,
    up: seq<Frame>, typed: seq<Frame>)

  /** ioHyperToClients: waiting for a frame; past findSession with a frame to write;
      or out of its loop, after a failed write of a frame for `lost` or a failed read. */
  datatype Router = Idle | Holding(id: nat, frame: Frame) | Stopped(lost: Option<nat>)

  datatype System = System(
    table: Table, ends: seq<Endpoint>, router: Router, log: seq<Frame>,
    vmLost: bool, hyper: seq<(nat, Frame)>)

  function Init(): System {
    System(Table(1, map[]), [], Idle, [], false, [])
  }

  datatype Step =
    | AllocateIo(n: int64, clientID: uint64)  // AllocateIo under the lock, then the shim is started
    | Lookup(frame: Frame)                    // ReadIoMessage, then findSession under the lock
    | Deliver                                 // SendIoMessageWithConn succeeds
    | WriteError                              // ... or fails, which ends the loop
    | ReadError                               // the VM is gone: vmLost is closed
    | ShimRead(id: nat, k: nat)               // one read(2) of k bytes in the shim
    | CloseIo(id: nat)                        // CloseIo at the session's base number
    | Shutdown                                // Close, once vmLost is closed
    | Stdin(id: nat, data: seq<byte>)         // handle_stdin in the shim
    | Forward(id: nat)                        // one turn of ioClientToHyper

  /** Bytes the message being read will take, as far as its first bytes tell. */
  function Need(buf: seq<byte>): nat {
    if |buf| < STREAM_HEADER_SIZE then STREAM_HEADER_SIZE
    else Get32(buf[STREAM_HEADER_LENGTH_OFFSET..STREAM_HEADER_SIZE])
  }

  ghost predicate Enabled(s: System, a: Step) {
    match a
    case AllocateIo(n, _) => 1 <= n <= 2 && s.table.next + n <= TWO_TO_THE_31
    case Lookup(f) => s.router.Idle? && WellSized(f)
    case Deliver => s.router.Holding? && s.router.id < |s.ends| && s.ends[s.router.id].open && WellSized(s.router.frame)
    case WriteError => s.router.Holding?
    case ReadError => s.router.Idle?
    case ShimRead(id, k) =>
      && id < |s.ends| && s.ends[id].shim.status.None?
      && 1 <= k <= |s.ends[id].fifo| && k <= BUFSIZ && |s.ends[id].buf| + k <= Need(s.ends[id].buf)
    case CloseIo(id) => id < |s.ends| && s.ends[id].gone.None?
    case Shutdown => s.vmLost
    case Stdin(id, data) => id < |s.ends| && s.ends[id].shim.status.None? && |data| <= BUFSIZ
    case Forward(id) => id < |s.ends| && s.ends[id].open && s.ends[id].up != []
  }

  /** The shim after one read: a whole message is acted upon at once. */
  function Feed(e: Endpoint, k: nat): Endpoint
    requires k <= |e.fifo|
  {
    var buf := e.buf + e.fifo[..k];
    if |buf| == Need(buf) && |buf| >= STREAM_HEADER_SIZE then
      e.(fifo := e.fifo[k..], buf := [], taken := e.taken + 1,
         shim := Consume(e.shim, Frame(Get64(buf[..8]), buf[STREAM_HEADER_SIZE..])))
    else e.(fifo := e.fifo[k..], buf := buf)
  }

  function CutOff(e: Endpoint, now: nat): Endpoint {
    if e.gone.Some? then e else e.(gone := Some(now), open := false)
  }

  ghost function Apply(s: System, a: Step): System
    requires Enabled(s, a)
  {
    match a
    case AllocateIo(n, clientID) =>
      var io := s.table.next;
      var shimSeq := ShimSeqNo(io);
      s.(table := Allocate(s.table, n, |s.ends|, clientID),
         ends := s.ends + [Endpoint(Session(|s.ends|, n, io, clientID), |s.log|, None, true, [], [],
                                    Start(if shimSeq.Some? then shimSeq.value else 0), 0, [], [])])
    case Lookup(f) =>
      s.(log := s.log + [f],
         router := if f.stream in s.table.routes then Holding(s.table.routes[f.stream].id, f) else Idle)
    case Deliver =>
      var e := s.ends[s.router.id];
      s.(ends := s.ends[s.router.id := e.(fifo := e.fifo + Encode(s.router.frame))], router := Idle)
    case WriteError => s.(router := Stopped(Some(s.router.id)))
    case ReadError => s.(router := Stopped(None), vmLost := true)
    case ShimRead(id, k) => s.(ends := s.ends[id := Feed(s.ends[id], k)])
    case CloseIo(id) =>
      s.(table := Remove(s.table, s.ends[id].session.ioBase), ends := s.ends[id := CutOff(s.ends[id], |s.log|)])
    case Shutdown =>
      s.(table := s.table.(routes := map[]),
         ends := seq(|s.ends|, i requires 0 <= i < |s.ends| => CutOff(s.ends[i], |s.log|)))
    case Stdin(id, data) =>
      var e, f := s.ends[id], Frame(s.ends[id].shim.io, data);
      s.(ends := s.ends[id := e.(up := e.up + [f], typed := e.typed + [f])])
    case Forward(id) =>
      var e := s.ends[id];
      if e.up[0].stream == e.session.ioBase then
        s.(ends := s.ends[id := e.(up := e.up[1..])], hyper := s.hyper + [(id, e.up[0])])
      else s.(ends := s.ends[id := e.(up := e.up[1..], open := false)])
  }

  ghost predicate IsRun(steps: seq<Step>)
    decreases |steps|, 0
  {
    steps == [] ||
    (IsRun(steps[..|steps| - 1]) && Enabled(After(steps[..|steps| - 1]), steps[|steps| - 1]))
  }

  ghost function After(steps: seq<Step>): System
    requires IsRun(steps)
    decreases |steps|, 1
  {
    if steps == [] then Init() else Apply(After(steps[..|steps| - 1]), steps[|steps| - 1])
  }

  // ------------------------------------------------------------------
  // What a session is owed.

  /** The frames of a log that carry one of the session's numbers. */
  function Due(log: seq<Frame>, s: Session): seq<Frame> {
    if log == [] then []
    else Due(log[..|log| - 1], s) + if s.Owns(log[|log| - 1].stream) then [log[|log| - 1]] else []
  }

  function Until(e: Endpoint, log: seq<Frame>): nat {
    if e.gone.Some? then e.gone.value else |log|
  }

  predicate Placed(e: Endpoint, log: seq<Frame>) {
    e.born <= Until(e, log) <= |log|
  }

  /** The frames the VM sent while the session had its routes. */
  function Window(e: Endpoint, log: seq<Frame>): seq<Frame>
    requires Placed(e, log)
  {
    log[e.born..Until(e, log)]
  }

  /** Of those, the ones the proxy has written to the session's socket; `owes` says
      that the last one is still in the router's hands or was lost there. */
  function Sent(e: Endpoint, log: seq<Frame>, owes: bool): seq<Frame>
    requires Placed(e, log)
  {
    var due := Due(Window(e, log), e.session);
    if owes && due != [] then due[..|due| - 1] else due
  }

  predicate Owes(r: Router, i: nat) {
    (r.Holding? && r.id == i) || r == Stopped(Some(i))
  }

  function Forwarded(hyper: seq<(nat, Frame)>, i: nat): seq<Frame> {
    if hyper == [] then []
    else Forwarded(hyper[..|hyper| - 1], i) + if hyper[|hyper| - 1].0 == i then [hyper[|hyper| - 1].1] else []
  }

  /** Bytes on their way: what the shim has of the current message and what it has not
      read yet are the encoding of the frames still to be handled. */
  ghost predicate Channel(rest: seq<Frame>, buf: seq<byte>, fifo: seq<byte>) {
    && AllWellSized(rest)
    && buf + fifo == EncodeAll(rest)
    && (rest != [] ==> |buf| < |Encode(rest[0])|)
  }

  lemma ChannelAppend(rest: seq<Frame>, buf: seq<byte>, fifo: seq<byte>, f: Frame)
    requires Channel(rest, buf, fifo) && WellSized(f)
    ensures Channel(rest + [f], buf, fifo + Encode(f))
  {
    EncodeOne(f);
    assert rest == [] ==> EncodeAll(rest) == [];
    hide Encode, EncodeAll, WellSized;
    EncodeAllAppend(rest, [f]);
    AppendBytes(buf, fifo, Encode(f));
    assert (rest + [f])[0] == if rest == [] then f else rest[0];
  }

  lemma EncodeOne(f: Frame)
    ensures EncodeAll([f]) == Encode(f)
  {
    assert [f][1..] == [] && EncodeAll([]) == [];
    hide Encode;
    assert Encode(f) + [] == Encode(f);
  }

  lemma AppendBytes(buf: seq<byte>, fifo: seq<byte>, more: seq<byte>)
    ensures buf + (fifo + more) == (buf + fifo) + more
  {
  }

  /** What a first part of a frame's bytes tells the reader. */
  lemma PrefixOfFrame(f: Frame, tail: seq<byte>, buf: seq<byte>)
    requires WellSized(f) && buf <= Encode(f) + tail
    ensures |buf| >= STREAM_HEADER_SIZE ==> Need(buf) == |Encode(f)|
    ensures |buf| == |Encode(f)| ==> buf == Encode(f) && Frame(Get64(buf[..8]), buf[STREAM_HEADER_SIZE..]) == f
  {
    HeaderOfEncode(f, tail);
    var all := Encode(f) + tail;
    if |buf| >= STREAM_HEADER_SIZE {
      assert buf[STREAM_HEADER_LENGTH_OFFSET..STREAM_HEADER_SIZE] == all[STREAM_HEADER_LENGTH_OFFSET..STREAM_HEADER_SIZE];
      assert buf[..8] == all[..8];
    }
    if |buf| == |Encode(f)| {
      assert buf == all[..|buf|];
    }
  }

  /** A read inside a frame never runs past its end, and the message is whole exactly
      when it reaches it. */
  lemma ReadInFrame(f: Frame, tail: seq<byte>, buf: seq<byte>, fifo: seq<byte>, k: nat)
    requires WellSized(f) && buf + fifo == Encode(f) + tail && |buf| < |Encode(f)|
    requires 1 <= k <= |fifo| && |buf| + k <= Need(buf)
    ensures buf + fifo[..k] + fifo[k..] == buf + fifo
    ensures |buf| + k <= |Encode(f)|
    ensures |buf| + k == |Encode(f)| ==> buf + fifo[..k] == Encode(f) && fifo[k..] == tail
    ensures |buf| + k >= STREAM_HEADER_SIZE ==> Need(buf + fifo[..k]) == |Encode(f)|
  {
    var b := buf + fifo[..k];
    assert b + fifo[k..] == buf + fifo;
    PrefixOfFrame(f, tail, buf);
    PrefixOfFrame(f, tail, b);
    if |b| == |Encode(f)| {
      assert fifo[k..] == (Encode(f) + tail)[|b|..];
    }
  }

  /** One read either leaves the same frames to come, or completes exactly the first. */
  lemma ChannelFeed(rest: seq<Frame>, e: Endpoint, k: nat)
    requires Channel(rest, e.buf, e.fifo)
    requires 1 <= k <= |e.fifo| && |e.buf| + k <= Need(e.buf)
    ensures rest != []
    ensures |e.buf| + k < |Encode(rest[0])| ==>
              Feed(e, k) == e.(fifo := e.fifo[k..], buf := e.buf + e.fifo[..k])
              && Channel(rest, e.buf + e.fifo[..k], e.fifo[k..])
    ensures |e.buf| + k >= |Encode(rest[0])| ==>
              Feed(e, k) == e.(fifo := e.fifo[k..], buf := [], taken := e.taken + 1, shim := Consume(e.shim, rest[0]))
              && Channel(rest[1..], [], e.fifo[k..])
  {
    if rest == [] { assert false; }
    var f, tail := rest[0], EncodeAll(rest[1..]);
    ReadInFrame(f, tail, e.buf, e.fifo, k);
    if |e.buf| + k == |Encode(f)| {
      PrefixOfFrame(f, [], Encode(f));
      assert [] + e.fifo[k..] == tail;
    }
  }

  // ------------------------------------------------------------------
  // The invariant.

  ghost predicate EndOk(e: Endpoint, i: nat, next: int, log: seq<Frame>, owes: bool, forwarded: seq<Frame>) {
    && e.session.id == i
    && 1 <= e.session.nStreams <= 2
    && 1 <= e.session.ioBase && e.session.ioBase + e.session.nStreams <= next
    && Placed(e, log)
    && (owes ==> Due(Window(e, log), e.session) != [])
    && e.taken <= |Sent(e, log, owes)|
    && Channel(Sent(e, log, owes)[e.taken..], e.buf, e.fifo)
    && e.shim == Run(Start(e.session.ioBase), Sent(e, log, owes)[..e.taken])
    && forwarded + e.up == e.typed
    && (forall f :: f in e.typed ==> f.stream == e.session.ioBase)
  }

  /** Every route leads to the endpoint of its session, which is not cut off. */
  ghost predicate RoutesLead(t: Table, ends: seq<Endpoint>) {
    forall k :: k in t.routes ==>
      && t.routes[k].id < |ends|
      && ends[t.routes[k].id].session == t.routes[k]
      && ends[t.routes[k].id].gone.None?
  }

  /** An endpoint that is not cut off has its base route. */
  ghost predicate EndsRouted(t: Table, ends: seq<Endpoint>) {
    forall i :: 0 <= i < |ends| && ends[i].gone.None? ==>
      ends[i].session.ioBase in t.routes && t.routes[ends[i].session.ioBase] == ends[i].session
  }

  /** Later sessions lie wholly above earlier ones, cut off or not. */
  ghost predicate Ordered(ends: seq<Endpoint>) {
    forall i, j :: 0 <= i < j < |ends| ==>
      ends[i].session.ioBase + ends[i].session.nStreams <= ends[j].session.ioBase
  }

  ghost predicate RoutesOk(s: System) {
    && Sound(s.table) && s.table.next <= TWO_TO_THE_31
    && RoutesLead(s.table, s.ends) && EndsRouted(s.table, s.ends) && Ordered(s.ends)
  }

  ghost predicate RouterOk(s: System) {
    && (s.router.Holding? ==>
          && s.router.id < |s.ends| && Placed(s.ends[s.router.id], s.log)
          && var due := Due(Window(s.ends[s.router.id], s.log), s.ends[s.router.id].session);
             due != [] && due[|due| - 1] == s.router.frame)
    && (s.router.Stopped? && s.router.lost.Some? ==> s.router.lost.value < |s.ends|)
    && (s.vmLost <==> s.router == Stopped(None))
    && (forall h :: h in s.hyper ==> h.0 < |s.ends|)
    && AllWellSized(s.log)
  }

  ghost predicate EndAt(s: System, i: nat)
    requires i < |s.ends|
  {
    EndOk(s.ends[i], i, s.table.next, s.log, Owes(s.router, i), Forwarded(s.hyper, i))
  }

  ghost predicate EndsOk(s: System) {
    forall i :: 0 <= i < |s.ends| ==> EndAt(s, i)
  }

  ghost predicate Inv(s: System) {
    RoutesOk(s) && RouterOk(s) && EndsOk(s)
  }

  lemma {:induction false} ForwardedNone(hyper: seq<(nat, Frame)>, i: nat)
    requires forall h :: h in hyper ==> h.0 < i
    ensures Forwarded(hyper, i) == []
  {
    if hyper != [] { ForwardedNone(hyper[..|hyper| - 1], i); }
  }

  lemma ForwardedAppend(hyper: seq<(nat, Frame)>, id: nat, f: Frame, i: nat)
    ensures Forwarded(hyper + [(id, f)], i) == Forwarded(hyper, i) + if id == i then [f] else []
  {
    assert (hyper + [(id, f)])[..|hyper|] == hyper;
  }

  // Which parts of a step leave the routing alone, and which leave an endpoint alone.

  ghost predicate SameRoutes(s: System, t: System) {
    && t.table == s.table && |t.ends| == |s.ends|
    && forall i :: 0 <= i < |s.ends| ==> t.ends[i].session == s.ends[i].session && t.ends[i].gone == s.ends[i].gone
  }

  lemma RoutesSame(s: System, t: System)
    requires RoutesOk(s) && SameRoutes(s, t)
    ensures RoutesOk(t)
  {
  }

  lemma EndSame(s: System, t: System, i: nat)
    requires i < |s.ends| && i < |t.ends| && EndAt(s, i)
    requires t.ends[i] == s.ends[i] && t.log == s.log && s.table.next <= t.table.next
    requires Owes(t.router, i) == Owes(s.router, i) && Forwarded(t.hyper, i) == Forwarded(s.hyper, i)
    ensures EndAt(t, i)
  {
  }

  // AllocateIo

  /** The routes after an allocation: the old ones, and the new range. */
  lemma AllocateRoutes(t: Table, n: int64, id: nat, clientID: uint64, k: uint64)
    requires 1 <= t.next && 1 <= n <= 2 && t.next + n <= TWO_TO_THE_31
    requires forall j :: j in t.routes ==> j < t.next
    ensures var u := Allocate(t, n, id, clientID);
            && (k in u.routes <==> k in t.routes || t.next <= k < t.next + n)
            && (k in t.routes ==> u.routes[k] == t.routes[k])
            && (t.next <= k < t.next + n ==> u.routes[k] == Session(id, n, t.next, clientID))
  {
    SpanWithoutWrap(t.next, n);
  }

  lemma AllocateIoSound(s: System, n: int64, clientID: uint64)
    requires RoutesOk(s) && Enabled(s, AllocateIo(n, clientID))
    ensures Sound(Allocate(s.table, n, |s.ends|, clientID))
    ensures forall j :: j in s.table.routes ==> j < s.table.next
  {
    AllocateKeepsSound(s.table, n, |s.ends|, clientID);
    assert forall j :: j in s.table.routes ==> s.table.routes[j].Owns(j);
  }

  lemma AllocateIoLead(t: Table, ends: seq<Endpoint>, n: int64, clientID: uint64, e: Endpoint)
    requires 1 <= t.next && 1 <= n <= 2 && t.next + n <= TWO_TO_THE_31
    requires forall j :: j in t.routes ==> j < t.next
    requires RoutesLead(t, ends) && EndsRouted(t, ends)
    requires e.session == Session(|ends|, n, t.next, clientID) && e.gone.None?
    ensures RoutesLead(Allocate(t, n, |ends|, clientID), ends + [e])
    ensures EndsRouted(Allocate(t, n, |ends|, clientID), ends + [e])
  {
    forall k { AllocateRoutes(t, n, |ends|, clientID, k); }
  }

  lemma AllocateIoRoutes(s: System, n: int64, clientID: uint64)
    requires RoutesOk(s) && EndsOk(s) && Enabled(s, AllocateIo(n, clientID))
    ensures RoutesOk(Apply(s, AllocateIo(n, clientID)))
  {
    var t := Apply(s, AllocateIo(n, clientID));
    AllocateIoSound(s, n, clientID);
    AllocateIoLead(s.table, s.ends, n, clientID, t.ends[|s.ends|]);
    forall i | 0 <= i < |s.ends|
      ensures s.ends[i].session.ioBase + s.ends[i].session.nStreams <= s.table.next
    {
      assert EndAt(s, i);
    }
  }

  lemma AllocateIoEnd(s: System, n: int64, clientID: uint64)
    requires RouterOk(s) && 1 <= s.table.next && Enabled(s, AllocateIo(n, clientID))
    ensures EndAt(Apply(s, AllocateIo(n, clientID)), |s.ends|)
  {
    var t := Apply(s, AllocateIo(n, clientID));
    ShimSeqNoIff(s.table.next);
    ForwardedNone(s.hyper, |s.ends|);
    assert Window(t.ends[|s.ends|], t.log) == [];
  }

  lemma AllocateIoKeeps(s: System, n: int64, clientID: uint64)
    requires Inv(s) && Enabled(s, AllocateIo(n, clientID))
    ensures Inv(Apply(s, AllocateIo(n, clientID)))
  {
    var t := Apply(s, AllocateIo(n, clientID));
    AllocateIoRouter(s, n, clientID);
    hide Apply, EndOk, RouterOk, Owes, Forwarded;
    assert RoutesOk(s) && 1 <= s.table.next;
    AllocateIoRoutes(s, n, clientID);
    hide RoutesOk;
    AllocateIoEnd(s, n, clientID);
    forall i | 0 <= i < |t.ends|
      ensures EndAt(t, i)
    {
      if i < |s.ends| {
        EndOfInv(s, i);
        EndSame(s, t, i);
      }
    }
  }

  lemma AllocateIoRouter(s: System, n: int64, clientID: uint64)
    requires RouterOk(s) && Enabled(s, AllocateIo(n, clientID))
    ensures var t := Apply(s, AllocateIo(n, clientID));
            && RouterOk(t)
            && |t.ends| == |s.ends| + 1 && (forall i :: 0 <= i < |s.ends| ==> t.ends[i] == s.ends[i])
            && t.log == s.log && t.router == s.router && t.hyper == s.hyper && t.table.next >= s.table.next
  {
    hide Allocate, ShimSeqNo, Due, AllWellSized;
    LogStep(s, AllocateIo(n, clientID));
  }

  // Lookup

  lemma DueAppend(log: seq<Frame>, f: Frame, s: Session)
    ensures Due(log + [f], s) == Due(log, s) + if s.Owns(f.stream) then [f] else []
  {
    assert (log + [f])[..|log|] == log;
  }

  /** A frame has a route to session `i` exactly when the session is still in the table
      and the number is one of its own. */
  lemma RoutedIff(s: System, f: Frame, i: nat)
    requires RoutesOk(s) && i < |s.ends| && s.ends[i].session.id == i && s.ends[i].session.nStreams >= 1
    ensures (f.stream in s.table.routes && s.table.routes[f.stream].id == i)
       <==> (s.ends[i].gone.None? && s.ends[i].session.Owns(f.stream))
  {
    var session := s.ends[i].session;
    if s.ends[i].gone.None? && session.Owns(f.stream) {
      assert s.table.routes[session.ioBase].Owns(f.stream);
    }
  }

  /** Reading one more frame: it becomes owed to the one session with a route for it,
      and what everybody has been sent stays the same. */
  lemma LookupEnd(e: Endpoint, i: nat, next: int, log: seq<Frame>, f: Frame, fwd: seq<Frame>)
    requires EndOk(e, i, next, log, false, fwd)
    ensures EndOk(e, i, next, log + [f], e.gone.None? && e.session.Owns(f.stream), fwd)
    ensures e.gone.None? && e.session.Owns(f.stream) ==>
              var due := Due(Window(e, log + [f]), e.session); due != [] && due[|due| - 1] == f
  {
    if e.gone.None? {
      assert Window(e, log + [f]) == Window(e, log) + [f];
      DueAppend(Window(e, log), f, e.session);
    } else {
      assert Window(e, log + [f]) == Window(e, log);
    }
    hide Channel, Run, Due;
    assert Sent(e, log + [f], e.gone.None? && e.session.Owns(f.stream)) == Sent(e, log, false);
    hide Sent, Window;
  }

  lemma LookupAt(s: System, f: Frame, i: nat)
    requires RoutesOk(s) && Enabled(s, Lookup(f)) && i < |s.ends| && EndAt(s, i)
    ensures EndAt(Apply(s, Lookup(f)), i)
    ensures Owes(Apply(s, Lookup(f)).router, i) ==>
              var due := Due(Window(s.ends[i], s.log + [f]), s.ends[i].session); due != [] && due[|due| - 1] == f
  {
    RoutedIff(s, f, i);
    LookupEnd(s.ends[i], i, s.table.next, s.log, f, Forwarded(s.hyper, i));
  }

  lemma LookupKeeps(s: System, f: Frame)
    requires Inv(s) && Enabled(s, Lookup(f))
    ensures Inv(Apply(s, Lookup(f)))
  {
    var t := Apply(s, Lookup(f));
    RoutesSame(s, t);
    forall i | 0 <= i < |s.ends|
      ensures EndAt(t, i)
    {
      assert EndAt(s, i);
      LookupAt(s, f, i);
    }
    if f.stream in s.table.routes {
      assert EndAt(s, s.table.routes[f.stream].id);
      LookupAt(s, f, s.table.routes[f.stream].id);
    }
  }

  // Deliver, WriteError, ReadError

  lemma DeliverEnd(e: Endpoint, i: nat, next: int, log: seq<Frame>, f: Frame, fwd: seq<Frame>)
    requires EndOk(e, i, next, log, true, fwd) && WellSized(f)
    requires var due := Due(Window(e, log), e.session); due[|due| - 1] == f
    ensures EndOk(e.(fifo := e.fifo + Encode(f)), i, next, log, false, fwd)
  {
    hide Channel, Run, Due, Encode, WellSized;
    var sent := Sent(e, log, true);
    assert Sent(e.(fifo := e.fifo + Encode(f)), log, false) == sent + [f];
    hide Sent, Window;
    ChannelAppend(sent[e.taken..], e.buf, e.fifo, f);
    assert (sent + [f])[e.taken..] == sent[e.taken..] + [f];
    assert (sent + [f])[..e.taken] == sent[..e.taken];
  }

  lemma DeliverKeeps(s: System)
    requires Inv(s) && Enabled(s, Deliver)
    ensures Inv(Apply(s, Deliver))
  {
    var t := Apply(s, Deliver);
    RoutesSame(s, t);
    forall i | 0 <= i < |s.ends|
      ensures EndAt(t, i)
    {
      assert EndAt(s, i);
      if i == s.router.id { DeliverEnd(s.ends[i], i, s.table.next, s.log, s.router.frame, Forwarded(s.hyper, i)); } else { EndSame(s, t, i); }
    }
  }

  lemma RouterStopKeeps(s: System, a: Step)
    requires Inv(s) && Enabled(s, a) && (a.WriteError? || a.ReadError?)
    ensures Inv(Apply(s, a))
  {
    var t := Apply(s, a);
    RoutesSame(s, t);
    forall i | 0 <= i < |s.ends|
      ensures EndAt(t, i)
    {
      assert EndAt(s, i);
      EndSame(s, t, i);
    }
  }

  // Steps of one session: ShimRead, Stdin, Forward

  lemma RouterSame(s: System, t: System)
    requires RouterOk(s) && SameRoutes(s, t) && t.router == s.router && t.log == s.log && t.vmLost == s.vmLost
    requires forall i :: 0 <= i < |s.ends| ==> t.ends[i].born == s.ends[i].born
    requires forall h :: h in t.hyper ==> h.0 < |s.ends|
    ensures RouterOk(t)
  {
    if s.router.Holding? {
      var e, d := s.ends[s.router.id], t.ends[s.router.id];
      assert Placed(d, t.log) && Window(d, t.log) == Window(e, s.log);
    }
  }

  lemma OneEndKeeps(s: System, t: System, id: nat)
    requires Inv(s) && id < |s.ends| && |t.ends| == |s.ends|
    requires t == s.(ends := t.ends, hyper := t.hyper)
    requires forall i :: 0 <= i < |s.ends| && i != id ==>
               t.ends[i] == s.ends[i] && Forwarded(t.hyper, i) == Forwarded(s.hyper, i)
    requires forall h :: h in t.hyper ==> h.0 < |s.ends|
    requires t.ends[id].session == s.ends[id].session && t.ends[id].born == s.ends[id].born
    requires t.ends[id].gone == s.ends[id].gone && EndAt(t, id)
    ensures Inv(t)
  {
    RoutesSame(s, t);
    RouterSame(s, t);
    forall i | 0 <= i < |s.ends|
      ensures EndAt(t, i)
    {
      if i != id {
        assert EndAt(s, i);
        EndSame(s, t, i);
      }
    }
  }

  lemma ShimReadEnd(e: Endpoint, i: nat, next: int, log: seq<Frame>, owes: bool, fwd: seq<Frame>, k: nat)
    requires EndOk(e, i, next, log, owes, fwd)
    requires 1 <= k <= |e.fifo| && |e.buf| + k <= Need(e.buf)
    ensures EndOk(Feed(e, k), i, next, log, owes, fwd)
  {
    hide Feed, Need, Channel, Consume, Encode, Run, Due;
    var sent := Sent(e, log, owes);
    var rest := sent[e.taken..];
    ChannelFeed(rest, e, k);
    RunAppend(Start(e.session.ioBase), sent[..e.taken], rest[0]);
    assert Sent(Feed(e, k), log, owes) == sent;
    hide Sent, Window;
    assert sent[..e.taken + 1] == sent[..e.taken] + [rest[0]];
    assert rest[1..] == sent[e.taken + 1..];
  }

  lemma StdinEnd(e: Endpoint, i: nat, next: int, log: seq<Frame>, owes: bool, fwd: seq<Frame>, f: Frame)
    requires EndOk(e, i, next, log, owes, fwd) && f.stream == e.shim.io
    ensures EndOk(e.(up := e.up + [f], typed := e.typed + [f]), i, next, log, owes, fwd)
  {
    assert fwd + (e.up + [f]) == fwd + e.up + [f];
    assert Sent(e.(up := e.up + [f], typed := e.typed + [f]), log, owes) == Sent(e, log, owes);
  }

  /** The check on the session number never fails for a shim's own frames. */
  lemma ForwardEnd(e: Endpoint, i: nat, next: int, log: seq<Frame>, owes: bool, fwd: seq<Frame>)
    requires EndOk(e, i, next, log, owes, fwd) && e.up != []
    ensures e.up[0].stream == e.session.ioBase
    ensures EndOk(e.(up := e.up[1..]), i, next, log, owes, fwd + [e.up[0]])
  {
    assert e.typed[|fwd|] == e.up[0];
    assert fwd + [e.up[0]] + e.up[1..] == fwd + e.up;
    assert Sent(e.(up := e.up[1..]), log, owes) == Sent(e, log, owes);
  }

  lemma ShimReadKeeps(s: System, id: nat, k: nat)
    requires Inv(s) && Enabled(s, ShimRead(id, k))
    ensures Inv(Apply(s, ShimRead(id, k)))
  {
    var t := Apply(s, ShimRead(id, k));
    assert EndAt(s, id);
    ShimReadEnd(s.ends[id], id, s.table.next, s.log, Owes(s.router, id), Forwarded(s.hyper, id), k);
    OneEndKeeps(s, t, id);
  }

  lemma StdinKeeps(s: System, id: nat, data: seq<byte>)
    requires Inv(s) && Enabled(s, Stdin(id, data))
    ensures Inv(Apply(s, Stdin(id, data)))
  {
    var t := Apply(s, Stdin(id, data));
    assert EndAt(s, id);
    StdinEnd(s.ends[id], id, s.table.next, s.log, Owes(s.router, id), Forwarded(s.hyper, id), Frame(s.ends[id].shim.io, data));
    OneEndKeeps(s, t, id);
  }

  lemma ForwardKeeps(s: System, id: nat)
    requires Inv(s) && Enabled(s, Forward(id))
    ensures Inv(Apply(s, Forward(id)))
  {
    hide EndOk, RoutesOk, RouterOk, Due, Window, AllWellSized, Forwarded, EndsOk;
    var e := s.ends[id];
    EndOfInv(s, id);
    ForwardEnd(e, id, s.table.next, s.log, Owes(s.router, id), Forwarded(s.hyper, id));
    var t := s.(ends := s.ends[id := e.(up := e.up[1..])], hyper := s.hyper + [(id, e.up[0])]);
    assert Apply(s, Forward(id)) == t;
    hide Apply;
    forall i: nat { ForwardedAppend(s.hyper, id, e.up[0], i); }
    KnownSenders(s);
    OneEndKeeps(s, t, id);
  }

  lemma EndOfInv(s: System, i: nat)
    requires Inv(s) && i < |s.ends|
    ensures EndAt(s, i)
  {
    hide EndOk, RoutesOk, RouterOk;
  }

  lemma KnownSenders(s: System)
    requires Inv(s)
    ensures forall h :: h in s.hyper ==> h.0 < |s.ends|
  {
    hide RoutesOk, EndsOk;
  }

  // CloseIo, Shutdown

  lemma CutOffEnd(e: Endpoint, i: nat, next: int, log: seq<Frame>, owes: bool, fwd: seq<Frame>)
    requires EndOk(e, i, next, log, owes, fwd)
    ensures EndOk(CutOff(e, |log|), i, next, log, owes, fwd)
    ensures Window(CutOff(e, |log|), log) == Window(e, log)
  {
    assert Window(CutOff(e, |log|), log) == Window(e, log);
  }

  lemma CloseIoRoutes(s: System, id: nat)
    requires RoutesOk(s) && Enabled(s, CloseIo(id)) && s.ends[id].session.id == id
    ensures RoutesOk(Apply(s, CloseIo(id)))
  {
    var (base, t) := (s.ends[id].session.ioBase, Apply(s, CloseIo(id)));
    assert t.table == Remove(s.table, base) && t.table.next == s.table.next;
    assert t.ends == s.ends[id := t.ends[id]] && t.ends[id] == CutOff(s.ends[id], |s.log|);
    hide Apply, Sound, Remove, RoutesLead, EndsRouted, Ordered;
    assert base in s.table.routes && s.table.routes[base] == s.ends[id].session by { RoutedBase(s, id); }
    RemoveExactIff(s.table, base);
    WithoutSession(s.table, t.table, s.ends, id, t.ends[id]);
  }

  lemma RoutedBase(s: System, id: nat)
    requires RoutesOk(s) && Enabled(s, CloseIo(id))
    ensures var e := s.ends[id].session; e.ioBase in s.table.routes && s.table.routes[e.ioBase] == e
  {
    hide Sound, RoutesLead, Ordered;
  }

  /** Taking out the routes of one session, which is cut off with them. */
  lemma WithoutSession(t: Table, u: Table, ends: seq<Endpoint>, id: nat, e: Endpoint)
    requires Sound(t) && RoutesLead(t, ends) && EndsRouted(t, ends) && Ordered(ends)
    requires id < |ends| && e.session == ends[id].session && e.session.id == id && e.gone.Some?
    requires u.routes.Keys <= t.routes.Keys && forall j :: j in u.routes ==> u.routes[j] == t.routes[j]
    requires forall j :: j in t.routes ==> (j in u.routes <==> t.routes[j] != e.session)
    ensures RoutesLead(u, ends[id := e]) && EndsRouted(u, ends[id := e]) && Ordered(ends[id := e])
  {
    forall i | 0 <= i < |ends| && i != id && ends[i].gone.None?
      ensures ends[i].session.ioBase in u.routes && u.routes[ends[i].session.ioBase] == ends[i].session
    {
      OthersRouted(t, ends, id, i);
    }
    hide Sound;
  }

  lemma OthersRouted(t: Table, ends: seq<Endpoint>, id: nat, i: nat)
    requires Sound(t) && EndsRouted(t, ends) && Ordered(ends)
    requires id < |ends| && i < |ends| && i != id && ends[i].gone.None?
    ensures var s := ends[i].session; s.ioBase in t.routes && t.routes[s.ioBase] == s && s != ends[id].session
  {
    var s := ends[i].session;
    assert t.routes[s.ioBase].Owns(s.ioBase);
  }

  lemma CutOffRouter(s: System, t: System)
    requires RouterOk(s) && EndsOk(s) && |t.ends| == |s.ends|
    requires t == s.(ends := t.ends, table := t.table)
    requires forall i :: 0 <= i < |s.ends| ==> t.ends[i] == s.ends[i] || t.ends[i] == CutOff(s.ends[i], |s.log|)
    ensures RouterOk(t)
  {
    if s.router.Holding? {
      var id := s.router.id;
      assert EndAt(s, id);
      SameDue(s.ends[id], id, s.table.next, s.log, Owes(s.router, id), Forwarded(s.hyper, id));
    }
    hide EndOk, Due, Window, Placed, CutOff, Forwarded, AllWellSized, EndsOk;
  }

  lemma SameDue(e: Endpoint, i: nat, next: int, log: seq<Frame>, owes: bool, fwd: seq<Frame>)
    requires EndOk(e, i, next, log, owes, fwd)
    ensures var d := CutOff(e, |log|); Placed(d, log) && Window(d, log) == Window(e, log) && d.session == e.session
  {
    hide Channel, Run, Due;
    CutOffEnd(e, i, next, log, owes, fwd);
    hide Window;
  }

  lemma CutOffEnds(s: System, t: System)
    requires EndsOk(s) && |t.ends| == |s.ends|
    requires t == s.(ends := t.ends, table := t.table) && t.table.next == s.table.next
    requires forall i :: 0 <= i < |s.ends| ==> t.ends[i] == s.ends[i] || t.ends[i] == CutOff(s.ends[i], |s.log|)
    ensures EndsOk(t)
  {
    forall i | 0 <= i < |s.ends|
      ensures EndAt(t, i)
    {
      assert EndAt(s, i);
      CutOffEnd(s.ends[i], i, s.table.next, s.log, Owes(s.router, i), Forwarded(s.hyper, i));
    }
  }

  lemma CloseIoKeeps(s: System, id: nat)
    requires Inv(s) && Enabled(s, CloseIo(id))
    ensures Inv(Apply(s, CloseIo(id)))
  {
    var t := Apply(s, CloseIo(id));
    assert EndAt(s, id);
    CloseIoRoutes(s, id);
    CutOffRouter(s, t);
    CutOffEnds(s, t);
  }

  lemma ShutdownRoutes(s: System)
    requires RoutesOk(s) && Enabled(s, Shutdown)
    ensures RoutesOk(Apply(s, Shutdown))
  {
  }

  lemma ShutdownKeeps(s: System)
    requires Inv(s) && Enabled(s, Shutdown)
    ensures Inv(Apply(s, Shutdown))
  {
    var t := Apply(s, Shutdown);
    ShutdownRoutes(s);
    CutOffRouter(s, t);
    CutOffEnds(s, t);
  }

  lemma StepKeeps(s: System, a: Step)
    requires Inv(s) && Enabled(s, a)
    ensures Inv(Apply(s, a))
  {
    match a
    case AllocateIo(n, clientID) => AllocateIoKeeps(s, n, clientID);
    case Lookup(f) => LookupKeeps(s, f);
    case Deliver => DeliverKeeps(s);
    case WriteError => RouterStopKeeps(s, a);
    case ReadError => RouterStopKeeps(s, a);
    case CloseIo(id) => CloseIoKeeps(s, id);
    case Shutdown => ShutdownKeeps(s);
    case ShimRead(id, k) => ShimReadKeeps(s, id, k);
    case Stdin(id, data) => StdinKeeps(s, id, data);
    case Forward(id) => ForwardKeeps(s, id);
  }

  /** Every state of every run satisfies the invariant. */
  lemma {:induction false} RunKeeps(steps: seq<Step>)
    requires IsRun(steps)
    ensures Inv(After(steps))
  {
    if steps != [] {
      RunKeeps(steps[..|steps| - 1]);
      StepKeeps(After(steps[..|steps| - 1]), steps[|steps| - 1]);
    }
  }

  // ------------------------------------------------------------------
  // What the invariant says to a user of the system.

  /** Leaving out other sessions' frames loses nothing of an own stream, and leaves
      nothing of a foreign one. */
  lemma {:induction false} PayloadsOfDue(log: seq<Frame>, s: Session, stream: uint64)
    ensures Payloads(Due(log, s), stream) == if s.Owns(stream) then Payloads(log, stream) else []
  {
    if log != [] {
      var gs, f := log[..|log| - 1], log[|log| - 1];
      PayloadsOfDue(gs, s, stream);
      if s.Owns(f.stream) {
        PayloadsAppend(Due(gs, s), f, stream);
      } else {
        assert Due(log, s) == Due(gs, s);
      }
    }
  }

  /** Cutting the dues short is cutting the log short: at the frame that was next. */
  lemma {:induction false} DueCut(log: seq<Frame>, s: Session, t: nat) returns (m: nat)
    requires t <= |Due(log, s)|
    ensures m <= |log| && Due(log[..m], s) == Due(log, s)[..t]
    ensures t == |Due(log, s)| ==> m == |log|
    ensures t < |Due(log, s)| ==> m < |log| && log[m] == Due(log, s)[t]
  {
    if t == |Due(log, s)| {
      assert log[..|log|] == log;
      return |log|;
    }
    var gs := log[..|log| - 1];
    if t < |Due(gs, s)| {
      m := DueCut(gs, s, t);
      assert gs[..m] == log[..m];
    } else {
      m := |log| - 1;
    }
  }

  /** The number of own frames the shim has written out: those handled, up to but not
      including the one that made it exit. */
  ghost predicate Written(e: Endpoint, sent: seq<Frame>, t: nat)
  {
    && t <= e.taken <= |sent|
    && e.shim.out == Payloads(sent[..t], e.session.ioBase)
    && e.shim.err == Payloads(sent[..t], ErrSeq(e.session.ioBase))
    && (e.shim.status.None? ==> t == e.taken && !Exits(sent[..t], e.session.ioBase))
    && (e.shim.status.Some? ==> t < e.taken && ExitAt(sent[..e.taken], e.session.ioBase, t)
                                && e.shim.status.value == sent[t].payload[0])
  }

  lemma WrittenCount(e: Endpoint, i: nat, next: int, log: seq<Frame>, owes: bool, fwd: seq<Frame>) returns (t: nat)
    requires EndOk(e, i, next, log, owes, fwd)
    ensures Written(e, Sent(e, log, owes), t)
  {
    var sent, io := Sent(e, log, owes), e.session.ioBase;
    var handled := sent[..e.taken];
    if Exits(handled, io) {
      t :| 0 <= t < |handled| && ExitAt(handled, io, t);
      RunAtExit(handled, io, t);
      assert handled[..t] == sent[..t] && handled[t] == sent[t];
    } else {
      t := e.taken;
      RunBeforeExit(handled, io);
    }
  }

  /** Is everything the VM sent this session through the socket and the shim? */
  predicate Drained(e: Endpoint, owes: bool) {
    e.fifo == [] && e.buf == [] && !owes
  }

  /** With `w` what the VM sent while the session had its routes: stdout is the
      concatenation of the payloads in the first `m` frames tagged with the session's
      first number, stderr that of its second number if it has one and otherwise
      nothing.  A session that has not exited has had no exit frame, and if it is drained
      it has had everything; one that has exited stops at the exit frame of its own frames,
      which carries its status. */
  ghost predicate DeliveredUpTo(e: Endpoint, w: seq<Frame>, owes: bool, m: nat) {
    && m <= |w|
    && e.shim.out == Payloads(w[..m], e.session.ioBase)
    && e.shim.err == (if e.session.nStreams == 2 then Payloads(w[..m], ErrSeq(e.session.ioBase)) else [])
    && (e.shim.status.None? ==> !Exits(Due(w[..m], e.session), e.session.ioBase) && (Drained(e, owes) ==> m == |w|))
    && (e.shim.status.Some? ==>
          && m < |w| && e.session.Owns(w[m].stream) && w[m].payload == [e.shim.status.value]
          && ExitAt(Due(w[..m + 1], e.session), e.session.ioBase, |Due(w[..m], e.session)|))
  }

  lemma OutputUpTo(e: Endpoint, w: seq<Frame>, sent: seq<Frame>, t: nat, m: nat)
    requires Written(e, sent, t) && m <= |w| && sent[..t] == Due(w[..m], e.session)
    requires 1 <= e.session.nStreams <= 2 && e.session.ioBase < TWO_TO_THE_31
    ensures e.shim.out == Payloads(w[..m], e.session.ioBase)
    ensures e.shim.err == if e.session.nStreams == 2 then Payloads(w[..m], ErrSeq(e.session.ioBase)) else []
  {
    PayloadsOfDue(w[..m], e.session, e.session.ioBase);
    PayloadsOfDue(w[..m], e.session, ErrSeq(e.session.ioBase));
  }

  lemma EndDelivered(e: Endpoint, i: nat, next: int, log: seq<Frame>, owes: bool, fwd: seq<Frame>) returns (m: nat)
    requires EndOk(e, i, next, log, owes, fwd) && next <= TWO_TO_THE_31
    ensures DeliveredUpTo(e, Window(e, log), owes, m)
  {
    var w, sent := Window(e, log), Sent(e, log, owes);
    var due := Due(w, e.session);
    var t := WrittenCount(e, i, next, log, owes, fwd);
    m := DueCut(w, e.session, t);
    assert sent == due || sent == due[..|due| - 1];
    assert sent[..t] == due[..t];
    OutputUpTo(e, w, sent, t, m);
    if e.shim.status.None? {
      if Drained(e, owes) { AllTaken(e, sent); }
    } else {
      EndExited(e, w, sent, t, m);
    }
    hide Channel, Run, Payloads, Exits, ExitAt, Window, Sent;
  }

  lemma EndExited(e: Endpoint, w: seq<Frame>, sent: seq<Frame>, t: nat, m: nat)
    requires Written(e, sent, t) && e.shim.status.Some? && m < |w| && t < |Due(w, e.session)|
    requires Due(w[..m], e.session) == sent[..t] && w[m] == Due(w, e.session)[t] == sent[t]
    ensures e.session.Owns(w[m].stream) && w[m].payload == [e.shim.status.value]
    ensures ExitAt(Due(w[..m + 1], e.session), e.session.ioBase, |Due(w[..m], e.session)|)
  {
    var handled := sent[..e.taken];
    assert handled[t] == sent[t];
    DueOwned(w, e.session, t);
    ExitAtEnd(handled, e.session.ioBase, t);
    assert w[..m + 1][..m] == w[..m] && handled[..t + 1] == sent[..t] + [sent[t]];
    hide Payloads;
  }

  lemma AllTaken(e: Endpoint, sent: seq<Frame>)
    requires e.taken <= |sent| && e.buf == [] && e.fifo == [] && Channel(sent[e.taken..], e.buf, e.fifo)
    ensures e.taken == |sent|
  {
    if e.taken < |sent| {
      assert false;
    }
  }

  // ------------------------------------------------------------------
  // What happened, told by the steps alone.

  /** Every frame the VM sent. */
  function Frames(steps: seq<Step>): seq<Frame> {
    if steps == [] then []
    else
      var (before, a) := (Frames(steps[..|steps| - 1]), steps[|steps| - 1]);
      if a.Lookup? then before + [a.frame] else before
  }

  /** The allocations, in order, each with its count and its client: session i comes from
      the i-th. */
  function Allocations(steps: seq<Step>): seq<(int64, uint64)> {
    if steps == [] then []
    else
      var (before, a) := (Allocations(steps[..|steps| - 1]), steps[|steps| - 1]);
      if a.AllocateIo? then before + [(a.n, a.clientID)] else before
  }

  /** How many numbers some allocations take. */
  function Taken(all: seq<(int64, uint64)>): int {
    if all == [] then 0 else Taken(all[..|all| - 1]) + all[|all| - 1].0
  }

  /** Session i has lost its routes: it was closed, or everything was. */
  predicate Cut(steps: seq<Step>, i: nat) {
    steps != [] &&
    var (before, a) := (steps[..|steps| - 1], steps[|steps| - 1]);
    i < |Allocations(before)| && (Cut(before, i) || a == CloseIo(i) || a == Shutdown)
  }

  /** The frames the VM sent between session i's allocation and its end. */
  function During(steps: seq<Step>, i: nat): seq<Frame> {
    if steps == [] then []
    else
      var (before, a) := (steps[..|steps| - 1], steps[|steps| - 1]);
      if i < |Allocations(before)| && !Cut(before, i) && a.Lookup? then During(before, i) + [a.frame]
      else During(before, i)
  }

  /** What was read from the stdin of session i's shim, read by read. */
  function Typed(steps: seq<Step>, i: nat): seq<seq<byte>> {
    if steps == [] then []
    else
      var (before, a) := (Typed(steps[..|steps| - 1], i), steps[|steps| - 1]);
      if a.Stdin? && a.id == i then before + [a.data] else before
  }

  /** How often the proxy passed on a frame of session i. */
  function Forwards(steps: seq<Step>, i: nat): nat {
    if steps == [] then 0
    else Forwards(steps[..|steps| - 1], i) + if steps[|steps| - 1] == Forward(i) then 1 else 0
  }

  lemma LastStep(steps: seq<Step>)
    requires IsRun(steps) && steps != []
    ensures var (before, a) := (steps[..|steps| - 1], steps[|steps| - 1]);
            IsRun(before) && Enabled(After(before), a) && After(steps) == Apply(After(before), a)
  {
    hide Enabled, Apply;
  }

  lemma LogStep(s: System, a: Step)
    requires Enabled(s, a)
    ensures var t := Apply(s, a);
            && t.log == (if a.Lookup? then s.log + [a.frame] else s.log)
            && |t.ends| == |s.ends| + (if a.AllocateIo? then 1 else 0)
            && t.table.next == s.table.next + (if a.AllocateIo? then a.n else 0)
  {
  }

  /** What a step does to an endpoint that is there. */
  lemma EndStep(s: System, a: Step, i: nat)
    requires Enabled(s, a) && i < |s.ends|
    ensures var (e, f) := (s.ends[i], Apply(s, a).ends[i]);
            && f.session == e.session && f.born == e.born
            && f.gone == (if e.gone.None? && (a == CloseIo(i) || a == Shutdown) then Some(|s.log|) else e.gone)
            && f.typed == (if a.Stdin? && a.id == i then e.typed + [Frame(e.shim.io, a.data)] else e.typed)
  {
  }

  lemma {:induction false} LogIs(steps: seq<Step>)
    requires IsRun(steps)
    ensures var s := After(steps);
            && s.log == Frames(steps)
            && |s.ends| == |Allocations(steps)|
            && s.table.next == 1 + Taken(Allocations(steps))
  {
    hide Apply, Enabled;
    if steps != [] {
      var (before, a) := (steps[..|steps| - 1], steps[|steps| - 1]);
      LogIs(before);
      LogStep(After(before), a);
      if a.AllocateIo? { TakenAppend(Allocations(before), (a.n, a.clientID)); }
    }
  }

  lemma TakenAppend(all: seq<(int64, uint64)>, a: (int64, uint64))
    ensures Taken(all + [a]) == Taken(all) + a.0
  {
    assert (all + [a])[..|all|] == all;
  }

  /** A session is the one its allocation asked for, on the numbers that come next. */
  lemma {:induction false} SessionIs(steps: seq<Step>, i: nat)
    requires IsRun(steps) && i < |After(steps).ends|
    ensures |After(steps).ends| == |Allocations(steps)|
    ensures var (e, all) := (After(steps).ends[i].session, Allocations(steps));
            && e.id == i && e.nStreams == all[i].0 && e.clientID == all[i].1
            && e.ioBase == 1 + Taken(all[..i])
  {
    hide Enabled, Frames, Taken, Allocate, ShimSeqNo;
    LogIs(steps);
    var (before, a) := (steps[..|steps| - 1], steps[|steps| - 1]);
    LogIs(before);
    if i < |After(before).ends| {
      SessionIs(before, i);
      EndStep(After(before), a, i);
      hide Apply;
      assert Allocations(steps)[..i] == Allocations(before)[..i];
    } else {
      assert Allocations(steps)[..i] == Allocations(before);
    }
  }

  lemma WindowStep(s: System, a: Step, i: nat)
    requires Enabled(s, a) && i < |s.ends| && Placed(s.ends[i], s.log)
    ensures var t := Apply(s, a);
            && Placed(t.ends[i], t.log)
            && Window(t.ends[i], t.log)
               == if s.ends[i].gone.None? && a.Lookup? then Window(s.ends[i], s.log) + [a.frame]
                  else Window(s.ends[i], s.log)
  {
    LogStep(s, a);
    EndStep(s, a, i);
    hide Apply, Enabled;
  }

  lemma NewWindow(s: System, a: Step)
    requires Enabled(s, a) && |Apply(s, a).ends| > |s.ends|
    ensures var (e, log) := (Apply(s, a).ends[|s.ends|], Apply(s, a).log);
            Placed(e, log) && Window(e, log) == [] && e.gone.None? && a.AllocateIo?
  {
    LogStep(s, a);
    hide Allocate, ShimSeqNo;
  }

  lemma {:induction false} WindowIs(steps: seq<Step>, i: nat)
    requires IsRun(steps) && i < |After(steps).ends|
    ensures var (e, log) := (After(steps).ends[i], After(steps).log);
            && Placed(e, log) && Window(e, log) == During(steps, i)
            && (e.gone.Some? <==> Cut(steps, i))
  {
    hide Enabled, Frames, Taken, Allocate, ShimSeqNo, Allocations, Window;
    var (before, a) := (steps[..|steps| - 1], steps[|steps| - 1]);
    LogIs(before);
    if i < |After(before).ends| {
      hide Apply;
      WindowIs(before, i);
      LogStep(After(before), a);
      EndStep(After(before), a, i);
      WindowStep(After(before), a, i);
    } else {
      NothingBefore(before, i);
      LogIs(steps);
      NewWindow(After(before), a);
    }
  }

  lemma {:induction false} NothingBefore(steps: seq<Step>, i: nat)
    requires i >= |Allocations(steps)|
    ensures !Cut(steps, i) && During(steps, i) == []
  {
    if steps != [] { NothingBefore(steps[..|steps| - 1], i); }
  }

  /** Delivery, end to end: over every run, for every session, there is a point in the
      VM's output since the session's allocation up to which exactly its own streams'
      payloads have come out, in order, on the right descriptors. */
  lemma Delivery(steps: seq<Step>, i: nat)
    requires IsRun(steps) && i < |Allocations(steps)|
    ensures var s := After(steps);
            && |s.ends| == |Allocations(steps)|
            && s.ends[i].session.nStreams == Allocations(steps)[i].0
            && s.ends[i].session.ioBase == 1 + Taken(Allocations(steps)[..i])
            && exists m :: DeliveredUpTo(s.ends[i], During(steps, i), Owes(s.router, i), m)
  {
    RunKeeps(steps);
    LogIs(steps);
    SessionIs(steps, i);
    WindowIs(steps, i);
    var s := After(steps);
    assert EndAt(s, i);
    var m := EndDelivered(s.ends[i], i, s.table.next, s.log, Owes(s.router, i), Forwarded(s.hyper, i));
  }

  lemma {:induction false} DueOwned(log: seq<Frame>, s: Session, t: nat)
    requires t < |Due(log, s)|
    ensures s.Owns(Due(log, s)[t].stream)
  {
    if t < |Due(log[..|log| - 1], s)| { DueOwned(log[..|log| - 1], s, t); }
  }

  /** No number is ever given to two sessions, in any run, whether or not the earlier
      one is gone; so no byte of one session's streams counts as another's. */
  lemma NumbersNeverShared(steps: seq<Step>, i: nat, j: nat, k: int)
    requires IsRun(steps) && i < |After(steps).ends| && j < |After(steps).ends|
    requires After(steps).ends[i].session.Owns(k) && After(steps).ends[j].session.Owns(k)
    ensures i == j
  {
    RunKeeps(steps);
  }

  /** The frames of some pieces of input, with a session's number on them. */
  function Tagged(pieces: seq<seq<byte>>, io: uint64): (r: seq<Frame>)
    ensures |r| == |pieces| && forall k :: 0 <= k < |r| ==> r[k] == Frame(io, pieces[k])
  {
    seq(|pieces|, k requires 0 <= k < |pieces| => Frame(io, pieces[k]))
  }

  lemma {:induction false} TypedIs(steps: seq<Step>, i: nat)
    requires IsRun(steps) && i < |After(steps).ends|
    ensures var e := After(steps).ends[i]; e.typed == Tagged(Typed(steps, i), e.session.ioBase)
  {
    var (before, a) := (steps[..|steps| - 1], steps[|steps| - 1]);
    LogStep(After(before), a);
    if i < |After(before).ends| {
      TypedIs(before, i);
      EndStep(After(before), a, i);
      OwnNumber(before, i);
    } else {
      NothingTyped(before, i);
    }
    hide Apply, Enabled;
  }

  lemma OwnNumber(steps: seq<Step>, i: nat)
    requires IsRun(steps) && i < |After(steps).ends|
    ensures After(steps).ends[i].shim.io == After(steps).ends[i].session.ioBase
  {
    RunKeeps(steps);
    assert EndAt(After(steps), i);
  }

  lemma {:induction false} NothingTyped(steps: seq<Step>, i: nat)
    requires IsRun(steps) && i >= |After(steps).ends|
    ensures Typed(steps, i) == [] && Forwards(steps, i) == 0 && Forwarded(After(steps).hyper, i) == []
  {
    if steps != [] {
      LogStep(After(steps[..|steps| - 1]), steps[|steps| - 1]);
      NothingTyped(steps[..|steps| - 1], i);
    }
  }

  lemma HyperStep(s: System, a: Step, i: nat)
    requires Inv(s) && Enabled(s, a) && i < |s.ends|
    ensures |Forwarded(Apply(s, a).hyper, i)| == |Forwarded(s.hyper, i)| + if a == Forward(i) then 1 else 0
  {
    if a.Forward? {
      assert EndAt(s, a.id);
      ForwardedAppend(s.hyper, a.id, s.ends[a.id].up[0], i);
    }
  }

  lemma {:induction false} ForwardsAre(steps: seq<Step>, i: nat)
    requires IsRun(steps) && i < |After(steps).ends|
    ensures |Forwarded(After(steps).hyper, i)| == Forwards(steps, i)
  {
    var (before, a) := (steps[..|steps| - 1], steps[|steps| - 1]);
    RunKeeps(before);
    LogStep(After(before), a);
    if i < |After(before).ends| {
      ForwardsAre(before, i);
      HyperStep(After(before), a, i);
      hide Apply, Enabled, Inv;
    } else {
      NothingTyped(before, i);
    }
  }

  /** Stdin, over every run: what reached the VM from a session is what its shim read, read
      by read and in order, with the session's own number, one frame for each time the proxy
      passed one on. */
  lemma StdinInOrder(steps: seq<Step>, i: nat)
    requires IsRun(steps) && i < |After(steps).ends|
    ensures var (s, n) := (After(steps), Forwards(steps, i));
            && n <= |Typed(steps, i)|
            && Forwarded(s.hyper, i) == Tagged(Typed(steps, i)[..n], s.ends[i].session.ioBase)
            && (s.ends[i].up == [] <==> n == |Typed(steps, i)|)
  {
    RunKeeps(steps);
    assert EndAt(After(steps), i);
    TypedIs(steps, i);
    ForwardsAre(steps, i);
  }

  /** A client that cannot be written to stops the router without closing vmLost, so the
      VM object is torn down exactly after the VM's own channel has failed. */
  lemma ShutdownOnlyAfterReadError(steps: seq<Step>)
    requires IsRun(steps)
    ensures Enabled(After(steps), Shutdown) <==> ReadError in steps
    ensures ReadError in steps ==> After(steps).router == Stopped(None)
  {
    RunKeeps(steps);
    LostIff(steps);
  }

  lemma {:induction false} LostIff(steps: seq<Step>)
    requires IsRun(steps)
    ensures After(steps).vmLost <==> ReadError in steps
  {
    if steps != [] {
      LastStep(steps);
      hide IsRun, After, Apply, Enabled;
      var (before, a) := (steps[..|steps| - 1], steps[|steps| - 1]);
      assert steps == before + [a];
      LostIff(before);
      LostStep(After(before), a);
    }
  }

  lemma LostStep(s: System, a: Step)
    requires Enabled(s, a)
    ensures Apply(s, a).vmLost <==> s.vmLost || a == ReadError
  {
  }
}
