/** The multiplexer gets somewhere: from every state of every run the shim of a session can
    catch up with all that the VM sent it, and whatever the VM sends next can follow. */
module Progress {
  import opened BigEndian
  import opened IoFrame
  import opened Multiplexer
  import opened Option
  import opened Shim
  import opened Vm

  lemma OneMore(steps: seq<Step>, a: Step)
    requires IsRun(steps) && Enabled(After(steps), a)
    ensures IsRun(steps + [a]) && After(steps + [a]) == Apply(After(steps), a)
  {
    assert (steps + [a])[..|steps|] == steps;
  }

  /** A session's socket is open for as long as the session has its routes: the proxy never
      has a reason to close it because of a wrong number. */
  lemma {:induction false} OpenIff(steps: seq<Step>, i: nat)
    requires IsRun(steps) && i < |After(steps).ends|
    ensures After(steps).ends[i].open <==> !Cut(steps, i)
  {
    hide IsRun, After, Apply, Enabled, During, Window, Inv, Placed, Cut;
    EndsMeanSteps(steps);
    LastStep(steps);
    WindowIs(steps, i);
    var (before, a) := (steps[..|steps| - 1], steps[|steps| - 1]);
    if i < |After(before).ends| {
      OpenIff(before, i);
      WindowIs(before, i);
      RunKeeps(before);
      OpenStep(After(before), a, i);
    } else {
      BornOpen(After(before), a);
    }
  }

  lemma EndsMeanSteps(steps: seq<Step>)
    requires IsRun(steps) && After(steps).ends != []
    ensures steps != []
  {
  }

  lemma BornOpen(s: System, a: Step)
    requires Enabled(s, a) && |Apply(s, a).ends| > |s.ends|
    ensures |Apply(s, a).ends| == |s.ends| + 1 && Apply(s, a).ends[|s.ends|].open && Apply(s, a).ends[|s.ends|].gone.None?
  {
    LogStep(s, a);
    hide Allocate, ShimSeqNo;
  }

  lemma OpenStep(s: System, a: Step, i: nat)
    requires Inv(s) && Enabled(s, a) && i < |s.ends|
    requires s.ends[i].open <==> s.ends[i].gone.None?
    ensures i < |Apply(s, a).ends|
    ensures Apply(s, a).ends[i].open <==> Apply(s, a).ends[i].gone.None?
  {
    hide Inv, Allocate, Remove, ShimSeqNo, Need, Consume, Encode;
    LogStep(s, a);
    if a == Forward(i) { OwnFrame(s, i); }
  }

  lemma OwnFrame(s: System, i: nat)
    requires Inv(s) && Enabled(s, Forward(i))
    ensures s.ends[i].up[0].stream == s.ends[i].session.ioBase
  {
    assert EndAt(s, i);
    var e := s.ends[i];
    assert e.typed[|Forwarded(s.hyper, i)|] == e.up[0];
    hide RoutesOk, RouterOk, Channel, Run, Sent, Due;
  }

  /** With bytes waiting, a read of one is possible. */
  lemma CanRead(rest: seq<Frame>, buf: seq<byte>, fifo: seq<byte>)
    requires Channel(rest, buf, fifo) && fifo != []
    ensures |buf| + 1 <= Need(buf)
  {
    if rest == [] { assert false; }
    PrefixOfFrame(rest[0], EncodeAll(rest[1..]), buf);
    assert buf <= buf + fifo;
    hide Encode, WellSized;
  }

  /** Nothing unread means nothing left. */
  lemma NothingLeft(rest: seq<Frame>, buf: seq<byte>)
    requires Channel(rest, buf, [])
    ensures rest == []
  {
    assert buf + [] == buf;
    if rest != [] { assert false; }
  }

  /** Byte by byte the shim reads all that is in its socket, unless it exits before. */
  lemma {:induction false} ReadOn(steps: seq<Step>, i: nat) returns (more: seq<Step>)
    requires IsRun(steps) && i < |After(steps).ends|
    ensures IsRun(steps + more) && forall a :: a in more ==> a.ShimRead? && a.id == i
    ensures SameButRead(After(steps), After(steps + more), i)
    ensures var e := After(steps + more).ends[i]; e.shim.status.Some? || e.fifo == []
    decreases |After(steps).ends[i].fifo|
  {
    hide Enabled, IsRun, After, Apply;
    var s := After(steps);
    if s.ends[i].shim.status.Some? || s.ends[i].fifo == [] {
      more := [];
      assert steps + more == steps;
    } else {
      var a := ShimRead(i, 1);
      ReadEnabled(steps, i);
      OneMore(steps, a);
      OneRead(s, i);
      var rest := ReadOn(steps + [a], i);
      more := [a] + rest;
      assert steps + more == steps + [a] + rest;
    }
  }

  lemma OneRead(s: System, i: nat)
    requires Enabled(s, ShimRead(i, 1))
    ensures var t := Apply(s, ShimRead(i, 1));
            SameButRead(s, t, i) && |t.ends[i].fifo| < |s.ends[i].fifo|
  {
    hide Need, Consume;
  }

  ghost predicate SameButRead(s: System, t: System, i: nat) {
    && t == s.(ends := t.ends) && |t.ends| == |s.ends| && i < |s.ends|
    && t.ends[i].session == s.ends[i].session && t.ends[i].born == s.ends[i].born && t.ends[i].gone == s.ends[i].gone
  }

  lemma ReadEnabled(steps: seq<Step>, i: nat)
    requires IsRun(steps) && i < |After(steps).ends|
    requires After(steps).ends[i].shim.status.None? && After(steps).ends[i].fifo != []
    ensures Enabled(After(steps), ShimRead(i, 1))
  {
    RunKeeps(steps);
    var s := After(steps);
    assert EndAt(s, i);
    var e := s.ends[i];
    CanRead(Sent(e, s.log, Owes(s.router, i))[e.taken..], e.buf, e.fifo);
    hide RoutesOk, RouterOk, Channel, Run, Sent, Due, Need;
  }

  /** The frames handled are all there are once nothing is left to read. */
  lemma CaughtUp(e: Endpoint, i: nat, next: int, log: seq<Frame>, fwd: seq<Frame>)
    requires EndOk(e, i, next, log, false, fwd) && (e.shim.status.Some? || e.fifo == [])
    ensures e.shim == Run(Start(e.session.ioBase), Due(Window(e, log), e.session))
  {
    var due := Due(Window(e, log), e.session);
    assert Sent(e, log, false) == due;
    hide Sent, Window, Due;
    if e.shim.status.Some? {
      RunStays(Start(e.session.ioBase), due, e.taken);
    } else {
      NothingLeft(due[e.taken..], e.buf);
      assert due[..e.taken] == due;
    }
  }

  lemma {:induction false} RunStays(s: ShimState, fs: seq<Frame>, n: nat)
    requires n <= |fs| && Run(s, fs[..n]).status.Some?
    ensures Run(s, fs) == Run(s, fs[..n])
  {
    if n == |fs| {
      assert fs[..n] == fs;
    } else {
      var gs := fs[..|fs| - 1];
      assert gs[..n] == fs[..n];
      RunStays(s, gs, n);
    }
  }

  /** In every run, with nothing for the session lost in the router, its shim can catch up
      by the proxy's and its own steps alone, and is then where all the frames sent to the
      session take it. */
  lemma CatchesUp(steps: seq<Step>, i: nat) returns (more: seq<Step>)
    requires IsRun(steps) && i < |Allocations(steps)|
    requires Owes(After(steps).router, i) ==> After(steps).router.Holding? && !Cut(steps, i)
    ensures IsRun(steps + more) && forall a :: a in more ==> a == Deliver || (a.ShimRead? && a.id == i)
    ensures |After(steps + more).ends| == |After(steps).ends| == |Allocations(steps)|
    ensures var e := After(steps).ends[i].session;
            After(steps + more).ends[i].shim == Run(Start(e.ioBase), Due(During(steps, i), e))
  {
    hide IsRun, After, Enabled, Inv, During, Run, Due, Forwarded, EndOk, Cut, Allocations;
    LogIs(steps);
    WindowIs(steps, i);
    if Owes(After(steps).router, i) {
      HandsOver(steps, i);
      var rest := ReadOn(steps + [Deliver], i);
      more := [Deliver] + rest;
      assert steps + more == steps + [Deliver] + rest;
    } else {
      more := ReadOn(steps, i);
    }
    RunKeeps(steps + more);
    var (s, t) := (After(steps), After(steps + more));
    assert EndAt(t, i) by { EndOfInv(t, i); }
    CaughtUp(t.ends[i], i, t.table.next, t.log, Forwarded(t.hyper, i));
  }

  lemma HandsOver(steps: seq<Step>, i: nat)
    requires IsRun(steps) && i < |After(steps).ends|
    requires After(steps).router.Holding? && After(steps).router.id == i && !Cut(steps, i)
    ensures IsRun(steps + [Deliver]) && !Owes(After(steps + [Deliver]).router, i)
    ensures var (s, t) := (After(steps), After(steps + [Deliver]));
            && t.log == s.log && |t.ends| == |s.ends|
            && t.ends[i].session == s.ends[i].session && t.ends[i].born == s.ends[i].born && t.ends[i].gone == s.ends[i].gone
  {
    hide IsRun, After, Inv;
    var s := After(steps);
    OpenIff(steps, i);
    RunKeeps(steps);
    HeldWellSized(s);
    OneMore(steps, Deliver);
    LogStep(s, Deliver);
    EndStep(s, Deliver, i);
  }

  lemma HeldWellSized(s: System)
    requires Inv(s) && s.router.Holding?
    ensures WellSized(s.router.frame)
  {
    var e := s.ends[s.router.id];
    DueWellSized(Window(e, s.log), e.session);
    hide WellSized, EndsOk, RoutesOk, Due;
  }

  lemma {:induction false} DueWellSized(log: seq<Frame>, s: Session)
    requires AllWellSized(log)
    ensures AllWellSized(Due(log, s))
  {
    if log != [] { DueWellSized(log[..|log| - 1], s); }
    hide WellSized;
  }

  /** And what the VM sends next gets through: an idle router passes any frame with one of
      the session's numbers on to its shim. */
  lemma NextFrameArrives(steps: seq<Step>, i: nat, f: Frame) returns (more: seq<Step>)
    requires IsRun(steps) && i < |After(steps).ends| && After(steps).router.Idle? && !Cut(steps, i)
    requires WellSized(f) && After(steps).ends[i].session.Owns(f.stream)
    ensures IsRun(steps + [Lookup(f)] + more)
    ensures forall a :: a in more ==> a == Deliver || (a.ShimRead? && a.id == i)
    ensures |After(steps + [Lookup(f)] + more).ends| == |After(steps).ends|
    ensures var e := After(steps).ends[i].session;
            After(steps + [Lookup(f)] + more).ends[i].shim == Run(Start(e.ioBase), Due(During(steps, i) + [f], e))
  {
    hide IsRun, After, Inv, Due, Run, RoutesOk, WellSized, Apply;
    var (s, next) := (After(steps), steps + [Lookup(f)]);
    assert Enabled(s, Lookup(f));
    OneMore(steps, Lookup(f));
    LogStep(s, Lookup(f));
    EndStep(s, Lookup(f), i);
    LogIs(steps);
    LogIs(next);
    assert next[..|steps|] == steps;
    HeldNext(steps, i, f);
    hide Enabled;
    more := CatchesUp(next, i);
  }

  lemma HeldNext(steps: seq<Step>, i: nat, f: Frame)
    requires IsRun(steps) && i < |After(steps).ends| && After(steps).router.Idle? && !Cut(steps, i)
    requires WellSized(f) && After(steps).ends[i].session.Owns(f.stream)
    ensures Apply(After(steps), Lookup(f)).router == Holding(i, f)
  {
    hide IsRun, After;
    WindowIs(steps, i);
    RunKeeps(steps);
    RoutedIff(After(steps), f, i);
  }

  /** There is always room for another session, until the numbers run out. */
  lemma SessionCanStart(steps: seq<Step>, n: int64, clientID: uint64)
    requires IsRun(steps) && 1 <= n <= 2 && 1 + Taken(Allocations(steps)) + n <= TWO_TO_THE_31
    ensures var next := steps + [AllocateIo(n, clientID)];
            && IsRun(next) && Allocations(next) == Allocations(steps) + [(n, clientID)]
            && !Cut(next, |Allocations(steps)|) && During(next, |Allocations(steps)|) == []
            && After(next).router == After(steps).router
  {
    var a := AllocateIo(n, clientID);
    LogIs(steps);
    OneMore(steps, a);
    assert (steps + [a])[..|steps|] == steps;
    NothingBefore(steps, |Allocations(steps)|);
    hide IsRun, After, Allocate, ShimSeqNo;
  }

  /** What was typed gets to the VM: the proxy can pass all of it on. */
  lemma {:induction false} StdinCatchesUp(steps: seq<Step>, i: nat) returns (more: seq<Step>)
    requires IsRun(steps) && i < |After(steps).ends| && !Cut(steps, i)
    ensures IsRun(steps + more) && forall a :: a in more ==> a == Forward(i)
    ensures var s := After(steps + more);
            && |s.ends| == |After(steps).ends| && s.ends[i].session == After(steps).ends[i].session
            && Forwarded(s.hyper, i) == Tagged(Typed(steps, i), s.ends[i].session.ioBase)
    decreases |After(steps).ends[i].up|
  {
    hide IsRun, After, Enabled, Apply, Cut, Forwards, Allocations;
    StdinInOrder(steps, i);
    if After(steps).ends[i].up == [] {
      more := [];
      assert steps + more == steps && Typed(steps, i)[..Forwards(steps, i)] == Typed(steps, i);
    } else {
      PassOn(steps, i);
      var rest := StdinCatchesUp(steps + [Forward(i)], i);
      more := [Forward(i)] + rest;
      assert steps + more == steps + [Forward(i)] + rest;
    }
  }

  /** A live shim can read from its stdin at any time, and a session can be closed. */
  lemma CanTypeAndClose(steps: seq<Step>, i: nat, data: seq<byte>)
    requires IsRun(steps) && i < |After(steps).ends| && |data| <= BUFSIZ
    ensures After(steps).ends[i].shim.status.None? ==>
              IsRun(steps + [Stdin(i, data)]) && Typed(steps + [Stdin(i, data)], i) == Typed(steps, i) + [data]
    ensures !Cut(steps, i) ==> IsRun(steps + [CloseIo(i)]) && Cut(steps + [CloseIo(i)], i)
  {
    WindowIs(steps, i);
    LogIs(steps);
    assert (steps + [Stdin(i, data)])[..|steps|] == steps && (steps + [CloseIo(i)])[..|steps|] == steps;
    if After(steps).ends[i].shim.status.None? { OneMore(steps, Stdin(i, data)); }
    if !Cut(steps, i) { OneMore(steps, CloseIo(i)); }
    hide IsRun, After, Apply;
  }

  lemma PassOn(steps: seq<Step>, i: nat)
    requires IsRun(steps) && i < |After(steps).ends| && !Cut(steps, i) && After(steps).ends[i].up != []
    ensures IsRun(steps + [Forward(i)]) && !Cut(steps + [Forward(i)], i)
    ensures Typed(steps + [Forward(i)], i) == Typed(steps, i)
    ensures var (e, s) := (After(steps).ends[i], After(steps + [Forward(i)]));
            && |s.ends| == |After(steps).ends| && s.ends[i].session == e.session && |s.ends[i].up| < |e.up|
  {
    hide IsRun, After, Forwarded;
    OpenIff(steps, i);
    OneMore(steps, Forward(i));
    assert (steps + [Forward(i)])[..|steps|] == steps;
  }
}
