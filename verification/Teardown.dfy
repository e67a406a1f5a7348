/** Tearing a VM object down (proxy/vm.go, proxy/proxy.go): the router goroutine, one
    reader goroutine per session, callers of AllocateIo and the monitor that runs Close,
    all interleaved.  The lock is held across steps only by Close; the other critical
    sections have nothing in them that can wait and are single steps. */
module Teardown {
  import opened BigEndian
  import opened Vm

  /** ioHyperToClients. */
  datatype RouterPc = Reading | Finding(k: uint64) | Writing(id: nat) | Broke | Done

  /** ioClientToHyper; not started until AllocateIo has let go of the lock and gone on. */
  datatype ReaderPc = NotStarted | FromClient | ToHyper | Over

  /** The monitor: waiting on vmLost, then Close. */
  datatype CloserPc = Waiting | WantLock | Visiting | Joining(id: nat) | WantRouter | Finished

  datatype Sess = Sess(session: Session, clientOpen: bool, closes: nat, reader: ReaderPc) {
    /** The session's wait group counts its one reader while it runs. */
    function WaitGroup(): nat {
      if reader.FromClient? || reader.ToHyper? then 1 else 0
    }
  }

  /** `todo` has the keys that the loop in Close has still to produce.  `atLock` remembers
      which sessions had routes when Close took the lock, `started` which of their readers
      were already running or over. */
  datatype State = State(
    table: Table, sessions: seq<Sess>, router: RouterPc, closer: CloserPc,
    hyperOpen: bool, lostCloses: nat, closeRuns: nat, todo: set<uint64>, atLock: set<nat>, started: set<nat>)

  function Init(): State {
    State(Table(1, map[]), [], Reading, Waiting, true, 0, 0, {}, {}, {})
  }

  predicate LockFree(s: State) {
    !s.closer.Visiting? && !s.closer.Joining?
  }

  datatype Step =
    | RouterRead(k: uint64) | RouterReadFails | RouterFind | RouterWrote | RouterWriteFails | RouterDone
    | Allocate(n: int64, clientID: uint64) | StartReader(id: nat)
    | ReaderRead(id: nat) | ReaderReadFails(id: nat) | ReaderMismatch(id: nat)
    | ReaderSent(id: nat) | ReaderSendFails(id: nat)
    | CloserWakes | CloserLocks | CloserVisits(k: uint64) | CloserJoins | CloserUnlocks | CloserEnds

  predicate At(s: State, id: nat, pc: ReaderPc) {
    id < |s.sessions| && s.sessions[id].reader == pc
  }

  /** Go's loop over a map fixes no order, and does not produce a key that is gone by then:
      it ends when none of its keys is left. */
  ghost predicate Enabled(s: State, a: Step) {
    match a
    case RouterRead(_) => s.router.Reading? && s.hyperOpen
    case RouterReadFails => s.router.Reading?
    case RouterFind => s.router.Finding? && LockFree(s)
    case RouterWrote => s.router.Writing? && s.router.id < |s.sessions| && s.sessions[s.router.id].clientOpen
    case RouterWriteFails => s.router.Writing?
    case RouterDone => s.router.Broke?
    case Allocate(n, _) => LockFree(s) && 1 <= n <= 2 && s.table.next + n < TWO_TO_THE_64
    case StartReader(id) => At(s, id, NotStarted)
    case ReaderRead(id) => At(s, id, FromClient) && s.sessions[id].clientOpen
    case ReaderReadFails(id) => At(s, id, FromClient)
    case ReaderMismatch(id) => At(s, id, FromClient) && s.sessions[id].clientOpen
    case ReaderSent(id) => At(s, id, ToHyper) && s.hyperOpen
    case ReaderSendFails(id) => At(s, id, ToHyper)
    case CloserWakes => s.closer.Waiting? && s.lostCloses > 0
    case CloserLocks => s.closer.WantLock? && LockFree(s)
    case CloserVisits(k) => s.closer.Visiting? && k in s.todo && k in s.table.routes && s.table.routes[k].id < |s.sessions|
    case CloserJoins => s.closer.Joining? && s.closer.id < |s.sessions| && s.sessions[s.closer.id].WaitGroup() == 0
    case CloserUnlocks => s.closer.Visiting? && s.todo !! s.table.routes.Keys
    case CloserEnds => s.closer.WantRouter? && s.router.Done?
  }

  function MoveReader(s: State, id: nat, pc: ReaderPc): State
    requires id < |s.sessions|
  {
    s.(sessions := s.sessions[id := s.sessions[id].(reader := pc)])
  }

  ghost function Routed(t: Table): set<nat> {
    set k | k in t.routes :: t.routes[k].id
  }

  ghost function Apply(s: State, a: Step): State
    requires Enabled(s, a)
  {
    match a
    case RouterRead(k) => s.(router := Finding(k))
    case RouterReadFails => s.(router := Broke, lostCloses := s.lostCloses + 1)
    case RouterFind =>
      s.(router := if s.router.k in s.table.routes then Writing(s.table.routes[s.router.k].id) else Reading)
    case RouterWrote => s.(router := Reading)
    case RouterWriteFails => s.(router := Broke)
    case RouterDone => s.(router := Done)
    case Allocate(n, clientID) =>
      s.(table := Vm.Allocate(s.table, n, |s.sessions|, clientID),
         sessions := s.sessions + [Sess(Session(|s.sessions|, n, s.table.next, clientID), true, 0, NotStarted)])
    case StartReader(id) => MoveReader(s, id, FromClient)
    case ReaderRead(id) => MoveReader(s, id, ToHyper)
    case ReaderReadFails(id) => MoveReader(s, id, Over)
    case ReaderMismatch(id) =>
      s.(sessions := s.sessions[id := s.sessions[id].(reader := Over, clientOpen := false)])
    case ReaderSent(id) => MoveReader(s, id, FromClient)
    case ReaderSendFails(id) => MoveReader(s, id, Over)
    case CloserWakes => s.(closer := WantLock, hyperOpen := false, closeRuns := s.closeRuns + 1)
    case CloserLocks =>
      s.(closer := Visiting, todo := s.table.routes.Keys, atLock := Routed(s.table),
         started := set i | 0 <= i < |s.sessions| && i in Routed(s.table) && !s.sessions[i].reader.NotStarted?)
    case CloserVisits(k) =>
      var session := s.table.routes[k];
      var t := s.(table := s.table.(routes := s.table.routes - {k}), todo := s.todo - {k});
      if k != session.ioBase then t
      else
        var c := s.sessions[session.id];
        t.(sessions := s.sessions[session.id := c.(clientOpen := false, closes := c.closes + 1)], closer := Joining(session.id))
    case CloserJoins => s.(closer := Visiting)
    case CloserUnlocks => s.(closer := WantRouter)
    case CloserEnds => s.(closer := Finished)
  }

  ghost predicate IsRun(steps: seq<Step>)
    decreases |steps|, 0
  {
    steps == [] ||
    (IsRun(steps[..|steps| - 1]) && Enabled(After(steps[..|steps| - 1]), steps[|steps| - 1]))
  }

  ghost function After(steps: seq<Step>): State
    requires IsRun(steps)
    decreases |steps|, 1
  {
    if steps == [] then Init() else Apply(After(steps[..|steps| - 1]), steps[|steps| - 1])
  }

  // ------------------------------------------------------------------
  // The invariant.

  predicate Closing(s: State) {
    s.closer.Visiting? || s.closer.Joining? || s.closer.WantRouter? || s.closer.Finished?
  }

  /** One signal, one Close, in that order, and the router is on its way out by then. */
  ghost predicate SignalOk(s: State) {
    && s.lostCloses <= 1 && s.closeRuns <= 1
    && (s.lostCloses == 1 ==> s.router.Broke? || s.router.Done?)
    && (s.closeRuns == 1 ==> s.lostCloses == 1 && !s.hyperOpen)
    && (s.closeRuns == 0 <==> s.closer.Waiting?)
  }

  /** Routes lead to known sessions, each key within its session's range. */
  ghost predicate RoutesKnown(t: Table, sessions: seq<Sess>) {
    forall k :: k in t.routes ==>
      t.routes[k].id < |sessions| && t.routes[k] == sessions[t.routes[k].id].session && t.routes[k].Owns(k)
  }

  ghost predicate SessionsPlaced(next: int, sessions: seq<Sess>) {
    forall i :: 0 <= i < |sessions| ==>
      && sessions[i].session.id == i && 1 <= sessions[i].session.nStreams
      && sessions[i].session.ioBase + sessions[i].session.nStreams <= next
  }

  ghost predicate Apart(sessions: seq<Sess>) {
    forall i, j :: 0 <= i < j < |sessions| ==>
      sessions[i].session.ioBase + sessions[i].session.nStreams <= sessions[j].session.ioBase
  }

  /** Every session with a route has its base route. */
  ghost predicate Intact(t: Table) {
    forall k {:trigger t.routes[k]} :: k in t.routes ==> t.routes[k].ioBase in t.routes
  }

  ghost predicate TableOk(s: State) {
    && 1 <= s.table.next
    && RoutesKnown(s.table, s.sessions) && SessionsPlaced(s.table.next, s.sessions) && Apart(s.sessions)
    && (!Closing(s) ==> Intact(s.table))
  }

  /** What Close has done so far to session `i`: nothing before it takes the lock, and
      nothing to sessions without a route by then; of the others, nothing while the base
      route is there, and once that is gone it has been closed once, and joined unless it
      is the one being waited for. */
  ghost predicate ClosedOk(c: Sess, i: nat, s: State) {
    if !Closing(s) || i !in s.atLock then c.closes == 0 && s.closer != Joining(i)
    else
      && (i in s.started ==> !c.reader.NotStarted?)
      && if c.session.ioBase in s.table.routes then c.closes == 0 && s.closer != Joining(i)
         else c.closes == 1 && !c.clientOpen && (i in s.started && s.closer != Joining(i) ==> c.reader.Over?)
  }

  ghost predicate LockOk(s: State) {
    && (Closing(s) ==> s.started <= s.atLock && forall i :: i in s.atLock ==> i < |s.sessions|)
    && (!LockFree(s) ==> forall k :: k in s.table.routes ==> k in s.todo && s.table.routes[k].id in s.atLock)
    && (Closing(s) && LockFree(s) ==> forall i :: 0 <= i < |s.sessions| && i in s.atLock ==>
          s.sessions[i].session.ioBase !in s.table.routes)
    && (s.closer.Joining? ==> s.closer.id < |s.sessions|)
  }

  ghost predicate SessionsOk(s: State) {
    forall i :: 0 <= i < |s.sessions| ==> ClosedOk(s.sessions[i], i, s)
  }

  ghost predicate Inv(s: State) {
    SignalOk(s) && TableOk(s) && LockOk(s) && SessionsOk(s)
  }

  predicate RouterStep(a: Step) {
    a.RouterRead? || a.RouterReadFails? || a.RouterFind? || a.RouterWrote? || a.RouterWriteFails? || a.RouterDone?
  }

  predicate ReaderStep(a: Step) {
    a.StartReader? || a.ReaderRead? || a.ReaderReadFails? || a.ReaderMismatch? || a.ReaderSent? || a.ReaderSendFails?
  }

  lemma RouterKeeps(s: State, a: Step)
    requires Inv(s) && Enabled(s, a) && RouterStep(a)
    ensures Inv(Apply(s, a))
  {
    var t := Apply(s, a);
    forall i | 0 <= i < |s.sessions|
      ensures ClosedOk(t.sessions[i], i, t)
    {
      assert ClosedOk(s.sessions[i], i, s);
    }
  }

  /** A reader moves only its own session, never starts twice, and never reopens the
      client socket. */
  lemma ReaderMoves(s: State, a: Step)
    requires Enabled(s, a) && ReaderStep(a)
    ensures var t := Apply(s, a);
            && |t.sessions| == |s.sessions| && t == s.(sessions := t.sessions)
            && a.id < |s.sessions|
            && t.sessions == s.sessions[a.id := t.sessions[a.id]]
            && var c, d := s.sessions[a.id], t.sessions[a.id];
               && d == c.(reader := d.reader, clientOpen := d.clientOpen)
               && !d.reader.NotStarted? && (d.clientOpen ==> c.clientOpen)
               && !c.reader.Over?
  {
  }

  /** The parts of the invariant that do not look at readers and sockets. */
  lemma SameSessions(s: State, t: State)
    requires TableOk(s) && LockOk(s) && |t.sessions| == |s.sessions| && t == s.(sessions := t.sessions)
    requires forall i :: 0 <= i < |s.sessions| ==> t.sessions[i].session == s.sessions[i].session
    ensures TableOk(t) && LockOk(t)
  {
  }

  lemma ReaderKeeps(s: State, a: Step)
    requires Inv(s) && Enabled(s, a) && ReaderStep(a)
    ensures Inv(Apply(s, a))
  {
    var t := Apply(s, a);
    ReaderMoves(s, a);
    SameSessions(s, t);
    forall i | 0 <= i < |s.sessions|
      ensures ClosedOk(t.sessions[i], i, t)
    {
      assert ClosedOk(s.sessions[i], i, s);
    }
  }

  lemma NewRoutes(t: Table, n: int64, id: nat, clientID: uint64, k: uint64)
    requires 1 <= n <= 2 && t.next + n < TWO_TO_THE_64
    ensures var u := Vm.Allocate(t, n, id, clientID);
            && u.next == t.next + n
            && (k in u.routes <==> k in t.routes || t.next <= k < t.next + n)
            && (k in t.routes && k < t.next ==> u.routes[k] == t.routes[k])
            && (t.next <= k < t.next + n ==> u.routes[k] == Session(id, n, t.next, clientID))
  {
    SpanWithoutWrap(t.next, n);
  }

  /** A route after an allocation is one from before, or leads to the new session. */
  lemma OldOrNew(t: Table, sessions: seq<Sess>, n: int64, clientID: uint64, k: uint64)
    requires RoutesKnown(t, sessions) && SessionsPlaced(t.next, sessions)
    requires 1 <= n <= 2 && t.next + n < TWO_TO_THE_64
    requires k in Vm.Allocate(t, n, |sessions|, clientID).routes
    ensures var (u, s) := (Vm.Allocate(t, n, |sessions|, clientID), Session(|sessions|, n, t.next, clientID));
            if k in t.routes then k < t.next && u.routes[k] == t.routes[k] else u.routes[k] == s && s.Owns(k)
  {
    hide Vm.Allocate;
    NewRoutes(t, n, |sessions|, clientID, k);
    if k in t.routes { assert t.routes[k].Owns(k); }
  }

  lemma AllocateRoutes(t: Table, sessions: seq<Sess>, n: int64, clientID: uint64, c: Sess)
    requires RoutesKnown(t, sessions) && SessionsPlaced(t.next, sessions)
    requires 1 <= n <= 2 && t.next + n < TWO_TO_THE_64
    requires c.session == Session(|sessions|, n, t.next, clientID)
    ensures RoutesKnown(Vm.Allocate(t, n, |sessions|, clientID), sessions + [c])
    ensures Intact(t) ==> Intact(Vm.Allocate(t, n, |sessions|, clientID))
  {
    hide Vm.Allocate, Intact, SessionsPlaced;
    if Intact(t) { AllocateIntact(t, sessions, n, clientID, c); }
    var u := Vm.Allocate(t, n, |sessions|, clientID);
    forall k | k in u.routes
      ensures if k in t.routes then u.routes[k] == t.routes[k] else u.routes[k] == c.session && c.session.Owns(k)
    {
      OldOrNew(t, sessions, n, clientID, k);
    }
  }

  lemma AllocateIntact(t: Table, sessions: seq<Sess>, n: int64, clientID: uint64, c: Sess)
    requires RoutesKnown(t, sessions) && SessionsPlaced(t.next, sessions) && Intact(t)
    requires 1 <= n <= 2 && t.next + n < TWO_TO_THE_64
    requires c.session == Session(|sessions|, n, t.next, clientID)
    ensures Intact(Vm.Allocate(t, n, |sessions|, clientID))
  {
    hide Vm.Allocate;
    var u := Vm.Allocate(t, n, |sessions|, clientID);
    forall k | k in u.routes
      ensures u.routes[k].ioBase in u.routes
    {
      NewRoutes(t, n, |sessions|, clientID, k);
      NewRoutes(t, n, |sessions|, clientID, u.routes[k].ioBase);
    }
  }

  lemma AllocatePlaced(next: uint64, sessions: seq<Sess>, n: int64, c: Sess)
    requires SessionsPlaced(next, sessions) && Apart(sessions) && 1 <= n
    requires c.session.id == |sessions| && c.session.nStreams == n && c.session.ioBase == next
    ensures SessionsPlaced(next + n, sessions + [c]) && Apart(sessions + [c])
  {
  }

  lemma AllocateTable(s: State, n: int64, clientID: uint64)
    requires TableOk(s) && Enabled(s, Allocate(n, clientID))
    ensures var t := Apply(s, Allocate(n, clientID));
            && t.table.next == s.table.next + n
            && RoutesKnown(t.table, t.sessions)
            && (Intact(s.table) ==> Intact(t.table))
            && SessionsPlaced(s.table.next + n, t.sessions) && Apart(t.sessions)
  {
    var c := Sess(Session(|s.sessions|, n, s.table.next, clientID), true, 0, NotStarted);
    AllocateRoutes(s.table, s.sessions, n, clientID, c);
    AllocatePlaced(s.table.next, s.sessions, n, c);
  }

  lemma BaseRouteKept(s: State, n: int64, clientID: uint64, i: nat)
    requires SessionsPlaced(s.table.next, s.sessions) && Enabled(s, Allocate(n, clientID)) && i < |s.sessions|
    ensures s.sessions[i].session.ioBase in Apply(s, Allocate(n, clientID)).table.routes
       <==> s.sessions[i].session.ioBase in s.table.routes
  {
    NewRoutes(s.table, n, |s.sessions|, clientID, s.sessions[i].session.ioBase);
  }

  lemma AllocateSessions(s: State, n: int64, clientID: uint64)
    requires SessionsPlaced(s.table.next, s.sessions) && LockOk(s) && SessionsOk(s)
    requires Enabled(s, Allocate(n, clientID))
    ensures LockOk(Apply(s, Allocate(n, clientID))) && SessionsOk(Apply(s, Allocate(n, clientID)))
  {
    var t := Apply(s, Allocate(n, clientID));
    forall i: nat | i < |s.sessions| { BaseRouteKept(s, n, clientID, i); }
    forall i | 0 <= i < |t.sessions|
      ensures ClosedOk(t.sessions[i], i, t)
    {
      if i < |s.sessions| { assert ClosedOk(s.sessions[i], i, s); }
    }
  }

  lemma AllocateKeeps(s: State, n: int64, clientID: uint64)
    requires Inv(s) && Enabled(s, Allocate(n, clientID))
    ensures Inv(Apply(s, Allocate(n, clientID)))
  {
    AllocateTable(s, n, clientID);
    AllocateSessions(s, n, clientID);
  }

  lemma CloserLocksKeeps(s: State)
    requires Inv(s) && Enabled(s, CloserLocks)
    ensures Inv(Apply(s, CloserLocks))
  {
    var t := Apply(s, CloserLocks);
    forall i | 0 <= i < |s.sessions|
      ensures ClosedOk(t.sessions[i], i, t)
    {
      assert ClosedOk(s.sessions[i], i, s);
    }
  }

  lemma FewerRoutes(t: Table, u: Table, sessions: seq<Sess>, sessions': seq<Sess>)
    requires RoutesKnown(t, sessions) && SessionsPlaced(t.next, sessions) && Apart(sessions)
    requires u.next == t.next && u.routes.Keys <= t.routes.Keys
    requires forall k :: k in u.routes ==> u.routes[k] == t.routes[k]
    requires |sessions'| == |sessions|
    requires forall i :: 0 <= i < |sessions| ==> sessions'[i].session == sessions[i].session
    ensures RoutesKnown(u, sessions') && SessionsPlaced(u.next, sessions') && Apart(sessions')
  {
  }

  lemma CloserVisitsTable(s: State, k: uint64)
    requires TableOk(s) && Enabled(s, CloserVisits(k))
    ensures TableOk(Apply(s, CloserVisits(k)))
  {
    var t := Apply(s, CloserVisits(k));
    FewerRoutes(s.table, t.table, s.sessions, t.sessions);
  }

  lemma CloserVisitsLock(s: State, k: uint64)
    requires LockOk(s) && Enabled(s, CloserVisits(k))
    ensures LockOk(Apply(s, CloserVisits(k)))
  {
  }

  lemma CloserVisitsKeeps(s: State, k: uint64)
    requires Inv(s) && Enabled(s, CloserVisits(k))
    ensures Inv(Apply(s, CloserVisits(k)))
  {
    hide TableOk, LockOk, ClosedOk;
    var t := Apply(s, CloserVisits(k));
    CloserVisitsTable(s, k);
    CloserVisitsLock(s, k);
    forall i | 0 <= i < |s.sessions|
      ensures ClosedOk(t.sessions[i], i, t)
    {
      CloserVisitsSession(s, k, i);
    }
  }

  lemma CloserVisitsSession(s: State, k: uint64, i: nat)
    requires TableOk(s) && LockOk(s) && Enabled(s, CloserVisits(k))
    requires i < |s.sessions| && ClosedOk(s.sessions[i], i, s)
    ensures var t := Apply(s, CloserVisits(k)); ClosedOk(t.sessions[i], i, t)
  {
    assert s.table.routes[k].id in s.atLock;
    if s.sessions[i].session.ioBase == k {
      OneOwner(s, i, k);
    }
    hide TableOk, LockOk;
  }

  lemma OneOwner(s: State, i: nat, k: uint64)
    requires TableOk(s) && i < |s.sessions| && s.sessions[i].session.ioBase == k && k in s.table.routes
    ensures s.table.routes[k].id == i
  {
  }

  lemma CloserOtherKeeps(s: State, a: Step)
    requires Inv(s) && Enabled(s, a)
    requires a.CloserWakes? || a.CloserJoins? || a.CloserUnlocks? || a.CloserEnds?
    ensures Inv(Apply(s, a))
  {
    var t := Apply(s, a);
    forall i | 0 <= i < |s.sessions|
      ensures ClosedOk(t.sessions[i], i, t)
    {
      assert ClosedOk(s.sessions[i], i, s);
    }
  }

  lemma StepKeeps(s: State, a: Step)
    requires Inv(s) && Enabled(s, a)
    ensures Inv(Apply(s, a))
  {
    if RouterStep(a) {
      RouterKeeps(s, a);
    } else if ReaderStep(a) {
      ReaderKeeps(s, a);
    } else {
      match a
      case Allocate(n, clientID) => AllocateKeeps(s, n, clientID);
      case CloserLocks => CloserLocksKeeps(s);
      case CloserVisits(k) => CloserVisitsKeeps(s, k);
      case _ => CloserOtherKeeps(s, a);
    }
  }

  lemma {:induction false} RunKeeps(steps: seq<Step>)
    requires IsRun(steps)
    ensures Inv(After(steps))
  {
    if steps != [] {
      RunKeeps(steps[..|steps| - 1]);
      StepKeeps(After(steps[..|steps| - 1]), steps[|steps| - 1]);
    }
  }

  // ------------------------------------------------------------------
  // Safety.

  /** In every run vmLost is closed at most once (closing a Go channel twice panics),
      Close runs at most once and only after that, and no session is closed twice. */
  lemma ClosedAtMostOnce(steps: seq<Step>)
    requires IsRun(steps)
    ensures var s := After(steps);
            && s.closeRuns <= s.lostCloses <= 1
            && forall i :: 0 <= i < |s.sessions| ==> s.sessions[i].closes <= 1
  {
    RunKeeps(steps);
    var s := After(steps);
    forall i | 0 <= i < |s.sessions|
      ensures s.sessions[i].closes <= 1
    {
      assert ClosedOk(s.sessions[i], i, s);
    }
  }

  /** Once Close has let go of the lock, whatever order it visited the routes in, every
      session that had a route when it took the lock has been closed exactly once, every
      other session not at all, and the readers it found running are over. */
  lemma EverySessionClosedOnce(steps: seq<Step>, i: nat)
    requires IsRun(steps) && i < |After(steps).sessions|
    requires After(steps).closer.WantRouter? || After(steps).closer.Finished?
    ensures var s := After(steps); var c := s.sessions[i];
            && c.closes == (if i in s.atLock then 1 else 0)
            && (i in s.atLock ==> !c.clientOpen && c.session.ioBase !in s.table.routes)
            && (i in s.started ==> c.reader.Over?)
  {
    RunKeeps(steps);
    assert ClosedOk(After(steps).sessions[i], i, After(steps));
  }

  /** When the loop over the routes ends, none is left: what was there when it began has
      been deleted, and with the lock held nobody has added any. */
  lemma TableEmptyAtUnlock(steps: seq<Step>)
    requires IsRun(steps) && Enabled(After(steps), CloserUnlocks)
    ensures After(steps).table.routes == map[]
  {
    RunKeeps(steps);
  }

  // ------------------------------------------------------------------
  // Close finishes.

  function ReaderRank(pc: ReaderPc): nat {
    match pc
    case NotStarted => 3
    case ToHyper => 2
    case FromClient => 1
    case Over => 0
  }

  /** Work left once Close holds the lock. */
  function Measure(s: State): nat
    requires Closing(s) && (s.closer.Joining? ==> s.closer.id < |s.sessions|)
  {
    (if s.router.Done? then 0 else 1) +
    match s.closer {
      case Visiting => 5 * |s.table.routes| + 3
      case Joining(id) => 5 * |s.table.routes| + 4 + ReaderRank(s.sessions[id].reader)
      case WantRouter => 1
      case _ => 0
    }
  }

  /** The steps Close depends on: its own, those of the reader it is waiting for, and
      the router's last one. */
  predicate Helps(s: State, a: Step) {
    || a.CloserVisits? || a.CloserJoins? || a.CloserUnlocks? || a.CloserEnds? || a.RouterDone?
    || (ReaderStep(a) && s.closer == Joining(a.id))
  }

  /** Each of them brings Close nearer its end, and nothing else sets it back: with the
      lock held no route can be added, and with the sockets closed the reader it waits
      for can only stop. */
  lemma MeasureShrinks(s: State, a: Step)
    requires Inv(s) && Enabled(s, a) && Closing(s)
    ensures Closing(Apply(s, a)) && (Apply(s, a).closer.Joining? ==> Apply(s, a).closer.id < |Apply(s, a).sessions|)
    ensures if Helps(s, a) then Measure(Apply(s, a)) < Measure(s) else Measure(Apply(s, a)) <= Measure(s)
  {
    if ReaderStep(a) {
      ReaderShrinks(s, a);
    } else if a.CloserVisits? {
      VisitShrinks(s, a.k);
    }
  }

  lemma ReaderShrinks(s: State, a: Step)
    requires LockOk(s) && SessionsOk(s) && SignalOk(s) && Enabled(s, a) && Closing(s) && ReaderStep(a)
    ensures var t := Apply(s, a); Closing(t) && t.closer == s.closer && |t.sessions| == |s.sessions|
    ensures if Helps(s, a) then Measure(Apply(s, a)) < Measure(s) else Measure(Apply(s, a)) == Measure(s)
  {
    ReaderMoves(s, a);
    if s.closer.Joining? {
      assert ClosedOk(s.sessions[s.closer.id], s.closer.id, s);
    }
  }

  lemma VisitShrinks(s: State, k: uint64)
    requires Enabled(s, CloserVisits(k))
    ensures Closing(Apply(s, CloserVisits(k))) && |Apply(s, CloserVisits(k)).sessions| == |s.sessions|
    ensures Apply(s, CloserVisits(k)).closer.Joining? ==> Apply(s, CloserVisits(k)).closer.id < |s.sessions|
    ensures Measure(Apply(s, CloserVisits(k))) < Measure(s)
  {
    var t := Apply(s, CloserVisits(k));
    assert t.table.routes.Keys == s.table.routes.Keys - {k};
    assert |t.table.routes.Keys| == |s.table.routes.Keys| - 1;
  }

  /** In no reachable state is Close stuck: one of those steps can always be taken.  In
      particular the reader it waits for never needs the lock that Close holds. */
  lemma NeverStuck(s: State)
    requires Inv(s) && Closing(s) && !s.closer.Finished?
    ensures exists a :: Enabled(s, a) && Helps(s, a)
  {
    match s.closer
    case Visiting =>
      if s.todo !! s.table.routes.Keys {
        assert Enabled(s, CloserUnlocks) && Helps(s, CloserUnlocks);
      } else {
        var k :| k in s.todo && k in s.table.routes;
        assert Enabled(s, CloserVisits(k)) && Helps(s, CloserVisits(k));
      }
    case Joining(id) =>
      if s.sessions[id].WaitGroup() == 0 {
        assert Enabled(s, CloserJoins) && Helps(s, CloserJoins);
      } else if s.sessions[id].reader.FromClient? {
        assert Enabled(s, ReaderReadFails(id)) && Helps(s, ReaderReadFails(id));
      } else {
        assert Enabled(s, ReaderSendFails(id)) && Helps(s, ReaderSendFails(id));
      }
    case WantRouter =>
      if s.router.Done? {
        assert Enabled(s, CloserEnds) && Helps(s, CloserEnds);
      } else {
        assert Enabled(s, RouterDone) && Helps(s, RouterDone);
      }
    case _ =>
      assert false;
  }

  lemma OneHelpingStep(s: State) returns (a: Step)
    requires Inv(s) && Closing(s) && !s.closer.Finished?
    ensures Enabled(s, a) && !a.Allocate? && !a.RouterFind?
    ensures Inv(Apply(s, a)) && Closing(Apply(s, a)) && Measure(Apply(s, a)) < Measure(s)
  {
    NeverStuck(s);
    a :| Enabled(s, a) && Helps(s, a);
    MeasureShrinks(s, a);
    StepKeeps(s, a);
  }

  ghost predicate Leads(s: State, steps: seq<Step>, t: State)
    decreases |steps|
  {
    if steps == [] then s == t else Enabled(s, steps[0]) && Leads(Apply(s, steps[0]), steps[1..], t)
  }

  /** How Close ends from here: without anyone else taking the lock. */
  ghost predicate Finishes(s: State, steps: seq<Step>, t: State) {
    && Leads(s, steps, t) && t.closer.Finished?
    && forall i :: 0 <= i < |steps| ==> !steps[i].Allocate? && !steps[i].RouterFind?
  }

  /** From any reachable state in which Close holds the lock or has given it back, at most
      Measure steps finish it, none of which needs the lock. */
  lemma {:induction false} CloseFinishes(s: State)
    requires Inv(s) && Closing(s)
    ensures exists steps, t :: |steps| <= Measure(s) && Finishes(s, steps, t)
    decreases Measure(s)
  {
    if s.closer.Finished? {
      assert Finishes(s, [], s);
    } else {
      var a := OneHelpingStep(s);
      CloseFinishes(Apply(s, a));
      var rest, t :| |rest| <= Measure(Apply(s, a)) && Finishes(Apply(s, a), rest, t);
      PrependStep(s, a, rest, t);
    }
  }

  lemma PrependStep(s: State, a: Step, rest: seq<Step>, t: State)
    requires Enabled(s, a) && !a.Allocate? && !a.RouterFind? && Finishes(Apply(s, a), rest, t)
    ensures Finishes(s, [a] + rest, t)
  {
    assert ([a] + rest)[1..] == rest;
  }

  // ------------------------------------------------------------------
  // How the router ended decides whether there is a teardown at all.

  lemma SignalStep(s: State, a: Step)
    requires SignalOk(s) && Enabled(s, a)
    ensures var t := Apply(s, a);
            && (t.lostCloses > 0 <==> s.lostCloses > 0 || a == RouterReadFails)
            && (WriteEnded(t) <==> WriteEnded(s) || a == RouterWriteFails)
  {
  }

  predicate WriteEnded(s: State) {
    (s.router.Broke? || s.router.Done?) && s.lostCloses == 0
  }

  /** Over every run: vmLost has been closed exactly when a read from the VM failed, and the
      router has ended without that exactly when a write to a client failed. */
  lemma {:induction false} SignalHistory(steps: seq<Step>)
    requires IsRun(steps)
    ensures RouterReadFails in steps <==> After(steps).lostCloses > 0
    ensures RouterWriteFails in steps <==> WriteEnded(After(steps))
  {
    if steps != [] {
      var front, last := steps[..|steps| - 1], steps[|steps| - 1];
      assert steps == front + [last];
      SignalHistory(front);
      RunKeeps(front);
      SignalStep(After(front), last);
      hide Enabled, Apply, Inv, SignalOk, WriteEnded;
    }
  }

  /** So Close has run, or is about to, exactly when a read from the VM has failed. */
  lemma TeardownIff(steps: seq<Step>)
    requires IsRun(steps)
    ensures After(steps).closeRuns > 0 || Enabled(After(steps), CloserWakes) <==> RouterReadFails in steps
  {
    SignalHistory(steps);
    RunKeeps(steps);
  }

  /** And from then on, whatever else happened, it can get to its end. */
  lemma TeardownCompletes(steps: seq<Step>)
    requires IsRun(steps) && RouterReadFails in steps
    ensures exists more, t :: Finishes(After(steps), more, t)
  {
    RunKeeps(steps);
    SignalHistory(steps);
    CloseCompletes(After(steps));
    hide IsRun, After;
  }

  lemma CloseCompletes(s: State)
    requires Inv(s) && s.lostCloses > 0
    ensures exists more, t :: Finishes(s, more, t)
  {
    hide Finishes, Leads, TableOk, SessionsOk;
    if Closing(s) {
      CloseFinishes(s);
      var more, t :| |more| <= Measure(s) && Finishes(s, more, t);
    } else {
      var a := if s.closer.Waiting? then CloserWakes else CloserLocks;
      StepKeeps(s, a);
      if a == CloserWakes {
        StepKeeps(Apply(s, a), CloserLocks);
        var u := Apply(Apply(s, a), CloserLocks);
        CloseFinishes(u);
        var more, t :| |more| <= Measure(u) && Finishes(u, more, t);
        PrependStep(Apply(s, a), CloserLocks, more, t);
        PrependStep(s, a, [CloserLocks] + more, t);
      } else {
        CloseFinishes(Apply(s, a));
        var more, t :| |more| <= Measure(Apply(s, a)) && Finishes(Apply(s, a), more, t);
        PrependStep(s, a, more, t);
      }
    }
  }

  /** And once a write to a client has failed, whatever happens before or after it, vmLost
      stays open and Close never runs. */
  lemma NoTeardownAfterWriteError(steps: seq<Step>)
    requires IsRun(steps) && RouterWriteFails in steps
    ensures var s := After(steps);
            RouterReadFails !in steps && s.lostCloses == 0 && s.closeRuns == 0 && s.closer.Waiting?
  {
    SignalHistory(steps);
    RunKeeps(steps);
  }

  /** Such a run: one session, one frame for it, and its socket is gone. */
  lemma WriteErrorRun()
    ensures var steps := [Allocate(1, 7), RouterRead(1), RouterFind, RouterWriteFails];
            IsRun(steps) && WriteEnded(After(steps)) && 1 in After(steps).table.routes
  {
    var s1 := Apply(Init(), Allocate(1, 7));
    FourSteps(s1);
    assert IsRun([]) && After([]) == Init() && Enabled(Init(), Allocate(1, 7));
    hide Apply, Enabled, IsRun, After;
    RunOf([], Allocate(1, 7));
    var r1 := [] + [Allocate(1, 7)];
    RunOf(r1, RouterRead(1));
    var r2 := r1 + [RouterRead(1)];
    RunOf(r2, RouterFind);
    var r3 := r2 + [RouterFind];
    RunOf(r3, RouterWriteFails);
    assert r3 + [RouterWriteFails] == [Allocate(1, 7), RouterRead(1), RouterFind, RouterWriteFails];
  }

  lemma FourSteps(s1: State)
    requires s1 == Apply(Init(), Allocate(1, 7))
    ensures Enabled(s1, RouterRead(1))
    ensures var s2 := Apply(s1, RouterRead(1));
            Enabled(s2, RouterFind)
            && var s3 := Apply(s2, RouterFind);
               Enabled(s3, RouterWriteFails)
               && var s4 := Apply(s3, RouterWriteFails); WriteEnded(s4) && 1 in s4.table.routes
  {
    NewRoutes(Init().table, 1, 0, 7, 1);
    hide Vm.Allocate;
  }

  lemma RunOf(steps: seq<Step>, a: Step)
    requires IsRun(steps) && Enabled(After(steps), a)
    ensures IsRun(steps + [a]) && After(steps + [a]) == Apply(After(steps), a)
  {
    assert (steps + [a])[..|steps|] == steps;
    hide Enabled, Apply;
  }

  // ------------------------------------------------------------------
  // Which sessions Close closes, told by the steps alone.

  function Allocations(steps: seq<Step>): nat {
    if steps == [] then 0
    else Allocations(steps[..|steps| - 1]) + if steps[|steps| - 1].Allocate? then 1 else 0
  }

  /** The steps before Close took the lock, or all of them if it has not. */
  function UpToLock(steps: seq<Step>): seq<Step> {
    if steps == [] then []
    else
      var front, last := steps[..|steps| - 1], steps[|steps| - 1];
      if CloserLocks in front then UpToLock(front) else if last == CloserLocks then front else steps
  }

  /** Every session has the route of its base. */
  ghost predicate Full(s: State) {
    forall i :: 0 <= i < |s.sessions| ==>
      s.sessions[i].session.ioBase in s.table.routes && s.table.routes[s.sessions[i].session.ioBase].id == i
  }

  lemma SessionStep(s: State, a: Step)
    requires Enabled(s, a)
    ensures var t := Apply(s, a);
            && |t.sessions| == |s.sessions| + (if a.Allocate? then 1 else 0)
            && (Closing(t) <==> Closing(s) || a == CloserLocks)
            && (a != CloserLocks ==> t.atLock == s.atLock && t.started == s.started)
  {
    hide Vm.Allocate, Routed;
  }

  lemma ReaderStarts(s: State, a: Step, i: nat)
    requires Enabled(s, a) && i < |Apply(s, a).sessions|
    ensures |s.sessions| <= |Apply(s, a).sessions| <= |s.sessions| + 1
    ensures var t := Apply(s, a);
            t.sessions[i].reader.NotStarted?
            <==> i >= |s.sessions| || (s.sessions[i].reader.NotStarted? && a != StartReader(i))
  {
    hide Vm.Allocate, Routed, Closing;
  }

  lemma FullStep(s: State, a: Step)
    requires Inv(s) && Enabled(s, a) && !Closing(s) && Full(s) && a != CloserLocks
    ensures Full(Apply(s, a))
  {
    hide Apply, Enabled, Inv, Closing;
    if a.Allocate? {
      assert a == Allocate(a.n, a.clientID);
      AllocateFull(s, a.n, a.clientID);
    } else {
      SameSessionsTable(s, a);
    }
  }

  lemma SameSessionsTable(s: State, a: Step)
    requires Enabled(s, a) && !Closing(s) && a != CloserLocks && !a.Allocate?
    ensures var t := Apply(s, a);
            && t.table == s.table && |t.sessions| == |s.sessions|
            && forall i :: 0 <= i < |s.sessions| ==> t.sessions[i].session == s.sessions[i].session
  {
  }

  lemma AllocateFull(s: State, n: int64, clientID: uint64)
    requires Inv(s) && Enabled(s, Allocate(n, clientID)) && Full(s)
    ensures Full(Apply(s, Allocate(n, clientID)))
  {
    var t := Apply(s, Allocate(n, clientID));
    assert |t.sessions| == |s.sessions| + 1;
    hide Apply, SessionsPlaced, RoutesKnown, Apart, Intact, SignalOk, LockOk, SessionsOk;
    forall i | 0 <= i < |t.sessions|
      ensures t.sessions[i].session.ioBase in t.table.routes && t.table.routes[t.sessions[i].session.ioBase].id == i
    {
      AllocateFullAt(s, n, clientID, i);
    }
  }

  lemma AllocateFullAt(s: State, n: int64, clientID: uint64, i: nat)
    requires SessionsPlaced(s.table.next, s.sessions) && Enabled(s, Allocate(n, clientID)) && i <= |s.sessions|
    requires i < |s.sessions| ==>
               s.sessions[i].session.ioBase in s.table.routes && s.table.routes[s.sessions[i].session.ioBase].id == i
    ensures var t := Apply(s, Allocate(n, clientID));
            |t.sessions| == |s.sessions| + 1
            && t.sessions[i].session.ioBase in t.table.routes && t.table.routes[t.sessions[i].session.ioBase].id == i
  {
    hide Vm.Allocate;
    NewRoutes(s.table, n, |s.sessions|, clientID, if i < |s.sessions| then s.sessions[i].session.ioBase else s.table.next);
  }

  /** Until Close takes the lock every session has its route. */
  lemma {:induction false} BeforeLock(steps: seq<Step>)
    requires IsRun(steps)
    ensures |After(steps).sessions| == Allocations(steps)
    ensures Closing(After(steps)) <==> CloserLocks in steps
    ensures CloserLocks !in steps ==> Full(After(steps))
  {
    hide Enabled, Apply, Inv, Full, Closing;
    if steps == [] {
      NoneYet();
    } else {
      var front, last := steps[..|steps| - 1], steps[|steps| - 1];
      assert steps == front + [last];
      BeforeLock(front);
      RunKeeps(front);
      SessionStep(After(front), last);
      if CloserLocks !in steps { FullStep(After(front), last); }
    }
  }

  lemma NoneYet()
    ensures Full(Init()) && !Closing(Init())
  {
  }

  lemma {:induction false} StartedIff(steps: seq<Step>, i: nat)
    requires IsRun(steps) && i < |After(steps).sessions|
    ensures After(steps).sessions[i].reader.NotStarted? <==> StartReader(i) !in steps
  {
    hide Enabled, Apply;
    var front, last := steps[..|steps| - 1], steps[|steps| - 1];
    assert steps == front + [last];
    ReaderStarts(After(front), last, i);
    if i < |After(front).sessions| {
      StartedIff(front, i);
    } else {
      NotYetStarted(front, i);
      NotStartedNow(After(front), last, i);
    }
  }

  lemma NotStartedNow(s: State, a: Step, i: nat)
    requires Enabled(s, a) && i >= |s.sessions|
    ensures a != StartReader(i)
  {
  }

  lemma {:induction false} NotYetStarted(steps: seq<Step>, i: nat)
    requires IsRun(steps) && i >= |After(steps).sessions|
    ensures StartReader(i) !in steps
  {
    hide Enabled, Apply;
    if steps != [] {
      var front, last := steps[..|steps| - 1], steps[|steps| - 1];
      assert steps == front + [last];
      SessionStep(After(front), last);
      NotYetStarted(front, i);
      NotStartedNow(After(front), last, i);
    }
  }

  /** What Close found when it took the lock. */
  lemma FoundAtLock(s: State, i: nat)
    requires RoutesKnown(s.table, s.sessions) && Full(s) && Enabled(s, CloserLocks)
    ensures var t := Apply(s, CloserLocks);
            && (i in t.atLock <==> i < |s.sessions|)
            && (i in t.started <==> i < |s.sessions| && !s.sessions[i].reader.NotStarted?)
  {
    if i < |s.sessions| {
      assert s.table.routes[s.sessions[i].session.ioBase].id == i;
    }
  }

  lemma KnownRoutes(s: State)
    requires Inv(s)
    ensures RoutesKnown(s.table, s.sessions)
  {
  }

  lemma {:induction false} LockHistory(steps: seq<Step>, i: nat)
    requires IsRun(steps) && CloserLocks in steps
    ensures var before := UpToLock(steps);
            && (i in After(steps).atLock <==> i < Allocations(before))
            && (i in After(steps).started <==> StartReader(i) in before)
  {
    hide Enabled, Apply, Inv, Full, Closing;
    var front, last := steps[..|steps| - 1], steps[|steps| - 1];
    assert steps == front + [last];
    BeforeLock(front);
    RunKeeps(front);
    SessionStep(After(front), last);
    if CloserLocks in front {
      LockHistory(front, i);
      LockedOnce(After(front), last);
    } else {
      KnownRoutes(After(front));
      FoundAtLock(After(front), i);
      if i < |After(front).sessions| { StartedIff(front, i); } else { NotYetStarted(front, i); }
    }
  }

  lemma LockedOnce(s: State, a: Step)
    requires Closing(s) && Enabled(s, a)
    ensures a != CloserLocks
  {
  }

  /** So, whatever the order of steps: when Close has let go of the lock, the sessions
      allocated before it took the lock have each been closed exactly once, no other has been
      closed at all, and every reader started before then is over. */
  lemma ClosedIff(steps: seq<Step>, i: nat)
    requires IsRun(steps) && i < Allocations(steps)
    requires After(steps).closer.WantRouter? || After(steps).closer.Finished?
    ensures |After(steps).sessions| == Allocations(steps) && CloserLocks in steps
    ensures var (c, before) := (After(steps).sessions[i], UpToLock(steps));
            && c.closes == (if i < Allocations(before) then 1 else 0)
            && (i < Allocations(before) ==> !c.clientOpen)
            && (StartReader(i) in before ==> c.reader.Over?)
  {
    BeforeLock(steps);
    LockHistory(steps, i);
    EverySessionClosedOnce(steps, i);
    hide IsRun, After, UpToLock, Allocations;
  }
}
