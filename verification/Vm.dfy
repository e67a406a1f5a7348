/** The proxy's per-VM object (proxy/vm.go): stream sequence numbers and the table
    that routes frames by them. */
module Vm {
  import opened BigEndian
  import opened Option

  /** The part of an ioSession that never changes once it is made.  `id` stands for
      the identity of the session object. */
  datatype Session = Session(id: nat, nStreams: int64, ioBase: uint64, clientID: uint64) {
    predicate Owns(k: int) {
      ioBase <= k < ioBase + nStreams
    }
  }

  datatype Table = Table(next: uint64, routes: map<uint64, Session>)

  /** `n` consecutive numbers from `base`, in 64-bit arithmetic. */
  ghost function Span(base: uint64, n: int): set<uint64> {
    set k: uint64 | 0 <= k < TWO_TO_THE_64 && Offset(base, k) < n
  }

  /** How far `k` lies behind `base`, going round past zero. */
  function Offset(base: uint64, k: uint64): uint64 {
    if k >= base then k - base else k - base + TWO_TO_THE_64
  }

  lemma SpanWithoutWrap(base: uint64, n: int)
    requires base + n <= TWO_TO_THE_64
    ensures forall k: uint64 :: k in Span(base, n) <==> base <= k < base + n
  {
  }

  /** Every key lies in the range of the session it leads to, that range lies below
      the next number to hand out, and the whole range leads to that session; a
      session is known by its identity. */
  ghost predicate Sound(t: Table) {
    && 1 <= t.next
    && (forall k :: k in t.routes ==> t.routes[k].Owns(k))
    && (forall k :: k in t.routes ==> 1 <= t.routes[k].ioBase && t.routes[k].ioBase + t.routes[k].nStreams <= t.next)
    && (forall k, j: uint64 {:trigger t.routes[k].Owns(j)} ::
          k in t.routes && t.routes[k].Owns(j) ==> j in t.routes && t.routes[j] == t.routes[k])
    && (forall j, k :: j in t.routes && k in t.routes && t.routes[j].id == t.routes[k].id ==> t.routes[j] == t.routes[k])
  }

  /** Two sessions of a sound table never share a number. */
  lemma RangesDisjoint(t: Table, j: uint64, k: uint64, x: int)
    requires Sound(t) && j in t.routes && k in t.routes
    requires t.routes[j].Owns(x) && t.routes[k].Owns(x)
    ensures t.routes[j] == t.routes[k]
  {
    var y: uint64 := x;
    assert t.routes[j].Owns(y) && t.routes[k].Owns(y);
  }

  ghost function Allocate(t: Table, n: int64, id: nat, clientID: uint64): Table {
    var s := Session(id, n, t.next, clientID);
    Table(Wrap64(t.next + n), t.routes + map k | k in Span(t.next, n) :: s)
  }

  /** Handing out numbers keeps the table sound, touches no existing route and uses
      only numbers never handed out before. */
  lemma AllocateKeepsSound(t: Table, n: int64, id: nat, clientID: uint64)
    requires Sound(t) && 0 <= n && t.next + n < TWO_TO_THE_64
    requires forall k :: k in t.routes ==> t.routes[k].id != id
    ensures Sound(Allocate(t, n, id, clientID))
    ensures forall k :: k in t.routes ==>
              k !in Span(t.next, n) && k in Allocate(t, n, id, clientID).routes
              && Allocate(t, n, id, clientID).routes[k] == t.routes[k]
  {
    assert 1 <= t.next;
    hide Span, Allocate, Sound;
    var u, s := Allocate(t, n, id, clientID), Session(id, n, t.next, clientID);
    AllocatedAt(t, n, id, clientID, 0);
    forall k: uint64 | k in t.routes
      ensures k !in Span(t.next, n) && k in u.routes && u.routes[k] == t.routes[k]
    {
      AllocatedAt(t, n, id, clientID, k);
    }
    forall k: uint64 | k in u.routes && k !in t.routes
      ensures u.routes[k] == s && s.Owns(k)
    {
      AllocatedAt(t, n, id, clientID, k);
    }
    forall j: uint64 | s.Owns(j)
      ensures j in u.routes && u.routes[j] == s
    {
      AllocatedAt(t, n, id, clientID, j);
    }
    ExtendedSound(t, u, s);
  }

  /** A sound table with a new session's range above it. */
  lemma ExtendedSound(t: Table, u: Table, s: Session)
    requires Sound(t) && s.ioBase == t.next && 0 <= s.nStreams && u.next == t.next + s.nStreams
    requires forall k :: k in t.routes ==> k in u.routes && u.routes[k] == t.routes[k] && t.routes[k].id != s.id
    requires forall k :: k in u.routes && k !in t.routes ==> u.routes[k] == s && s.Owns(k)
    requires forall j: uint64 :: s.Owns(j) ==> j in u.routes && u.routes[j] == s
    ensures Sound(u)
  {
    forall k, j: uint64 | k in u.routes && u.routes[k].Owns(j)
      ensures j in u.routes && u.routes[j] == u.routes[k]
    {
      if k in t.routes { assert t.routes[k].Owns(j); }
    }
  }

  /** The route of a number after an allocation that does not wrap. */
  lemma AllocatedAt(t: Table, n: int64, id: nat, clientID: uint64, k: uint64)
    requires Sound(t) && 0 <= n && t.next + n < TWO_TO_THE_64
    ensures var u := Allocate(t, n, id, clientID);
            && u.next == t.next + n
            && (k in Span(t.next, n) <==> t.next <= k < t.next + n)
            && (k in t.routes ==> k < t.next)
            && (k in u.routes <==> k in t.routes || t.next <= k < t.next + n)
            && (k in t.routes ==> u.routes[k] == t.routes[k])
            && (t.next <= k < t.next + n ==> u.routes[k] == Session(id, n, t.next, clientID))
  {
    SpanWithoutWrap(t.next, n);
    if k in t.routes { assert t.routes[k].Owns(k); }
  }

  /** The routed ranges end at or below `x`. */
  ghost predicate EndsBelow(t: Table, x: int) {
    forall k :: k in t.routes ==> t.routes[k].ioBase + t.routes[k].nStreams <= x
  }

  /** A count that is not negative and does not run past 2^64, or one that takes the counter
      below zero, from where it wraps to above every number so far, or one that takes it
      back over numbers none of which is in use. */
  ghost predicate SafeCount(t: Table, n: int64) {
    || (0 <= n && t.next + n < TWO_TO_THE_64)
    || t.next + n < 0
    || (n < 0 && 1 <= t.next + n && EndsBelow(t, t.next + n))
  }

  /** Exactly which counts keep the table sound.  The allocateIO handler reports a count
      outside 1..2 but does not stop there, so any count reaches the table. */
  lemma AllocateSoundIff(t: Table, n: int64, id: nat, clientID: uint64)
    requires Sound(t)
    requires forall k :: k in t.routes ==> t.routes[k].id != id
    ensures Sound(Allocate(t, n, id, clientID)) <==> SafeCount(t, n)
  {
    if 0 <= n && t.next + n < TWO_TO_THE_64 {
      AllocateKeepsSound(t, n, id, clientID);
    } else if n >= 0 {
      AllocateOverflows(t, n, id, clientID);
    } else {
      AllocateNegative(t, n, id, clientID);
      hide Span, Allocate;
    }
  }

  lemma AllocateOverflows(t: Table, n: int64, id: nat, clientID: uint64)
    requires TWO_TO_THE_64 <= t.next + n
    ensures !Sound(Allocate(t, n, id, clientID))
  {
    var u := Allocate(t, n, id, clientID);
    assert Offset(t.next, t.next) == 0;
    assert t.next in u.routes && u.routes[t.next] == Session(id, n, t.next, clientID);
  }

  lemma AllocateNegative(t: Table, n: int64, id: nat, clientID: uint64)
    requires n < 0
    ensures Allocate(t, n, id, clientID).routes == t.routes
    ensures Allocate(t, n, id, clientID).next == if t.next + n < 0 then t.next + n + TWO_TO_THE_64 else t.next + n
  {
    assert Span(t.next, n) == {};
  }

  /** A count of -2 gives numbers 1 and 2 to a second session while the first one is
      still using them. */
  lemma NegativeCountReissues()
    ensures var t := Allocate(Allocate(Allocate(Table(1, map[]), 2, 0, 7), -2, 1, 8), 2, 2, 9);
            t == Table(3, map[1 := Session(2, 2, 1, 9), 2 := Session(2, 2, 1, 9)])
  {
    var t0 := Table(1, map[]);
    var t1 := Allocate(t0, 2, 0, 7);
    var t2 := Allocate(t1, -2, 1, 8);
    assert Span(1, 2) == {1, 2} && Span(3, -2) == {};
    assert t1.routes.Keys == {1, 2} && t1.next == 3;
    assert t2 == Table(1, t1.routes);
  }

  ghost function Remove(t: Table, seq_: uint64): Table {
    if seq_ in t.routes then t.(routes := t.routes - Span(seq_, t.routes[seq_].nStreams)) else t
  }

  /** CloseIo counts from the number it was given, not from the session's base, so it
      takes out exactly that session's routes precisely when the two agree. */
  lemma RemoveExactIff(t: Table, k: uint64)
    requires Sound(t) && k in t.routes
    ensures (forall j :: j in t.routes ==> (j in Remove(t, k).routes <==> t.routes[j] != t.routes[k]))
       <==> k == t.routes[k].ioBase
    ensures Sound(Remove(t, k)) <==> k == t.routes[k].ioBase
    ensures Remove(t, k).routes.Keys <= t.routes.Keys
    ensures forall j :: j in Remove(t, k).routes ==> Remove(t, k).routes[j] == t.routes[j]
  {
    var s := t.routes[k];
    var u := Remove(t, k);
    assert s.Owns(k);
    SpanWrapFree(k, s, t);
    var base: uint64 := s.ioBase;
    assert s.Owns(base);
    if k == base {
      forall j | j in t.routes
        ensures j in u.routes <==> t.routes[j] != s
      {
        if s.Owns(j) { assert t.routes[j] == s; }
      }
      forall i, j: uint64 | i in u.routes && u.routes[i].Owns(j)
        ensures j in u.routes && u.routes[j] == u.routes[i]
      {
        assert t.routes[i].Owns(j);
      }
    } else {
      assert base in u.routes && u.routes[base] == s;
      assert k !in u.routes;
      assert u.routes[base].Owns(k);
    }
  }

  const FIRST := Session(0, 2, 1, 7)
  const SECOND := Session(1, 2, 3, 8)
  const TWO_SESSIONS := Table(5, map[1 := FIRST, 2 := FIRST, 3 := SECOND, 4 := SECOND])

  lemma TwoAllocated()
    ensures Allocate(Allocate(Table(1, map[]), 2, 0, 7), 2, 1, 8) == TWO_SESSIONS
  {
    assert Span(1, 2) == {1, 2} && Span(3, 2) == {3, 4};
  }

  lemma TwoSound()
    ensures Sound(TWO_SESSIONS)
  {
  }

  /** Closing the first of two sessions by its second number takes out the second session's
      first route with it, and leaves its own first route behind. */
  lemma CloseIoOfSecondNumber()
    ensures Allocate(Allocate(Table(1, map[]), 2, 0, 7), 2, 1, 8) == TWO_SESSIONS && Sound(TWO_SESSIONS)
    ensures Remove(TWO_SESSIONS, 2) == Table(5, map[1 := FIRST, 4 := SECOND]) && !Sound(Remove(TWO_SESSIONS, 2))
  {
    hide Span, Sound, Allocate, Remove;
    TwoAllocated();
    TwoSound();
    SecondRemoved();
    RemoveExactIff(TWO_SESSIONS, 2);
  }

  lemma SecondRemoved()
    ensures Remove(TWO_SESSIONS, 2) == Table(5, map[1 := FIRST, 4 := SECOND])
  {
    assert Span(2, 2) == {2, 3};
    hide Span;
  }

  /** What closing by any number of a session takes out: the routes from that number on, as
      many as the session has streams, whoever they belong to, counted round past 2^64. */
  lemma RemovedAre(t: Table, k: uint64, j: uint64)
    requires Sound(t) && k in t.routes
    ensures var last := k + t.routes[k].nStreams - 1;
            j in Remove(t, k).routes <==> j in t.routes && !(k <= j <= last) && !(j + TWO_TO_THE_64 <= last)
    ensures j in Remove(t, k).routes ==> Remove(t, k).routes[j] == t.routes[j]
    ensures Remove(t, k).next == t.next
  {
    assert t.routes[k].Owns(k);
    InSpan(k, t.routes[k].nStreams, j);
    hide Span;
  }

  lemma InSpan(k: uint64, n: int64, j: uint64)
    requires 0 <= n
    ensures j in Span(k, n) <==> k <= j < k + n || j + TWO_TO_THE_64 < k + n
  {
  }

  lemma SpanWrapFree(k: uint64, s: Session, t: Table)
    requires Sound(t) && k in t.routes && s == t.routes[k]
    ensures k in Span(k, s.nStreams)
    ensures forall j: uint64 :: s.Owns(j) && j >= k ==> j in Span(k, s.nStreams)
    ensures forall j: uint64 :: j < k && s.Owns(j) ==> j !in Span(k, s.nStreams)
    ensures k == s.ioBase ==> forall j: uint64 :: j in Span(k, s.nStreams) ==> s.Owns(j)
  {
    assert s.Owns(k);
  }

  /** The counts that leave the counter above every number ever handed out. */
  ghost predicate FreshCount(next: uint64, n: int64, issued: set<uint64>) {
    || (0 <= n && next + n < TWO_TO_THE_64)
    || next + n < 0
    || (n < 0 && 1 <= next + n && forall x :: x in issued ==> x < next + n)
  }

  lemma IssuedBelow(t: Table, issued: set<uint64>, x: int)
    requires Sound(t) && t.routes.Keys <= issued && forall y :: y in issued ==> y < x
    ensures EndsBelow(t, x)
  {
    forall k | k in t.routes
      ensures t.routes[k].ioBase + t.routes[k].nStreams <= x
    {
      var last: uint64 := t.routes[k].ioBase + t.routes[k].nStreams - 1;
      assert t.routes[k].Owns(last);
    }
  }

  lemma AllocatedKeys(t: Table, n: int64, id: nat, clientID: uint64, issued: set<uint64>)
    requires t.routes.Keys <= issued
    ensures Allocate(t, n, id, clientID).routes.Keys <= issued + Span(t.next, n)
    ensures forall k :: k in Allocate(t, n, id, clientID).routes ==>
              || (k in t.routes && Allocate(t, n, id, clientID).routes[k].id == t.routes[k].id)
              || Allocate(t, n, id, clientID).routes[k].id == id
  {
    hide Span;
  }

  /** A sound table whose sessions are among the first `count`, and whose numbers are among
      those handed out, all of them below the counter. */
  ghost predicate Accounted(t: Table, count: nat, issued: set<uint64>) {
    && Sound(t)
    && (forall k :: k in t.routes ==> t.routes[k].id < count)
    && t.routes.Keys <= issued
    && (forall x :: x in issued ==> 1 <= x < t.next)
  }

  lemma AllocateAccountedIff(t: Table, n: int64, clientID: uint64, count: nat, issued: set<uint64>)
    requires Accounted(t, count, issued)
    ensures Accounted(Allocate(t, n, count, clientID), count + 1, issued + Span(t.next, n)) <==> FreshCount(t.next, n, issued)
    ensures 0 <= n && t.next + n < TWO_TO_THE_64 ==> Span(t.next, n) !! issued
  {
    AllocateSoundIff(t, n, count, clientID);
    AllocatedKeys(t, n, count, clientID, issued);
    if 0 <= n && t.next + n < TWO_TO_THE_64 {
      SpanWithoutWrap(t.next, n);
      assert Allocate(t, n, count, clientID).next == t.next + n;
    } else if n < 0 {
      AllocateNegative(t, n, count, clientID);
      assert Span(t.next, n) == {};
      if forall x :: x in issued ==> x < t.next + n { IssuedBelow(t, issued, t.next + n); }
    }
    hide Span, Allocate, Sound, EndsBelow;
  }

  /** newVM, AllocateIo, findSession, CloseIo and Close.  `closes` counts, per session,
      how often its client socket has been closed. */
  class VirtualMachine {
    var nextIoBase: uint64
    var ioSessions: map<uint64, Session>
    var sessionCount: nat
    var closes: multiset<nat>
    ghost var issued: set<uint64>

    ghost function View(): Table
      reads this
    {
      Table(nextIoBase, ioSessions)
    }

    ghost predicate Valid()
      reads this
    {
      Accounted(View(), sessionCount, issued)
    }

    constructor ()
      ensures Valid() && nextIoBase == 1 && ioSessions == map[] && issued == {} && closes == multiset{}
    {
      nextIoBase, ioSessions, sessionCount, closes, issued := 1, map[], 0, multiset{}, {};
    }

    /** The new state is Allocate's whatever the count; while the count is not
        negative and the counter does not wrap, no number handed out earlier, even
        to a session long gone, is handed out again, and FreshCount says exactly when
        the counter is still above all of them afterwards. */
    method AllocateIo(n: int64, clientID: uint64) returns (ioBase: uint64)
      modifies this
      ensures ioBase == old(nextIoBase)
      ensures View() == Allocate(old(View()), n, old(sessionCount), clientID)
      ensures closes == old(closes) && sessionCount == old(sessionCount) + 1
      ensures issued == old(issued) + Span(ioBase, n)
      ensures old(Valid()) && 0 <= n && old(nextIoBase) + n < TWO_TO_THE_64 ==> Span(ioBase, n) !! old(issued)
      ensures old(Valid()) ==> (Valid() <==> FreshCount(ioBase, n, old(issued)))
    {
      ghost var t := View();
      ioBase := nextIoBase;
      nextIoBase := Wrap64(nextIoBase + n);
      var session := Session(sessionCount, n, ioBase, clientID);
      sessionCount := sessionCount + 1;
      AddRoutes(ioBase, n, session);
      issued := issued + Span(ioBase, n);
      if old(Valid()) {
        AllocateAccountedIff(t, n, clientID, session.id, old(issued));
        hide Span, Allocate, Accounted, FreshCount;
      }
    }

    method FindSession(k: uint64) returns (r: Option<Session>)
      ensures r == if k in ioSessions then Some(ioSessions[k]) else None
    {
      if k in ioSessions { r := Some(ioSessions[k]); } else { r := None; }
    }

    method AddRoutes(k: uint64, n: int64, session: Session)
      modifies this`ioSessions
      ensures ioSessions == old(ioSessions) + map j | j in Span(k, n) :: session
    {
      var i := 0;
      while i < n
        invariant 0 <= i && (i <= n || i == 0)
        invariant ioSessions == old(ioSessions) + map j | j in Span(k, i) :: session
      {
        SpanStep(k, i);
        ioSessions := ioSessions[Wrap64(k + i) := session];
        i := i + 1;
      }
      assert Span(k, i) == Span(k, n);
    }

    method DeleteRoutes(k: uint64, n: int64)
      modifies this`ioSessions
      ensures ioSessions == old(ioSessions) - Span(k, n)
    {
      var i := 0;
      while i < n
        invariant 0 <= i && (i <= n || i == 0)
        invariant ioSessions == old(ioSessions) - Span(k, i)
      {
        SpanStep(k, i);
        ioSessions := ioSessions - {Wrap64(k + i)};
        i := i + 1;
      }
      assert Span(k, i) == Span(k, n);
    }

    /** CloseIo: the routes counted from `k` go, and the session found there is
        closed once. */
    method CloseIo(k: uint64)
      modifies this
      ensures View() == Remove(old(View()), k)
      ensures k !in old(ioSessions) ==> closes == old(closes)
      ensures k in old(ioSessions) ==> closes == old(closes) + multiset{old(ioSessions)[k].id}
      ensures issued == old(issued) && nextIoBase == old(nextIoBase)
      ensures old(Valid()) ==> (Valid() <==> (k in old(ioSessions) ==> old(ioSessions)[k].ioBase == k))
    {
      if Valid() && k in ioSessions { RemoveExactIff(View(), k); }
      if k !in ioSessions {
        return;
      }
      var session := ioSessions[k];
      DeleteRoutes(k, session.nStreams);
      closes := closes + multiset{session.id};
    }

    /** Close visits the routes in whatever order the map yields them.  Each session
        with a route is closed exactly once, at its base number, and the table ends
        empty. */
    method Close()
      requires Valid()
      modifies this
      ensures ioSessions == map[] && Valid()
      ensures forall id :: closes[id] == old(closes)[id]
                + (if exists k :: k in old(ioSessions) && old(ioSessions)[k].id == id then 1 else 0)
      ensures issued == old(issued) && nextIoBase == old(nextIoBase)
    {
      ghost var t, start := View(), closes;
      Unvisited(t, start);
      assert Sound(t);
      hide Tally, PartOf, Accounted, Sound;
      while ioSessions != map[]
        invariant PartOf(ioSessions, t.routes) && Tally(t, ioSessions.Keys, start, closes)
        invariant issued == old(issued) && nextIoBase == old(nextIoBase) && sessionCount == old(sessionCount)
        decreases |ioSessions|
      {
        ghost var before, counted := ioSessions, closes;
        ghost var k := CloseOne();
        Visited(t, before, k, start, counted, closes);
      }
      assert ioSessions.Keys == {};
      AllVisited(t, sessionCount, issued, start, closes);
    }

    /** One turn: whichever route the map yields. */
    method CloseOne() returns (ghost k: uint64)
      requires ioSessions != map[]
      modifies this`ioSessions, this`closes
      ensures k in old(ioSessions) && ioSessions == old(ioSessions) - {k} && |ioSessions| < |old(ioSessions)|
      ensures var session := old(ioSessions)[k];
              closes == if k == session.ioBase then old(closes) + multiset{session.id} else old(closes)
    {
      var key :| key in ioSessions;
      k := key;
      var session := ioSessions[key];
      ioSessions := ioSessions - {key};
      assert ioSessions.Keys == old(ioSessions).Keys - {key};
      if key == session.ioBase {
        closes := closes + multiset{session.id};
      }
    }
  }

  ghost predicate PartOf(m: map<uint64, Session>, routes: map<uint64, Session>) {
    forall k :: k in m ==> k in routes && m[k] == routes[k]
  }

  /** With the routes in `left` still to visit, each session is closed if its base number
      is not among them. */
  ghost predicate Tally(t: Table, left: set<uint64>, start: multiset<nat>, now: multiset<nat>) {
    forall id :: now[id] == start[id] + Closed(t, left, id)
  }

  lemma Unvisited(t: Table, start: multiset<nat>)
    ensures PartOf(t.routes, t.routes) && Tally(t, t.routes.Keys, start, start)
  {
  }

  /** One turn of the loop in Close. */
  lemma Visited(t: Table, m: map<uint64, Session>, k: uint64, start: multiset<nat>, before: multiset<nat>, after: multiset<nat>)
    requires Sound(t) && PartOf(m, t.routes) && k in m && Tally(t, m.Keys, start, before)
    requires after == if k == m[k].ioBase then before + multiset{m[k].id} else before
    ensures PartOf(m - {k}, t.routes) && Tally(t, (m - {k}).Keys, start, after)
  {
    assert (m - {k}).Keys == m.Keys - {k};
    forall id
      ensures after[id] == start[id] + Closed(t, m.Keys - {k}, id)
    {
      ClosedStep(t, m.Keys, k, id);
    }
    hide Closed, Sound;
  }

  lemma AllVisited(t: Table, count: nat, issued: set<uint64>, start: multiset<nat>, now: multiset<nat>)
    requires Accounted(t, count, issued) && Tally(t, {}, start, now)
    ensures forall id :: now[id] == start[id] + (if exists k :: k in t.routes && t.routes[k].id == id then 1 else 0)
    ensures Accounted(Table(t.next, map[]), count, issued)
  {
    forall id
      ensures Closed(t, {}, id) == if exists k :: k in t.routes && t.routes[k].id == id then 1 else 0
    {
      if k :| k in t.routes && t.routes[k].id == id {
        assert t.routes[k].Owns(t.routes[k].ioBase);
      }
    }
  }

  lemma SpanStep(base: uint64, i: nat)
    requires i < TWO_TO_THE_64
    ensures Span(base, i + 1) == Span(base, i) + {Wrap64(base + i)}
  {
  }

  /** 1 once the route at the session's base number has been visited. */
  ghost function Closed(t: Table, left: set<uint64>, id: nat): nat {
    if exists k :: k in t.routes && k !in left && t.routes[k].id == id && t.routes[k].ioBase == k then 1 else 0
  }

  lemma ClosedStep(t: Table, left: set<uint64>, k: uint64, id: nat)
    requires Sound(t) && k in left && k in t.routes
    ensures Closed(t, left - {k}, id)
         == Closed(t, left, id) + (if k == t.routes[k].ioBase && t.routes[k].id == id then 1 else 0)
  {
    if k == t.routes[k].ioBase && t.routes[k].id == id {
      assert k !in left - {k};
      if j :| j in t.routes && j !in left && t.routes[j].id == id && t.routes[j].ioBase == j {
        assert false;
      }
    } else if Closed(t, left, id) == 1 {
      var j :| j in t.routes && j !in left && t.routes[j].id == id && t.routes[j].ioBase == j;
      assert j !in left - {k};
    }
  }

  // ------------------------------------------------------------------
  // The allocateIO request.

  datatype HandlerResponse = HandlerResponse(failed: bool, ioBase: Option<uint64>, passesFd: bool)

  /** allocateIoHandler.  A count outside 1..2 makes the response an error, but the
      numbers are allocated and sent all the same; only a missing VM or a socket
      failure stops the allocation. */
  method AllocateIoHandler(vm: VirtualMachine?, nStreams: int64, clientID: uint64, socketsOk: bool)
    returns (r: HandlerResponse)
    modifies vm
    ensures r.failed <==> !(1 <= nStreams <= 2) || vm == null || !socketsOk
    ensures r.ioBase.Some? <==> vm != null && socketsOk
    ensures r.passesFd <==> r.ioBase.Some?
    ensures vm != null ==>
              vm.View() == if socketsOk then Allocate(old(vm.View()), nStreams, old(vm.sessionCount), clientID)
                           else old(vm.View())
    ensures r.ioBase.Some? ==> r.ioBase.value == old(vm.nextIoBase)
    ensures vm != null && old(vm.Valid()) && !r.failed && old(vm.nextIoBase) + 2 < TWO_TO_THE_64 ==> vm.Valid()
  {
    r := HandlerResponse(false, None, false);
    if nStreams < 1 || nStreams > 2 {
      r := r.(failed := true);
    }
    if vm == null {
      return r.(failed := true);
    }
    if !socketsOk {
      return r.(failed := true);
    }
    var ioBase := vm.AllocateIo(nStreams, clientID);
    r := r.(ioBase := Some(ioBase), passesFd := true);
  }

  // ------------------------------------------------------------------
  // The number on its way to the shim.

  /** `(int) json_reader_get_int_value(...)`: the low 32 bits, as a signed number. */
  function NarrowToInt(v: uint64): int {
    var w := v % TWO_TO_THE_32;
    if w < TWO_TO_THE_31 then w else w - TWO_TO_THE_32
  }

  /** The shim parses its `-s` argument as a signed number, refuses -1 and 0, and keeps
      the rest as an unsigned 64-bit number. */
  function ShimSeqNo(ioBase: uint64): Option<uint64> {
    var v := NarrowToInt(ioBase);
    if v == -1 || v == 0 then None else Some(Wrap64(v))
  }

  /** The shim listens on the number the proxy allocated exactly when that number
      survives 32-bit sign extension. */
  lemma ShimSeqNoIff(ioBase: uint64)
    requires ioBase != 0
    ensures ShimSeqNo(ioBase) == Some(ioBase)
       <==> ioBase < TWO_TO_THE_31 || TWO_TO_THE_64 - TWO_TO_THE_31 <= ioBase < TWO_TO_THE_64 - 1
  {
    var w := ioBase % TWO_TO_THE_32;
    var q := ioBase / TWO_TO_THE_32;
    assert ioBase == q * TWO_TO_THE_32 + w && 0 <= q < TWO_TO_THE_32;
    if w < TWO_TO_THE_31 {
      assert Wrap64(w) == w;
    } else {
      assert Wrap64(w - TWO_TO_THE_32) == w - TWO_TO_THE_32 + TWO_TO_THE_64;
    }
  }

  /** The first number that does not survive comes out as one close to 2^64. */
  lemma ShimSeqNoLost()
    ensures ShimSeqNo(TWO_TO_THE_31) == Some(TWO_TO_THE_64 - TWO_TO_THE_31)
  {
  }
}
