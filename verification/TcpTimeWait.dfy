/** The TIME_WAIT timers of src/protocols/tcp.c on the scheduler: entering TIME_WAIT schedules one
    event for the block, and that event alone releases it. */
module TcpTimeWait {
  import opened Slots
  import opened Wrappers
  import opened TcpTypes
  import opened TcpBlock
  import opened TcpTable
  import opened TcpHosts
  import opened EventQueue
  import opened Scheduler

  const EVT_TIMER_EXPIRED := 8

  // The handler number of tcp_time_wait_handler for the table under study.
  const RELEASE := 0

  function TimerEvent(slot: nat, at: nat): Event<Work> {
    Event(at, Work(EVT_TIMER_EXPIRED, Some(RELEASE), slot))
  }

  predicate IsTimer(e: Event<Work>) {
    e.what.handler == Some(RELEASE)
  }

  // The table, when each slot last entered TIME_WAIT, and whatever else is simulated with it.
  datatype World<R> = World(table: Table, since: map<nat, nat>, rest: R)

  // ---- what code other than the timer handler does to the table ----

  predicate NotExpiry(a: TableAction) {
    a.OnSlot? ==> !a.call.Expires?
  }

  // The slot that the action moves into TIME_WAIT, if any.
  function Entering(s: Table, a: TableAction): Option<nat> {
    match a
    case Receives(d, now, ok) =>
      var r := Receive(s, d, now, ok);
      if r.timeWait then r.slot else None
    case _ => None
  }

  datatype Worked = Worked(table: Table, since: map<nat, nat>, timers: seq<Event<Work>>)

  function Work1(s: Worked, a: TableAction, now: nat): Worked {
    var table := TableStep(s.table, a).table;
    match Entering(s.table, a)
    case Some(i) => Worked(table, s.since[i := now], s.timers + [TimerEvent(i, now + TCP_TIME_WAIT_US)])
    case None => s.(table := table)
  }

  function WorkAll(s: Worked, actions: seq<TableAction>, now: nat): Worked {
    if actions == [] then s
    else Work1(WorkAll(s, actions[..|actions| - 1], now), actions[|actions| - 1], now)
  }

  // An effect that does some actions on the table, schedules their timers and no other timer.
  ghost predicate DoesActions<R>(w: World<R>, f: Effect<World<R>>, actions: seq<TableAction>, now: nat) {
    var done := WorkAll(Worked(w.table, w.since, []), actions, now);
    && (forall a <- actions :: NotExpiry(a))
    && f.world.table == done.table && f.world.since == done.since
    && forall x :: IsTimer(x) ==> multiset(f.scheduled)[x] == multiset(done.timers)[x]
  }

  function Expiry<R>(w: World<R>, slot: nat): Effect<World<R>> {
    Effect(if slot < |w.table.tcbs| then w.(table := Expire(w.table, slot)) else w, [], false)
  }

  // Handlers as the sources have them: RELEASE is tcp_time_wait_handler for the slot in its event;
  // every other handler works on the table by calls and received segments.
  ghost predicate TcpHandlers<R(!new)>(h: Handlers<World<R>>) {
    && (forall w: World<R>, e: Event<Work>, now: nat ::
          h(RELEASE, w, e, now) == Expiry(w, e.what.data))
    && (forall id: nat, w: World<R>, e: Event<Work>, now: nat :: id != RELEASE ==>
          DoesSome(w, h(id, w, e, now), now))
  }

  ghost predicate DoesSome<R>(w: World<R>, f: Effect<World<R>>, now: nat) {
    exists actions :: DoesActions(w, f, actions, now)
  }

  // A handler that receives one datagram, and arms the timer if that leads to TIME_WAIT.
  function Arrival<R>(w: World<R>, d: Datagram, now: nat, sendOk: bool): Effect<World<R>> {
    var done := Work1(Worked(w.table, w.since, []), Receives(d, now, sendOk), now);
    Effect(World(done.table, done.since, w.rest), done.timers, false)
  }

  lemma ArrivalDoesAction<R>(w: World<R>, d: Datagram, now: nat, sendOk: bool)
    ensures DoesSome(w, Arrival(w, d, now, sendOk), now)
    ensures var r := Receive(w.table, d, now, sendOk);
            r.timeWait && r.slot.Some? ==>
              Arrival(w, d, now, sendOk).scheduled == [TimerEvent(r.slot.value, now + TCP_TIME_WAIT_US)]
  {
    hide TableStep, Receive;
    var a := Receives(d, now, sendOk);
    var start := Worked(w.table, w.since, []);
    assert WorkAll(start, [a], now) == Work1(start, a, now) by {
      assert [a][..|[a]| - 1] == [] && WorkAll(start, [], now) == start;
    }
    assert DoesActions(w, Arrival(w, d, now, sendOk), [a], now);
  }

  // A simulation of that kind: timers, and a handler 1 that receives any chosen datagrams.
  lemma TcpHandlersExist<R(!new)>(arrivals: nat -> Datagram, sendOk: bool) returns (h: Handlers<World<R>>)
    ensures TcpHandlers(h)
    ensures forall w: World<R>, e: Event<Work>, now: nat ::
              h(1, w, e, now) == Arrival(w, arrivals(e.what.data), now, sendOk)
  {
    hide DoesActions, Work1, Expiry;
    h := (id: nat, w: World<R>, e: Event<Work>, now: nat) =>
      if id == RELEASE then Expiry(w, e.what.data)
      else Arrival(w, arrivals(e.what.data), now, sendOk);
    forall id: nat, w: World<R>, e: Event<Work>, now: nat | id != RELEASE
      ensures DoesSome(w, h(id, w, e, now), now)
    {
      ArrivalDoesAction(w, arrivals(e.what.data), now, sendOk);
      assert h(id, w, e, now) == Arrival(w, arrivals(e.what.data), now, sendOk);
    }
  }

  // ---- the invariant ----

  predicate Waiting(s: Table, i: nat) {
    i < |s.tcbs| && s.tcbs[i].valid && s.tcbs[i].state == TimeWait
  }

  // The pending timer x, of which there are n copies, is the one timer of a block in TIME_WAIT.
  ghost predicate Fits(x: Event<Work>, n: nat, s: Table, since: map<nat, nat>, now: nat) {
    && n == 1 && Waiting(s, x.what.data)
    && x.what.data in since && x == TimerEvent(x.what.data, since[x.what.data] + TCP_TIME_WAIT_US)
    && x.timestamp >= now
  }

  ghost predicate HasTimer(m: multiset<Event<Work>>, since: map<nat, nat>, i: nat) {
    i in since && TimerEvent(i, since[i] + TCP_TIME_WAIT_US) in m
  }

  // m is the multiset of pending events.
  ghost predicate TimersOk(m: multiset<Event<Work>>, s: Table, since: map<nat, nat>, now: nat) {
    && (forall x :: x in m && IsTimer(x) ==> Fits(x, m[x], s, since, now))
    && (forall i: nat :: Waiting(s, i) ==> HasTimer(m, since, i))
  }

  ghost predicate TimeWaitOk<R>(s: Sim<World<R>>) {
    && Sorted(s.queue) && RELEASE !in s.registered.Values
    && TimersOk(multiset(s.queue), s.world.table, s.world.since, s.now)
  }

  lemma SegmentsEnter(t: Tcb, m: Segment, sendOk: bool)
    requires t.valid
    ensures var r := OnSegment(t, m, sendOk);
            && (r.tcb.valid && r.tcb.state == TimeWait <==> t.state == TimeWait || r.timeWait)
            && (r.timeWait ==> t.state != TimeWait)
  {}

  lemma CallsStayOut(t: Tcb, call: SlotCall)
    requires !call.Expires?
    ensures var t1 := SlotOutcome(t, call).tcb; t1.valid && t1.state == TimeWait <==> t.valid && t.state == TimeWait
  {}

  // Nothing but its timer takes a block out of TIME_WAIT, and blocks enter it only with a timer.
  lemma OnlySegmentsEnter(s: Table, a: TableAction, i: nat)
    requires NotExpiry(a)
    ensures Waiting(TableStep(s, a).table, i) <==> Waiting(s, i) || Entering(s, a) == Some(i)
    ensures Entering(s, a).Some? ==> !Waiting(s, Entering(s, a).value)
  {
    hide OnSegment, OnSend, OnClose, OnRetransmit;
    match a
    case Receives(d, now, ok) =>
      match First(s.tcbs, Exact(d.tuple)) {
        case Some(k) => SegmentsEnter(s.tcbs[k], d.segment, ok);
        case None =>
      }
    case OnSlot(k, call) => if k < |s.tcbs| { CallsStayOut(s.tcbs[k], call); }
    case _ =>
  }

  lemma AddTimer(m: multiset<Event<Work>>, s: Table, s1: Table, since: map<nat, nat>, now: nat, i: nat)
    requires TimersOk(m, s, since, now) && !Waiting(s, i)
    requires forall k: nat :: Waiting(s1, k) <==> Waiting(s, k) || k == i
    ensures TimersOk(m + multiset{TimerEvent(i, now + TCP_TIME_WAIT_US)}, s1, since[i := now], now)
  {
    hide Waiting;
    var x, since1 := TimerEvent(i, now + TCP_TIME_WAIT_US), since[i := now];
    var m1 := m + multiset{x};
    assert x !in m;
    forall y | y in m1 && IsTimer(y) ensures Fits(y, m1[y], s1, since1, now) {
      if y != x {
        assert Fits(y, m[y], s, since, now);
      }
    }
    forall k: nat | Waiting(s1, k) ensures HasTimer(m1, since1, k) {
      if k != i {
        assert HasTimer(m, since, k);
      }
    }
  }

  lemma SameWaiting(m: multiset<Event<Work>>, s: Table, s1: Table, since: map<nat, nat>, now: nat)
    requires TimersOk(m, s, since, now) && forall k: nat :: Waiting(s1, k) <==> Waiting(s, k)
    ensures TimersOk(m, s1, since, now)
  {}

  lemma ActionKeepsTimers(m: multiset<Event<Work>>, s: Worked, a: TableAction, now: nat)
    requires TimersOk(m + multiset(s.timers), s.table, s.since, now) && NotExpiry(a)
    ensures var s1 := Work1(s, a, now); TimersOk(m + multiset(s1.timers), s1.table, s1.since, now)
  {
    hide TableStep, Receive, TimersOk, Waiting;
    var s1, entering := Work1(s, a, now), Entering(s.table, a);
    var before := m + multiset(s.timers);
    forall k: nat ensures Waiting(s1.table, k) <==> Waiting(s.table, k) || entering == Some(k) {
      OnlySegmentsEnter(s.table, a, k);
    }
    match entering
    case Some(i) =>
      OnlySegmentsEnter(s.table, a, i);
      AddTimer(before, s.table, s1.table, s.since, now, i);
      assert m + multiset(s1.timers) == before + multiset{TimerEvent(i, now + TCP_TIME_WAIT_US)};
    case None =>
      SameWaiting(before, s.table, s1.table, s.since, now);
  }

  lemma {:induction false} WorkKeepsTimers(m: multiset<Event<Work>>, s: Worked, actions: seq<TableAction>, now: nat)
    requires TimersOk(m + multiset(s.timers), s.table, s.since, now) && forall a <- actions :: NotExpiry(a)
    ensures var s1 := WorkAll(s, actions, now); TimersOk(m + multiset(s1.timers), s1.table, s1.since, now)
  {
    if actions != [] {
      var before, a := actions[..|actions| - 1], actions[|actions| - 1];
      assert a in actions && forall b <- before :: b in actions;
      WorkKeepsTimers(m, s, before, now);
      ActionKeepsTimers(m, WorkAll(s, before, now), a, now);
    }
  }

  // Only the timers among the pending events matter.
  lemma TimersOnly(m: multiset<Event<Work>>, other: multiset<Event<Work>>, s: Table, since: map<nat, nat>, now: nat)
    requires TimersOk(m, s, since, now) && forall x :: IsTimer(x) ==> other[x] == m[x]
    ensures TimersOk(other, s, since, now)
  {}

  // While the earliest pending event is not a timer, time passes without reaching any timer.
  lemma TimePasses(m: multiset<Event<Work>>, s: Table, since: map<nat, nat>, now: nat, later: nat)
    requires TimersOk(m, s, since, now) && forall x :: x in m && IsTimer(x) ==> later <= x.timestamp
    ensures TimersOk(m, s, since, later)
  {}

  lemma ReleaseKeepsTimers(m: multiset<Event<Work>>, x: Event<Work>, s: Table, since: map<nat, nat>, now: nat)
    requires TimersOk(m, s, since, now) && x in m && IsTimer(x)
    ensures TimersOk(m - multiset{x}, Expire(s, x.what.data), since, now)
    ensures |Expire(s, x.what.data).tcbs| == |s.tcbs| && Expire(s, x.what.data).tcbs[x.what.data] == ZERO_TCB
    ensures forall i: nat :: Waiting(s, i) && i != x.what.data ==> Waiting(Expire(s, x.what.data), i)
  {
    var i, s1 := x.what.data, Expire(s, x.what.data);
    assert forall k: nat :: Waiting(s1, k) <==> Waiting(s, k) && k != i;
    assert forall y :: y in m && IsTimer(y) && y.what.data == i ==> y == x;
  }

  lemma DispatchRelease<R(!new)>(h: Handlers<World<R>>, s: Sim<World<R>>)
    requires TcpHandlers(h) && s.queue != [] && IsTimer(s.queue[0])
    requires s.queue[0].timestamp >= s.now && s.queue[0].what.data < |s.world.table.tcbs|
    ensures Step(h, s) == Sim(s.queue[1..], s.queue[0].timestamp, s.running,
                              s.world.(table := Expire(s.world.table, s.queue[0].what.data)), s.registered)
  {
    hide Expire;
    var e := s.queue[0];
    assert HandlerFor(s.registered, e.what) == Some(RELEASE);
    assert EffectOf(h, s, e, e.timestamp) == Effect(s.world.(table := Expire(s.world.table, e.what.data)), [], false);
    assert InsertAll(s.queue[1..], []) == s.queue[1..];
  }

  lemma ReleaseStep<R(!new)>(h: Handlers<World<R>>, s: Sim<World<R>>)
    requires TcpHandlers(h) && TimeWaitOk(s) && s.queue != [] && IsTimer(s.queue[0])
    ensures TimeWaitOk(Step(h, s)) && Released(s, Step(h, s), s.queue[0].what.data)
    ensures forall i: nat :: Waiting(s.world.table, i) && i != s.queue[0].what.data ==>
              Waiting(Step(h, s).world.table, i)
  {
    hide Expire, TimersOk, TcpHandlers, Step;
    var e, m, table, since := s.queue[0], multiset(s.queue), s.world.table, s.world.since;
    QueueHead(s.queue);
    TimerFacts(m, table, since, s.now, e);
    DispatchRelease(h, s);
    forall x | x in m && IsTimer(x) ensures e.timestamp <= x.timestamp {}
    TimePasses(m, table, since, s.now, e.timestamp);
    ReleaseKeepsTimers(m, e, table, since, e.timestamp);
  }

  // The step released the block in slot i, exactly two seconds after it had entered TIME_WAIT.
  ghost predicate Released<R>(s: Sim<World<R>>, s1: Sim<World<R>>, i: nat) {
    && Waiting(s.world.table, i) && i in s.world.since
    && i < |s1.world.table.tcbs| && s1.world.table.tcbs[i] == ZERO_TCB
    && s1.now == s.world.since[i] + 2000000
  }

  lemma QueueHead(q: seq<Event<Work>>)
    requires q != [] && Sorted(q)
    ensures q[0] in multiset(q) && multiset(q[1..]) == multiset(q) - multiset{q[0]}
    ensures forall x :: x in multiset(q) ==> q[0].timestamp <= x.timestamp
    ensures Sorted(q[1..])
  {
    assert q == [q[0]] + q[1..];
  }

  lemma TimerFacts(m: multiset<Event<Work>>, s: Table, since: map<nat, nat>, now: nat, x: Event<Work>)
    requires TimersOk(m, s, since, now) && x in m && IsTimer(x)
    ensures x.timestamp >= now && Waiting(s, x.what.data)
    ensures x.what.data in since && x.timestamp == since[x.what.data] + TCP_TIME_WAIT_US
  {}

  lemma OtherStep<R(!new)>(h: Handlers<World<R>>, s: Sim<World<R>>)
    requires TcpHandlers(h) && TimeWaitOk(s) && s.queue != [] && !IsTimer(s.queue[0])
    ensures TimeWaitOk(Step(h, s))
    ensures forall i :: Waiting(s.world.table, i) ==> Waiting(Step(h, s).world.table, i)
  {
    hide InsertAll, TimersOk, WorkAll;
    var e, rest, s1 := s.queue[0], s.queue[1..], Step(h, s);
    var m := multiset(rest);
    QueueHead(s.queue);
    TimersOnly(multiset(s.queue), m, s.world.table, s.world.since, s.now);
    forall x | x in m && IsTimer(x) ensures s1.now <= x.timestamp {
      TimerFacts(m, s.world.table, s.world.since, s.now, x);
    }
    TimePasses(m, s.world.table, s.world.since, s.now, s1.now);
    InsertAllKeeps(rest, EffectOf(h, s, e, s1.now).scheduled);
    OtherEffect(h, s, e, s1.now, m);
  }

  lemma OtherEffect<R(!new)>(h: Handlers<World<R>>, s: Sim<World<R>>, e: Event<Work>, now: nat,
                    m: multiset<Event<Work>>)
    requires TcpHandlers(h) && RELEASE !in s.registered.Values && !IsTimer(e)
    requires TimersOk(m, s.world.table, s.world.since, now)
    ensures var f := EffectOf(h, s, e, now);
            && TimersOk(m + multiset(f.scheduled), f.world.table, f.world.since, now)
            && forall i :: Waiting(s.world.table, i) ==> Waiting(f.world.table, i)
  {
    hide TimersOk, WorkAll, DoesActions, Waiting;
    var f := EffectOf(h, s, e, now);
    match HandlerFor(s.registered, e.what)
    case None => assert m + multiset([]) == m;
    case Some(id) =>
      assert id != RELEASE;
      var actions :| DoesActions(s.world, f, actions, now);
      EffectKeeps(s.world, f, actions, now, m);
  }

  lemma EffectKeeps<R>(w: World<R>, f: Effect<World<R>>, actions: seq<TableAction>, now: nat, m: multiset<Event<Work>>)
    requires TimersOk(m, w.table, w.since, now) && DoesActions(w, f, actions, now)
    ensures TimersOk(m + multiset(f.scheduled), f.world.table, f.world.since, now)
    ensures forall i :: Waiting(w.table, i) ==> Waiting(f.world.table, i)
  {
    hide TimersOk, WorkAll;
    var start := Worked(w.table, w.since, []);
    var done := WorkAll(start, actions, now);
    assert m + multiset(start.timers) == m;
    WorkKeepsTimers(m, start, actions, now);
    TimersOnly(m + multiset(done.timers), m + multiset(f.scheduled), done.table, done.since, now);
    forall i | Waiting(w.table, i) ensures Waiting(f.world.table, i) {
      WorkKeepsWaiting(start, actions, now, i);
    }
  }

  lemma {:induction false} WorkKeepsWaiting(s: Worked, actions: seq<TableAction>, now: nat, i: nat)
    requires Waiting(s.table, i) && forall a <- actions :: NotExpiry(a)
    ensures Waiting(WorkAll(s, actions, now).table, i)
  {
    hide TableStep;
    if actions != [] {
      var before, a := actions[..|actions| - 1], actions[|actions| - 1];
      assert a in actions && forall b <- before :: b in actions;
      WorkKeepsWaiting(s, before, now, i);
      OnlySegmentsEnter(WorkAll(s, before, now).table, a, i);
    }
  }

  // ---- whole runs ----

  // One turn: a dispatch, or calls and segments from outside any handler, or other code scheduling
  // events of its own at any time.
  datatype Turn = Dispatches | Outside(actions: seq<TableAction>) | Schedules(events: seq<Event<Work>>)

  ghost predicate TurnOk(t: Turn) {
    match t
    case Dispatches => true
    case Outside(actions) => forall a <- actions :: NotExpiry(a)
    case Schedules(events) => forall x <- events :: !IsTimer(x)
  }

  function Take<R>(h: Handlers<World<R>>, s: Sim<World<R>>, t: Turn): Sim<World<R>> {
    match t
    case Dispatches => Step(h, s)
    case Outside(actions) =>
      var done := WorkAll(Worked(s.world.table, s.world.since, []), actions, s.now);
      s.(world := s.world.(table := done.table, since := done.since), queue := InsertAll(s.queue, done.timers))
    case Schedules(events) => s.(queue := InsertAll(s.queue, events))
  }

  function Turns<R>(h: Handlers<World<R>>, s: Sim<World<R>>, ts: seq<Turn>): Sim<World<R>> {
    if ts == [] then s else Take(h, Turns(h, s, ts[..|ts| - 1]), ts[|ts| - 1])
  }

  // What a turn may do to blocks in TIME_WAIT: it leaves all of them, or it is the dispatch of one
  // timer, releases that block on time and leaves the others.
  ghost predicate WaitingKept<R>(s: Sim<World<R>>, s1: Sim<World<R>>) {
    || (forall i :: Waiting(s.world.table, i) ==> Waiting(s1.world.table, i))
    || (s.queue != [] && IsTimer(s.queue[0]) && Released(s, s1, s.queue[0].what.data)
        && forall i :: Waiting(s.world.table, i) && i != s.queue[0].what.data ==> Waiting(s1.world.table, i))
  }

  lemma TurnKeepsTimers<R(!new)>(h: Handlers<World<R>>, s: Sim<World<R>>, t: Turn)
    requires TcpHandlers(h) && TimeWaitOk(s) && TurnOk(t)
    ensures TimeWaitOk(Take(h, s, t)) && WaitingKept(s, Take(h, s, t))
  {
    hide TimersOk, InsertAll, WorkAll, TcpHandlers, Released, Step;
    match t
    case Dispatches =>
      if s.queue == [] {
        EmptyStep(h, s);
      } else if IsTimer(s.queue[0]) {
        ReleaseStep(h, s);
      } else {
        OtherStep(h, s);
      }
    case Outside(actions) =>
      var start := Worked(s.world.table, s.world.since, []);
      var done := WorkAll(start, actions, s.now);
      var m := multiset(s.queue);
      assert m + multiset(start.timers) == m;
      WorkKeepsTimers(m, start, actions, s.now);
      InsertAllKeeps(s.queue, done.timers);
      forall i | Waiting(s.world.table, i) ensures Waiting(done.table, i) {
        WorkKeepsWaiting(start, actions, s.now, i);
      }
    case Schedules(events) =>
      InsertAllKeeps(s.queue, events);
      NoTimersIn(events);
      TimersOnly(multiset(s.queue), multiset(s.queue) + multiset(events), s.world.table, s.world.since, s.now);
  }

  lemma EmptyStep<R>(h: Handlers<World<R>>, s: Sim<World<R>>)
    requires s.queue == []
    ensures Step(h, s) == s
  {}

  lemma NoTimersIn(events: seq<Event<Work>>)
    requires forall x <- events :: !IsTimer(x)
    ensures forall x :: IsTimer(x) ==> multiset(events)[x] == 0
  {
    forall x | IsTimer(x) ensures multiset(events)[x] == 0 {
      assert x !in events;
    }
  }

  // The invariant and what it says of each turn, over whole runs.
  lemma {:induction false} TurnsKeepTimers<R(!new)>(h: Handlers<World<R>>, s: Sim<World<R>>, ts: seq<Turn>)
    requires TcpHandlers(h) && TimeWaitOk(s) && forall t <- ts :: TurnOk(t)
    ensures TimeWaitOk(Turns(h, s, ts))
    ensures forall n :: 0 <= n < |ts| ==> WaitingKept(Turns(h, s, ts[..n]), Turns(h, s, ts[..n + 1]))
  {
    hide TcpHandlers, TimeWaitOk, TurnOk, WaitingKept, Take;
    if ts != [] {
      var before, t := ts[..|ts| - 1], ts[|ts| - 1];
      assert t in ts && forall u <- before :: u in ts;
      TurnsKeepTimers(h, s, before);
      TurnKeepsTimers(h, Turns(h, s, before), t);
      forall n | 0 <= n < |ts| ensures WaitingKept(Turns(h, s, ts[..n]), Turns(h, s, ts[..n + 1])) {
        if n < |before| {
          assert before[..n] == ts[..n] && before[..n + 1] == ts[..n + 1];
        } else {
          assert ts[..n + 1] == ts && ts[..n] == before;
        }
      }
    }
  }

  // A simulation without connections or timers, whatever else is pending.
  ghost predicate NoConnections<R>(s: Sim<World<R>>) {
    && Sorted(s.queue) && RELEASE !in s.registered.Values && (forall x <- s.queue :: !IsTimer(x))
    && s.world.table == Table(seq(TCP_MAX_CONNS, _ => ZERO_TCB), 0)
  }

  lemma EmptyTableHasNoTimers<R>(s: Sim<World<R>>)
    requires NoConnections(s)
    ensures TimeWaitOk(s)
  {
    NoTimersIn(s.queue);
  }

  // TIME_WAIT timers are never stale. In every run from a table without connections: each pending
  // timer refers to a block in TIME_WAIT, each block in TIME_WAIT has exactly one, and no turn takes a
  // block out of TIME_WAIT except the dispatch of its own timer, at its entry time + TCP_TIME_WAIT_US.
  lemma TimersAreNeverStale<R(!new)>(h: Handlers<World<R>>, s: Sim<World<R>>, ts: seq<Turn>)
    requires TcpHandlers(h) && NoConnections(s) && forall t <- ts :: TurnOk(t)
    ensures TimeWaitOk(Turns(h, s, ts))
    ensures forall n :: 0 <= n < |ts| ==> WaitingKept(Turns(h, s, ts[..n]), Turns(h, s, ts[..n + 1]))
  {
    hide TcpHandlers, TimeWaitOk, WaitingKept, Take;
    EmptyTableHasNoTimers(s);
    TurnsKeepTimers(h, s, ts);
  }
}
