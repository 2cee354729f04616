/** The virtual clock of src/engine/scheduler.c: one step dispatches the earliest event to its
    handler, and the handler may schedule more events, stop the run loop and change the world. */
module Scheduler {
  import opened Wrappers
  import opened EventQueue

  const EVT_TYPE_COUNT := 29

  // kind is the event type; handler is the callback of the event itself, if it has one.
  datatype Work = Work(kind: int, handler: Option<nat>, data: nat)

  // What a handler does: the new world, the events it schedules in that order, and whether it
  // called scheduler_stop.
  datatype Effect<W> = Effect(world: W, scheduled: seq<Event<Work>>, stops: bool)

  // handlers(id, world, event, now): the code behind every handler number.
  type Handlers<!W> = (nat, W, Event<Work>, nat) -> Effect<W>

  datatype Sim<W> = Sim(queue: seq<Event<Work>>, now: nat, running: bool, world: W, registered: map<int, nat>)

  // The event's own callback wins; otherwise the handler registered for its type, if any.
  function HandlerFor(registered: map<int, nat>, what: Work): Option<nat> {
    if what.handler.Some? then what.handler
    else if 0 <= what.kind < EVT_TYPE_COUNT && what.kind in registered then Some(registered[what.kind])
    else None
  }

  function InsertAll(q: seq<Event<Work>>, es: seq<Event<Work>>): seq<Event<Work>> {
    if es == [] then q else Insert(InsertAll(q, es[..|es| - 1]), es[|es| - 1])
  }

  function EffectOf<W>(h: Handlers<W>, s: Sim<W>, e: Event<Work>, now: nat): Effect<W> {
    match HandlerFor(s.registered, e.what)
    case Some(id) => h(id, s.world, e, now)
    case None => Effect(s.world, [], false)
  }

  function Later(a: nat, b: nat): nat {
    if a > b then a else b
  }

  // scheduler_step on a non-empty queue.
  function Dispatch<W>(h: Handlers<W>, s: Sim<W>): Sim<W>
    requires s.queue != []
  {
    var e := s.queue[0];
    var now := Later(e.timestamp, s.now);
    var f := EffectOf(h, s, e, now);
    Sim(InsertAll(s.queue[1..], f.scheduled), now, s.running && !f.stops, f.world, s.registered)
  }

  function Step<W>(h: Handlers<W>, s: Sim<W>): Sim<W> {
    if s.queue == [] then s else Dispatch(h, s)
  }

  // n steps of the unbounded run, and the events they dispatch with the time of dispatch.
  function Steps<W>(h: Handlers<W>, s: Sim<W>, n: nat): Sim<W> {
    if n == 0 then s else Step(h, Steps(h, s, n - 1))
  }

  datatype Dispatched = Dispatched(e: Event<Work>, at: nat)

  function Trace<W>(h: Handlers<W>, s: Sim<W>, n: nat): seq<Dispatched> {
    if n == 0 then []
    else
      var before := Steps(h, s, n - 1);
      if before.queue == [] then Trace(h, s, n - 1)
      else Trace(h, s, n - 1) + [Dispatched(before.queue[0], Step(h, before).now)]
  }

  // ---- what every step keeps ----

  lemma {:induction false} InsertAllKeeps(q: seq<Event<Work>>, es: seq<Event<Work>>)
    ensures multiset(InsertAll(q, es)) == multiset(q) + multiset(es)
    ensures Sorted(q) ==> Sorted(InsertAll(q, es))
    ensures |InsertAll(q, es)| == |q| + |es|
  {
    hide Insert;
    if es != [] {
      var n := |es| - 1;
      InsertAllKeeps(q, es[..n]);
      InsertKeepsElements(InsertAll(q, es[..n]), es[n]);
      if Sorted(q) {
        InsertKeepsOrder(InsertAll(q, es[..n]), es[n]);
      }
      assert es == es[..n] + [es[n]];
    }
  }

  // Each step conserves events: it removes the dispatched one and adds what its handler scheduled.
  lemma StepConserves<W>(h: Handlers<W>, s: Sim<W>)
    requires Sorted(s.queue) && s.queue != []
    ensures var s1, e := Step(h, s), s.queue[0];
            var f := EffectOf(h, s, e, s1.now);
            && Sorted(s1.queue) && s.now <= s1.now
            && multiset(s1.queue) + multiset{e} == multiset(s.queue) + multiset(f.scheduled)
            && |s1.queue| == |s.queue| - 1 + |f.scheduled|
  {
    var e := s.queue[0];
    InsertAllKeeps(s.queue[1..], EffectOf(h, s, e, Later(e.timestamp, s.now)).scheduled);
    assert s.queue == [e] + s.queue[1..];
  }

  // The clock never runs backwards.
  lemma {:induction false} ClockIsMonotone<W>(h: Handlers<W>, s: Sim<W>, m: nat, n: nat)
    requires m <= n
    ensures Steps(h, s, m).now <= Steps(h, s, n).now
  {
    if m < n {
      ClockIsMonotone(h, s, m, n - 1);
    }
  }

  // The clock shows the latest timestamp that was dispatched, or still the time of the start.
  lemma {:induction false} ClockIsLatest<W>(h: Handlers<W>, s: Sim<W>, n: nat)
    ensures var now := Steps(h, s, n).now;
            && s.now <= now && (forall d <- Trace(h, s, n) :: d.e.timestamp <= d.at <= now)
            && (now == s.now || exists d <- Trace(h, s, n) :: d.e.timestamp == now)
  {
    if n > 0 {
      ClockIsLatest(h, s, n - 1);
      var before, now := Steps(h, s, n - 1), Steps(h, s, n).now;
      if before.queue != [] {
        var d := Dispatched(before.queue[0], now);
        assert Trace(h, s, n) == Trace(h, s, n - 1) + [d];
        assert d in Trace(h, s, n) && forall b <- Trace(h, s, n - 1) :: b in Trace(h, s, n);
      }
    }
  }

  // All events that handlers scheduled in n steps, and all that were dispatched.
  ghost function Scheduled<W>(h: Handlers<W>, s: Sim<W>, n: nat): multiset<Event<Work>> {
    if n == 0 then multiset{}
    else
      var before := Steps(h, s, n - 1);
      Scheduled(h, s, n - 1) +
        (if before.queue == [] then multiset{}
         else multiset(EffectOf(h, before, before.queue[0], Step(h, before).now).scheduled))
  }

  ghost function EventsOf(trace: seq<Dispatched>): multiset<Event<Work>> {
    if |trace| == 0 then multiset{} else EventsOf(trace[..|trace| - 1]) + multiset{trace[|trace| - 1].e}
  }

  lemma TraceGrows(trace: seq<Dispatched>, d: Dispatched)
    ensures EventsOf(trace + [d]) == EventsOf(trace) + multiset{d.e}
    ensures multiset(trace + [d]) == multiset(trace) + multiset{d}
  {
    assert (trace + [d])[..|trace|] == trace;
  }

  // Over a whole run no event is lost, duplicated or made up: those at the start and those scheduled
  // are those dispatched and those left.
  lemma {:induction false} RunConserves<W>(h: Handlers<W>, s: Sim<W>, n: nat)
    requires Sorted(s.queue)
    ensures var s1 := Steps(h, s, n);
            && Sorted(s1.queue)
            && multiset(s.queue) + Scheduled(h, s, n) == EventsOf(Trace(h, s, n)) + multiset(s1.queue)
  {
    hide EventsOf, Step, Steps, Trace, Scheduled;
    if n == 0 {
      NothingDispatched(h, s);
    } else {
      RunConserves(h, s, n - 1);
      OneMore(h, s, n);
      var before := Steps(h, s, n - 1);
      if before.queue != [] {
        var e, s1 := before.queue[0], Step(h, before);
        StepConserves(h, before);
        TraceGrows(Trace(h, s, n - 1), Dispatched(e, s1.now));
        Balance(multiset(s.queue) + Scheduled(h, s, n - 1), EventsOf(Trace(h, s, n - 1)), multiset(before.queue),
                multiset(EffectOf(h, before, e, s1.now).scheduled), multiset{e}, multiset(s1.queue));
      }
    }
  }

  lemma Balance<T>(all: multiset<T>, gone: multiset<T>, left: multiset<T>, more: multiset<T>,
                   e: multiset<T>, left1: multiset<T>)
    requires all == gone + left && left1 + e == left + more
    ensures all + more == (gone + e) + left1
  {
    assert all + more == gone + (left + more);
  }

  // How a run goes on from n - 1 steps to n.
  lemma OneMore<W>(h: Handlers<W>, s: Sim<W>, n: nat)
    requires n > 0
    ensures var before, s1 := Steps(h, s, n - 1), Steps(h, s, n);
            if before.queue == [] then
              && s1 == before && Trace(h, s, n) == Trace(h, s, n - 1) && Scheduled(h, s, n) == Scheduled(h, s, n - 1)
            else
              && s1 == Step(h, before)
              && Trace(h, s, n) == Trace(h, s, n - 1) + [Dispatched(before.queue[0], s1.now)]
              && Scheduled(h, s, n) == Scheduled(h, s, n - 1)
                                       + multiset(EffectOf(h, before, before.queue[0], s1.now).scheduled)
  {
    hide Dispatch;
  }

  lemma NothingDispatched<W>(h: Handlers<W>, s: Sim<W>)
    ensures Steps(h, s, 0) == s && Trace(h, s, 0) == []
            && Scheduled(h, s, 0) == multiset{} && EventsOf([]) == multiset{}
  {}

  // ---- on-time dispatch ----

  lemma HeadIsFirst(q: seq<Event<Work>>)
    requires Sorted(q) && |q| > 0
    ensures Sorted(q[1..]) && forall x <- q :: q[0].timestamp <= x.timestamp
  {}

  // While copies of x are pending and x is not in the past, a step either dispatches one of them, at
  // its timestamp, or leaves them all pending and the clock at most at x.
  lemma StepIsOnTime<W>(h: Handlers<W>, s: Sim<W>, x: Event<Work>)
    requires Sorted(s.queue) && x in s.queue && s.now <= x.timestamp
    ensures var s1, e := Step(h, s), s.queue[0];
            && s1.now <= x.timestamp && (e == x ==> s1.now == x.timestamp)
            && multiset(s1.queue)[x] >= multiset(s.queue)[x] - (if e == x then 1 else 0)
  {
    hide InsertAll;
    HeadIsFirst(s.queue);
    StepConserves(h, s);
    var s1, e := Step(h, s), s.queue[0];
    var scheduled := multiset(EffectOf(h, s, e, s1.now).scheduled);
    assert (multiset(s1.queue) + multiset{e})[x] == (multiset(s.queue) + scheduled)[x];
  }

  // Of c copies of x, those that trace does not show dispatched on time are pending and not overdue.
  ghost predicate NoneOverdue<W>(s: Sim<W>, trace: seq<Dispatched>, x: Event<Work>, c: nat) {
    var o := multiset(trace)[Dispatched(x, x.timestamp)];
    o < c ==> s.now <= x.timestamp && multiset(s.queue)[x] >= c - o
  }

  lemma StepKeepsNoneOverdue<W>(h: Handlers<W>, s: Sim<W>, trace: seq<Dispatched>, x: Event<Work>, c: nat)
    requires Sorted(s.queue) && |s.queue| > 0 && NoneOverdue(s, trace, x, c)
    ensures NoneOverdue(Step(h, s), trace + [Dispatched(s.queue[0], Step(h, s).now)], x, c)
  {
    hide Step, Sorted;
    var d := Dispatched(s.queue[0], Step(h, s).now);
    TraceGrows(trace, d);
    if multiset(trace)[Dispatched(x, x.timestamp)] < c {
      assert x in multiset(s.queue);
      StepIsOnTime(h, s, x);
    }
  }

  // On-time dispatch, for handlers that may do anything, the past included: of the c copies of an event
  // that is pending and not overdue, after n steps either o were dispatched exactly at their timestamp
  // and c - o are still pending and not overdue, or all of them were dispatched on time.
  lemma {:induction false} OnTimeDispatch<W>(h: Handlers<W>, s: Sim<W>, x: Event<Work>, n: nat)
    requires Sorted(s.queue) && s.now <= x.timestamp
    ensures NoneOverdue(Steps(h, s, n), Trace(h, s, n), x, multiset(s.queue)[x])
  {
    hide Step, Steps, Trace, Scheduled, Sorted;
    if n == 0 {
      NothingDispatched(h, s);
    } else {
      hide NoneOverdue;
      OnTimeDispatch(h, s, x, n - 1);
      RunConserves(h, s, n - 1);
      OneMore(h, s, n);
      if |Steps(h, s, n - 1).queue| > 0 {
        StepKeepsNoneOverdue(h, Steps(h, s, n - 1), Trace(h, s, n - 1), x, multiset(s.queue)[x]);
      }
    }
  }

  // So every copy has been dispatched, exactly on time, once the clock is past it or nothing is left.
  lemma EveryCopyDispatched<W>(h: Handlers<W>, s: Sim<W>, x: Event<Work>, n: nat)
    requires Sorted(s.queue) && s.now <= x.timestamp
    requires Steps(h, s, n).now > x.timestamp || Steps(h, s, n).queue == []
    ensures multiset(Trace(h, s, n))[Dispatched(x, x.timestamp)] >= multiset(s.queue)[x]
  {
    OnTimeDispatch(h, s, x, n);
  }

  // Handlers schedule events of the class p for the present or the future. Nothing is asked of
  // other events, which may even be scheduled into the past.
  ghost predicate SchedulesOnTime<W(!new)>(h: Handlers<W>, p: Event<Work> -> bool) {
    forall id, w, e, now, x :: x in h(id, w, e, now).scheduled && p(x) ==> x.timestamp >= now
  }

  ghost predicate Pending<W>(s: Sim<W>, p: Event<Work> -> bool) {
    Sorted(s.queue) && forall x :: x in s.queue && p(x) ==> x.timestamp >= s.now
  }

  lemma StepKeepsPending<W(!new)>(h: Handlers<W>, s: Sim<W>, p: Event<Work> -> bool)
    requires SchedulesOnTime(h, p) && Pending(s, p) && s.queue != []
    ensures Pending(Step(h, s), p)
    ensures p(s.queue[0]) ==> Step(h, s).now == s.queue[0].timestamp
  {
    hide InsertAll, Sorted;
    var s1, e := Step(h, s), s.queue[0];
    var scheduled := EffectOf(h, s, e, s1.now).scheduled;
    assert s.queue == [e] + s.queue[1..];
    assert Sorted(s.queue[1..]) && forall x <- s.queue :: e.timestamp <= x.timestamp by { HeadIsFirst(s.queue); }
    InsertAllKeeps(s.queue[1..], scheduled);
    forall x | x in s1.queue && p(x) ensures x.timestamp >= s1.now {
      assert x in multiset(s1.queue);
      assert x in s.queue[1..] || x in scheduled;
    }
  }

  // If moreover no handler schedules an event of the class p late, then no event of p is ever
  // dispatched late, whatever else is scheduled.
  lemma {:induction false} ClassIsOnTime<W(!new)>(h: Handlers<W>, s: Sim<W>, p: Event<Work> -> bool, n: nat)
    requires SchedulesOnTime(h, p) && Pending(s, p)
    ensures Pending(Steps(h, s, n), p)
    ensures forall d <- Trace(h, s, n) :: p(d.e) ==> d.at == d.e.timestamp
  {
    if n > 0 {
      ClassIsOnTime(h, s, p, n - 1);
      var before := Steps(h, s, n - 1);
      if before.queue != [] {
        StepKeepsPending(h, before, p);
      }
    }
  }

  // ---- scheduler_run ----

  // The loop of scheduler_run with at most fuel further steps; None when that is not enough.
  function RunLoop<W>(h: Handlers<W>, s: Sim<W>, fuel: nat): Option<Sim<W>>
    decreases fuel
  {
    if fuel == 0 then None
    else
      var s1 := Step(h, s);
      if s.queue != [] && s1.running then RunLoop(h, s1, fuel - 1) else Some(s1.(running := false))
  }

  // ---- the scheduler in memory ----

  class Scheduler<W> {
    const eq: EventQueue<Work>
    const handlers: Handlers<W>
    var now: nat
    var running: bool
    var world: W
    var registered: map<int, nat>

    ghost predicate Valid()
      reads this, eq
    {
      eq.Valid()
    }

    ghost function Value(): Sim<W>
      requires Valid()
      reads this, eq, eq.events
    {
      Sim(eq.Contents(), now, running, world, registered)
    }

    constructor (capacity: nat, handlers: Handlers<W>, world: W)
      requires capacity > 0
      ensures Valid() && fresh(eq) && fresh(eq.events)
      ensures this.handlers == handlers && Value() == Sim([], 0, false, world, map[])
    {
      eq := new EventQueue<Work>(capacity);
      this.handlers := handlers;
      this.world := world;
      now, running, registered := 0, false, map[];
    }

    // scheduler_register
    method Register(kind: int, id: nat)
      requires Valid()
      modifies this`registered
      ensures registered == if 0 <= kind < EVT_TYPE_COUNT then old(registered)[kind := id] else old(registered)
    {
      if kind < 0 || kind >= EVT_TYPE_COUNT {
        return;
      }
      registered := registered[kind := id];
    }

    // scheduler_schedule
    method Schedule(e: Event<Work>, reallocOk: bool) returns (ok: bool)
      requires Valid()
      modifies eq, eq.events
      ensures Valid() && (eq.events == old(eq.events) || fresh(eq.events))
      ensures ok == (reallocOk || old(eq.count) < old(eq.events.Length))
      ensures Value() == if ok then old(Value()).(queue := Insert(old(Value().queue), e)) else old(Value())
    {
      ok := eq.PushEvent(e, reallocOk);
    }

    // scheduler_stop
    method Stop()
      requires Valid()
      modifies this`running
      ensures Value() == old(Value()).(running := false)
    {
      running := false;
    }

    // scheduler_step; false when there was nothing to do. Handlers find memory for their events.
    method StepOnce() returns (more: bool)
      requires Valid()
      modifies this, eq, eq.events
      ensures Valid() && (eq.events == old(eq.events) || fresh(eq.events))
      ensures more == (old(Value()).queue != [])
      ensures Value() == Step(handlers, old(Value()))
    {
      ghost var was := Value();
      var popped := eq.PopEvent();
      if popped.None? {
        return false;
      }
      var e := popped.value;
      if e.timestamp > now {
        now := e.timestamp;
      }
      var id := HandlerFor(registered, e.what);
      if id.Some? {
        var f := handlers(id.value, world, e, now);
        world := f.world;
        if f.stops {
          running := false;
        }
        ScheduleAll(f.scheduled);
      }
      return true;
    }

    method ScheduleAll(es: seq<Event<Work>>)
      requires Valid()
      modifies eq, eq.events
      ensures Valid() && (eq.events == old(eq.events) || fresh(eq.events))
      ensures eq.Contents() == InsertAll(old(eq.Contents()), es)
    {
      for k := 0 to |es|
        invariant Valid() && (eq.events == old(eq.events) || fresh(eq.events))
        invariant eq.Contents() == InsertAll(old(eq.Contents()), es[..k])
      {
        assert es[..k + 1][..k] == es[..k];
        var ok := Schedule(es[k], true);
      }
      assert es[..|es|] == es;
    }

    // scheduler_run, for a run that ends within fuel steps.
    method Run(ghost fuel: nat)
      requires Valid() && RunLoop(handlers, Value().(running := true), fuel).Some?
      modifies this, eq, eq.events
      ensures Valid() && (eq.events == old(eq.events) || fresh(eq.events))
      ensures Some(Value()) == RunLoop(handlers, old(Value()).(running := true), fuel)
    {
      hide Step, InsertAll;
      running := true;
      ghost var left, result := fuel, RunLoop(handlers, Value(), fuel);
      var more := true;
      while more && running
        invariant Valid() && (eq.events == old(eq.events) || fresh(eq.events))
        invariant if more && running then left > 0 && RunLoop(handlers, Value(), left) == result
                  else result == Some(Value().(running := false))
        decreases left
      {
        more := StepOnce();
        left := left - 1;
      }
      running := false;
    }
  }
}
