/** What a run of the scheduler calls, in which order, and that nothing else acts: the world, the
    pending events and the running flag after any number of steps follow from the list of calls. */
module HandlerLog {
  import opened Wrappers
  import opened EventQueue
  import opened Scheduler

  // Handler id is called for the event e at time at.
  datatype Call = Call(id: nat, e: Event<Work>, at: nat)

  // A dispatched event calls its own callback if it has one, otherwise the handler that is registered for
  // its type if the type is one of the EVT_TYPE_COUNT known ones, otherwise nothing.
  function CallsAt(d: Dispatched, registered: map<int, nat>): seq<Call> {
    match d.e.what.handler
    case Some(id) => [Call(id, d.e, d.at)]
    case None =>
      if d.e.what.kind in registered && 0 <= d.e.what.kind < 29
      then [Call(registered[d.e.what.kind], d.e, d.at)]
      else []
  }

  function CallsOf(trace: seq<Dispatched>, registered: map<int, nat>): seq<Call> {
    if trace == [] then [] else CallsOf(trace[..|trace| - 1], registered) + CallsAt(trace[|trace| - 1], registered)
  }

  // What such calls, one after the other, make of a world, what they schedule, and whether one stops the run.
  function WorldAfter<W>(h: Handlers<W>, w: W, calls: seq<Call>): W {
    if calls == [] then w
    else
      var c := calls[|calls| - 1];
      h(c.id, WorldAfter(h, w, calls[..|calls| - 1]), c.e, c.at).world
  }

  function ScheduledBy<W>(h: Handlers<W>, w: W, calls: seq<Call>): seq<Event<Work>> {
    if calls == [] then []
    else
      var before, c := calls[..|calls| - 1], calls[|calls| - 1];
      ScheduledBy(h, w, before) + h(c.id, WorldAfter(h, w, before), c.e, c.at).scheduled
  }

  predicate SomeStops<W>(h: Handlers<W>, w: W, calls: seq<Call>) {
    calls != [] &&
    (var before, c := calls[..|calls| - 1], calls[|calls| - 1];
     SomeStops(h, w, before) || h(c.id, WorldAfter(h, w, before), c.e, c.at).stops)
  }

  // The events of one time, in their order in q.
  function AtTime(q: seq<Event<Work>>, time: nat): seq<Event<Work>> {
    if q == [] then []
    else AtTime(q[..|q| - 1], time) + (if q[|q| - 1].timestamp == time then [q[|q| - 1]] else [])
  }

  function Events(trace: seq<Dispatched>): seq<Event<Work>> {
    if trace == [] then [] else Events(trace[..|trace| - 1]) + [trace[|trace| - 1].e]
  }

  // Everything about the state s1 of a run from s that has dispatched trace. Of each time, the events
  // dispatched and then those pending are, in this order, those pending at the start and those scheduled.
  ghost predicate IsResultOf<W>(h: Handlers<W>, s: Sim<W>, trace: seq<Dispatched>, s1: Sim<W>) {
    var calls := CallsOf(trace, s.registered);
    && s1.world == WorldAfter(h, s.world, calls)
    && s1.registered == s.registered
    && s1.running == (s.running && !SomeStops(h, s.world, calls))
    && forall time :: AtTime(Events(trace), time) + AtTime(s1.queue, time)
                      == AtTime(s.queue, time) + AtTime(ScheduledBy(h, s.world, calls), time)
  }

  lemma {:induction false} AtTimeOfSum(q: seq<Event<Work>>, r: seq<Event<Work>>, time: nat)
    ensures AtTime(q + r, time) == AtTime(q, time) + AtTime(r, time)
  {
    if r == [] {
      assert q + r == q;
    } else {
      var r1 := r[..|r| - 1];
      assert (q + r)[..|q + r| - 1] == q + r1;
      AtTimeOfSum(q, r1, time);
    }
  }

  lemma {:induction false} LaterAtTime(q: seq<Event<Work>>, time: nat)
    requires forall x <- q :: x.timestamp > time
    ensures AtTime(q, time) == []
  {
    if q != [] {
      assert q[|q| - 1] in q && forall x <- q[..|q| - 1] :: x in q;
      LaterAtTime(q[..|q| - 1], time);
    }
  }

  lemma OneAtTime(e: Event<Work>, time: nat)
    ensures AtTime([e], time) == if e.timestamp == time then [e] else []
  {
    assert [e][..0] == [];
  }

  lemma InsertSplits(q: seq<Event<Work>>, e: Event<Work>) returns (front: seq<Event<Work>>, back: seq<Event<Work>>)
    ensures q == front + back && Insert(q, e) == front + [e] + back
    ensures forall x <- back :: x.timestamp > e.timestamp
  {
    hide Position;
    var k := Position(q, e);
    front, back := q[..k], q[k..];
  }

  // Insertion puts an event behind all others of its time.
  lemma InsertAtTime(q: seq<Event<Work>>, e: Event<Work>, time: nat)
    ensures AtTime(Insert(q, e), time) == AtTime(q, time) + AtTime([e], time)
  {
    hide AtTime, Insert;
    var front, back := InsertSplits(q, e);
    AtTimeOfSum(front, back, time);
    AtTimeOfSum(front + [e], back, time);
    AtTimeOfSum(front, [e], time);
    OneAtTime(e, time);
    if e.timestamp == time {
      LaterAtTime(back, time);
    }
  }

  lemma {:induction false} InsertAllAtTime(q: seq<Event<Work>>, es: seq<Event<Work>>, time: nat)
    ensures AtTime(InsertAll(q, es), time) == AtTime(q, time) + AtTime(es, time)
  {
    hide Insert, AtTime;
    if es == [] {
      assert AtTime(es, time) == [] by { NoneAtTime(time); }
    } else {
      var before, e := es[..|es| - 1], es[|es| - 1];
      InsertAllAtTime(q, before, time);
      InsertAtTime(InsertAll(q, before), e, time);
      AtTimeOfSum(before, [e], time);
      assert es == before + [e];
    }
  }

  lemma NoneAtTime(time: nat)
    ensures AtTime([], time) == []
  {}

  // How lists of calls, events and effects grow by one dispatch.
  lemma CallsGrow<W>(h: Handlers<W>, w: W, trace: seq<Dispatched>, d: Dispatched, registered: map<int, nat>)
    ensures CallsOf(trace + [d], registered) == CallsOf(trace, registered) + CallsAt(d, registered)
    ensures Events(trace + [d]) == Events(trace) + [d.e]
  {
    assert (trace + [d])[..|trace|] == trace;
  }

  lemma OneMoreCall<W>(h: Handlers<W>, w: W, calls: seq<Call>, c: Call)
    ensures var f, calls1 := h(c.id, WorldAfter(h, w, calls), c.e, c.at), calls + [c];
            && WorldAfter(h, w, calls1) == f.world
            && ScheduledBy(h, w, calls1) == ScheduledBy(h, w, calls) + f.scheduled
            && SomeStops(h, w, calls1) == (SomeStops(h, w, calls) || f.stops)
  {
    assert (calls + [c])[..|calls|] == calls;
  }

  // The effect of a dispatch is that of the call it makes, or nothing.
  lemma EffectIsCall<W>(h: Handlers<W>, w: W, calls: seq<Call>, s: Sim<W>, d: Dispatched)
    requires s.world == WorldAfter(h, w, calls)
    ensures var f, calls1 := EffectOf(h, s, d.e, d.at), calls + CallsAt(d, s.registered);
            && WorldAfter(h, w, calls1) == f.world
            && ScheduledBy(h, w, calls1) == ScheduledBy(h, w, calls) + f.scheduled
            && SomeStops(h, w, calls1) == (SomeStops(h, w, calls) || f.stops)
  {
    hide WorldAfter, ScheduledBy, SomeStops;
    var made := CallsAt(d, s.registered);
    if made == [] {
      assert calls + made == calls;
    } else {
      OneMoreCall(h, w, calls, made[0]);
      assert made == [made[0]];
    }
  }

  lemma StepAtTime<W>(h: Handlers<W>, s: Sim<W>, time: nat)
    requires s.queue != []
    ensures var s1, e := Step(h, s), s.queue[0];
            AtTime([e], time) + AtTime(s1.queue, time)
            == AtTime(s.queue, time) + AtTime(EffectOf(h, s, e, s1.now).scheduled, time)
  {
    hide AtTime, InsertAll;
    var e, rest := s.queue[0], s.queue[1..];
    assert s.queue == [e] + rest;
    AtTimeOfSum([e], rest, time);
    InsertAllAtTime(rest, EffectOf(h, s, e, Step(h, s).now).scheduled, time);
  }

  lemma StepIsCall<W>(h: Handlers<W>, s: Sim<W>, trace: seq<Dispatched>, now: Sim<W>)
    requires IsResultOf(h, s, trace, now) && now.queue != []
    ensures IsResultOf(h, s, trace + [Dispatched(now.queue[0], Step(h, now).now)], Step(h, now))
  {
    hide AtTime, Events, CallsOf, CallsAt, WorldAfter, ScheduledBy, SomeStops, EffectOf, InsertAll;
    var e, next := now.queue[0], Step(h, now);
    var d := Dispatched(e, next.now);
    var calls := CallsOf(trace, s.registered);
    var f := EffectOf(h, now, e, next.now);
    CallsGrow(h, s.world, trace, d, s.registered);
    EffectIsCall(h, s.world, calls, now, d);
    forall time
      ensures AtTime(Events(trace) + [e], time) + AtTime(next.queue, time)
              == AtTime(s.queue, time) + AtTime(ScheduledBy(h, s.world, calls) + f.scheduled, time)
    {
      StepAtTime(h, now, time);
      AtTimeOfSum(Events(trace), [e], time);
      AtTimeOfSum(ScheduledBy(h, s.world, calls), f.scheduled, time);
      MovesOn(AtTime(Events(trace), time), AtTime(now.queue, time), AtTime(s.queue, time),
              AtTime(ScheduledBy(h, s.world, calls), time), AtTime([e], time), AtTime(next.queue, time),
              AtTime(f.scheduled, time));
    }
  }

  lemma MovesOn<T>(done: seq<T>, left: seq<T>, start: seq<T>, more: seq<T>, e: seq<T>, left1: seq<T>, more1: seq<T>)
    requires done + left == start + more && e + left1 == left + more1
    ensures (done + e) + left1 == start + (more + more1)
  {
    assert (done + e) + left1 == done + (e + left1) == (done + left) + more1;
  }

  // A run is its calls. For any handlers, after any number of steps: the world is what the calls of the
  // dispatched events made of it, one after the other; the run goes on unless one of them stopped it; no
  // registration changed; and events of the same time are dispatched in the order of their scheduling.
  lemma {:induction false} RunIsItsCalls<W>(h: Handlers<W>, s: Sim<W>, n: nat)
    ensures IsResultOf(h, s, Trace(h, s, n), Steps(h, s, n))
  {
    hide Step, IsResultOf;
    if n == 0 {
      NoCalls(h, s);
    } else {
      RunIsItsCalls(h, s, n - 1);
      OneMore(h, s, n);
      if Steps(h, s, n - 1).queue != [] {
        StepIsCall(h, s, Trace(h, s, n - 1), Steps(h, s, n - 1));
      }
    }
  }

  lemma NoCalls<W>(h: Handlers<W>, s: Sim<W>)
    ensures IsResultOf(h, s, [], s)
  {}

  // Handlers that log their calls.
  ghost predicate Logging(h: Handlers<seq<Call>>) {
    forall id, w, e, now :: h(id, w, e, now).world == w + [Call(id, e, now)]
  }

  // The log after n steps has one entry per dispatched event that has somebody to call, in order.
  lemma LogIsCalls(h: Handlers<seq<Call>>, s: Sim<seq<Call>>, n: nat)
    requires Logging(h)
    ensures Steps(h, s, n).world == s.world + CallsOf(Trace(h, s, n), s.registered)
  {
    RunIsItsCalls(h, s, n);
    LogGrows(h, s.world, CallsOf(Trace(h, s, n), s.registered));
  }

  lemma {:induction false} LogGrows(h: Handlers<seq<Call>>, w: seq<Call>, calls: seq<Call>)
    requires Logging(h)
    ensures WorldAfter(h, w, calls) == w + calls
  {
    if calls != [] {
      LogGrows(h, w, calls[..|calls| - 1]);
      assert calls == calls[..|calls| - 1] + [calls[|calls| - 1]];
    }
  }
}
