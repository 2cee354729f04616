/** The run loop of src/engine/simulator.c with its end time, as a prefix of the unbounded run. */
module Simulator {
  import opened Wrappers
  import opened Scheduler

  // The loop of simulator_run with at most fuel iterations; None when that is not enough.
  function SimLoop<W>(h: Handlers<W>, s: Sim<W>, endTime: nat, fuel: nat): Option<Sim<W>>
    decreases fuel
  {
    if !s.running then Some(s)
    else if fuel == 0 then None
    else
      var s1 := Step(h, s);
      var s2 := if s.queue == [] then s1.(running := false) else s1;
      var s3 := if endTime > 0 && s2.now >= endTime then s2.(running := false) else s2;
      SimLoop(h, s3, endTime, fuel - 1)
  }

  function Started<W>(s: Sim<W>): Sim<W> {
    s.(running := true)
  }

  function SimRun<W>(h: Handlers<W>, s: Sim<W>, endTime: nat, fuel: nat): Option<Sim<W>> {
    SimLoop(h, Started(s), endTime, fuel)
  }

  // Where a bounded run may end: nothing left, a handler stopped it, or the end time was reached.
  predicate Ends<W>(s: Sim<W>, endTime: nat) {
    s.queue == [] || !s.running || (endTime > 0 && s.now >= endTime)
  }

  // k is the length of the shortest non-empty run (empty only for an empty queue) that ends.
  ghost predicate ShortestEnd<W>(h: Handlers<W>, s: Sim<W>, endTime: nat, k: nat) {
    && (k == 0 <==> s.queue == [])
    && (k > 0 ==> Ends(Steps(h, s, k), endTime))
    && forall j :: 0 < j < k ==> !Ends(Steps(h, s, j), endTime)
  }

  lemma {:induction false} StepsFromStep<W>(h: Handlers<W>, s: Sim<W>, n: nat)
    ensures Steps(h, Step(h, s), n) == Steps(h, s, n + 1)
  {
    hide Step;
    if n > 0 {
      StepsFromStep(h, s, n - 1);
    }
  }

  lemma {:induction false} StepsCompose<W>(h: Handlers<W>, s: Sim<W>, m: nat, n: nat)
    ensures Steps(h, Steps(h, s, m), n) == Steps(h, s, m + n)
  {
    hide Step;
    if n > 0 {
      StepsCompose(h, s, m, n - 1);
    }
  }

  lemma {:induction false} TraceComposes<W>(h: Handlers<W>, s: Sim<W>, m: nat, n: nat)
    ensures Trace(h, s, m + n) == Trace(h, s, m) + Trace(h, Steps(h, s, m), n)
  {
    hide Step;
    if n > 0 {
      TraceComposes(h, s, m, n - 1);
      StepsCompose(h, s, m, n - 1);
      assert m + n - 1 == m + (n - 1);
    }
  }

  lemma LoopHasStopped<W>(h: Handlers<W>, s: Sim<W>, endTime: nat, fuel: nat)
    requires !s.running
    ensures SimLoop(h, s, endTime, fuel) == Some(s)
  {}

  // simulator_run dispatches the shortest non-empty prefix of the unbounded run at whose end it has
  // to stop, and leaves the state that this prefix leaves.
  lemma {:induction false} BoundedRunIsShortestPrefix<W>(h: Handlers<W>, s: Sim<W>, endTime: nat, fuel: nat)
    returns (k: nat)
    requires s.running && SimLoop(h, s, endTime, fuel).Some?
    ensures ShortestEnd(h, s, endTime, k)
    ensures SimLoop(h, s, endTime, fuel) == Some(Steps(h, s, k).(running := false))
    decreases fuel
  {
    hide Dispatch;
    var s1 := Step(h, s);
    assert Steps(h, s, 1) == s1 by { assert Steps(h, s, 0) == s; }
    if s.queue == [] {
      k := 0;
      LoopHasStopped(h, s1.(running := false), endTime, fuel - 1);
    } else if !s1.running || (endTime > 0 && s1.now >= endTime) {
      k := 1;
      LoopHasStopped(h, s1.(running := false), endTime, fuel - 1);
    } else {
      var l := BoundedRunIsShortestPrefix(h, s1, endTime, fuel - 1);
      k := l + 1;
      StepsFromStep(h, s, l);
      forall j | 0 < j < k ensures !Ends(Steps(h, s, j), endTime) {
        StepsFromStep(h, s, j - 1);
        if j > 1 {
          assert !Ends(Steps(h, s1, j - 1), endTime);
        }
      }
    }
  }

  ghost predicate NeverStops<W(!new)>(h: Handlers<W>) {
    forall id, w, e, now :: !h(id, w, e, now).stops
  }

  lemma {:induction false} NothingStops<W(!new)>(h: Handlers<W>, s: Sim<W>, n: nat)
    requires NeverStops(h) && s.running
    ensures Steps(h, s, n).running
  {
    if n > 0 {
      NothingStops(h, s, n - 1);
    }
  }

  // The unbounded run is over after exactly n dispatches.
  ghost predicate Exhausts<W>(h: Handlers<W>, s: Sim<W>, n: nat) {
    Steps(h, s, n).queue == [] && forall j :: 0 <= j < n ==> Steps(h, s, j).queue != []
  }

  lemma ExhaustsRest<W>(h: Handlers<W>, s: Sim<W>, k: nat, n: nat)
    requires Exhausts(h, s, n) && k <= n
    ensures Exhausts(h, Steps(h, s, k), n - k)
  {
    hide Steps;
    StepsCompose(h, s, k, n - k);
    forall j | 0 <= j < n - k ensures Steps(h, Steps(h, s, k), j).queue != [] {
      StepsCompose(h, s, k, j);
      assert Steps(h, s, k + j).queue != [];
    }
  }

  // The loop without end time runs exactly until the queue is empty.
  lemma UnboundedRun<W(!new)>(h: Handlers<W>, s: Sim<W>, n: nat, fuel: nat)
    requires NeverStops(h) && s.running && fuel > n && Exhausts(h, s, n)
    ensures SimLoop(h, s, 0, fuel) == Some(Steps(h, s, n).(running := false))
  {
    hide Step;
    EnoughFuel(h, s, 0, n, fuel);
    var k := BoundedRunIsShortestPrefix(h, s, 0, fuel);
    NothingStops(h, s, k);
    NothingStops(h, s, n);
    assert Steps(h, s, 0) == s;
    assert Ends(Steps(h, s, n), 0);
  }

  // The state after k dispatches from s, with the run stopped.
  function StoppedAfter<W>(h: Handlers<W>, s: Sim<W>, k: nat): Sim<W> {
    Steps(h, Started(s), k).(running := false)
  }

  // If no handler stops the run and the unbounded run ends after n dispatches, then a bounded run
  // followed by an unlimited one dispatches the same trace and leaves the same state.
  lemma ResumedRunCompletes<W(!new)>(h: Handlers<W>, s: Sim<W>, endTime: nat, n: nat, fuel: nat) returns (k: nat)
    requires NeverStops(h) && fuel > n && Exhausts(h, Started(s), n)
    ensures k <= n && ShortestEnd(h, Started(s), endTime, k)
    ensures SimRun(h, s, endTime, fuel) == Some(StoppedAfter(h, s, k))
    ensures SimRun(h, s, 0, fuel) == Some(StoppedAfter(h, s, n))
    ensures SimRun(h, StoppedAfter(h, s, k), 0, fuel) == Some(StoppedAfter(h, s, n))
    ensures Trace(h, Started(s), n) == Trace(h, Started(s), k) + Trace(h, Started(StoppedAfter(h, s, k)), n - k)
  {
    hide Step, SimLoop, Trace;
    var r := Started(s);
    EnoughFuel(h, r, endTime, n, fuel);
    k := BoundedRunIsShortestPrefix(h, r, endTime, fuel);
    assert Steps(h, r, 0) == r;
    if n < k {
      assert Ends(Steps(h, r, n), endTime);
    }
    NothingStops(h, r, k);
    assert Started(StoppedAfter(h, s, k)) == Steps(h, r, k);
    StepsCompose(h, r, k, n - k);
    TraceComposes(h, r, k, n - k);
    ExhaustsRest(h, r, k, n);
    UnboundedRun(h, r, n, fuel);
    UnboundedRun(h, Steps(h, r, k), n - k, fuel);
  }

  // Whether or not the simulation ever ends: what follows a bounded run is what the unbounded run does
  // next, for any number of further dispatches.
  lemma BoundedRunContinues<W(!new)>(h: Handlers<W>, s: Sim<W>, endTime: nat, fuel: nat, m: nat) returns (k: nat)
    requires NeverStops(h) && SimRun(h, s, endTime, fuel).Some?
    ensures ShortestEnd(h, Started(s), endTime, k) && SimRun(h, s, endTime, fuel) == Some(StoppedAfter(h, s, k))
    ensures Steps(h, Started(StoppedAfter(h, s, k)), m) == Steps(h, Started(s), k + m)
    ensures Trace(h, Started(s), k + m) == Trace(h, Started(s), k) + Trace(h, Started(StoppedAfter(h, s, k)), m)
  {
    hide Step, SimLoop, Trace, Steps;
    k := BoundedRunIsShortestPrefix(h, Started(s), endTime, fuel);
    NothingStops(h, Started(s), k);
    assert Started(StoppedAfter(h, s, k)) == Steps(h, Started(s), k);
    StepsCompose(h, Started(s), k, m);
    TraceComposes(h, Started(s), k, m);
  }

  lemma ShortestIsUnique<W>(h: Handlers<W>, s: Sim<W>, endTime: nat, k: nat, l: nat)
    requires ShortestEnd(h, s, endTime, k) && ShortestEnd(h, s, endTime, l)
    ensures k == l
  {}

  // A run whose end time has passed already still dispatches one event.
  lemma PastTheEnd<W>(h: Handlers<W>, s: Sim<W>, endTime: nat, k: nat)
    requires s.queue != [] && 0 < endTime <= s.now && ShortestEnd(h, s, endTime, k)
    ensures k == 1
  {
    hide Step, Steps;
    AtStart(h, s);
    ClockIsMonotone(h, s, 0, 1);
    ShortestIsUnique(h, s, endTime, k, 1);
  }

  // A run that ends before a later end time is the first part of the run to that.
  lemma RunsJoin<W(!new)>(h: Handlers<W>, r: Sim<W>, t1: nat, t2: nat, k1: nat, k2: nat)
    requires NeverStops(h) && r.running && 0 < t1 && (t1 <= t2 || t2 == 0)
    requires ShortestEnd(h, r, t1, k1) && ShortestEnd(h, Steps(h, r, k1), t2, k2)
    requires Steps(h, r, k1).queue != [] && !(0 < t2 <= Steps(h, r, k1).now)
    ensures ShortestEnd(h, r, t2, k1 + k2)
  {
    hide Step, Steps;
    var s1 := Steps(h, r, k1);
    AtStart(h, r);
    NothingStops(h, r, k1);
    StepsCompose(h, r, k1, k2);
    forall j | 0 < j < k1 + k2 ensures !Ends(Steps(h, r, j), t2) {
      if j < k1 {
        assert !Ends(Steps(h, r, j), t1);
      } else if j > k1 {
        StepsCompose(h, r, k1, j - k1);
        assert !Ends(Steps(h, s1, j - k1), t2);
      }
    }
  }

  lemma EndsThereToo<W>(h: Handlers<W>, r: Sim<W>, t1: nat, t2: nat, k1: nat)
    requires 0 < t1 && (t1 <= t2 || t2 == 0) && ShortestEnd(h, r, t1, k1)
    requires Steps(h, r, k1).queue == [] || 0 < t2 <= Steps(h, r, k1).now
    ensures ShortestEnd(h, r, t2, k1)
  {
    hide Step, Steps;
    forall j | 0 < j < k1 ensures !Ends(Steps(h, r, j), t2) {
      assert !Ends(Steps(h, r, j), t1);
    }
  }

  // A run to t1 and then a run to t2 (or without limit) dispatch what one run to t2 does, except that the
  // second run dispatches one event more when the clock had already reached t2.
  lemma TwoRunsOrOne<W(!new)>(h: Handlers<W>, r: Sim<W>, t1: nat, t2: nat, k1: nat, k2: nat, k: nat)
    requires NeverStops(h) && r.running && 0 < t1 && (t1 <= t2 || t2 == 0)
    requires ShortestEnd(h, r, t1, k1) && ShortestEnd(h, Steps(h, r, k1), t2, k2) && ShortestEnd(h, r, t2, k)
    ensures var s1 := Steps(h, r, k1);
            k1 + k2 == k + (if s1.queue != [] && 0 < t2 <= s1.now then 1 else 0)
  {
    hide Step, Steps, Ends, NeverStops;
    var s1 := Steps(h, r, k1);
    if s1.queue == [] {
      EndsThereToo(h, r, t1, t2, k1);
      ShortestIsUnique(h, r, t2, k, k1);
    } else if 0 < t2 <= s1.now {
      EndsThereToo(h, r, t1, t2, k1);
      ShortestIsUnique(h, r, t2, k, k1);
      PastTheEnd(h, s1, t2, k2);
    } else {
      RunsJoin(h, r, t1, t2, k1, k2);
      ShortestIsUnique(h, r, t2, k, k1 + k2);
    }
  }

  lemma AtStart<W>(h: Handlers<W>, s: Sim<W>)
    ensures Steps(h, s, 0) == s
  {}

  lemma {:induction false} EnoughFuel<W(!new)>(h: Handlers<W>, s: Sim<W>, endTime: nat, n: nat, fuel: nat)
    requires NeverStops(h) && s.running && fuel > n && Steps(h, s, n).queue == []
    ensures SimLoop(h, s, endTime, fuel).Some?
    decreases fuel
  {
    hide Dispatch;
    var s1 := Step(h, s);
    assert Steps(h, s, 0) == s;
    assert Steps(h, s, 1) == s1;
    NothingStops(h, s, 1);
    if s.queue == [] || (endTime > 0 && s1.now >= endTime) {
      LoopHasStopped(h, s1.(running := false), endTime, fuel - 1);
    } else {
      StepsFromStep(h, s, n - 1);
      EnoughFuel(h, s1, endTime, n - 1, fuel - 1);
    }
  }

  // The two run loops of the engine do the same when there is no end time, running for ever included.
  lemma {:induction false} RunLoopsAgree<W>(h: Handlers<W>, s: Sim<W>, fuel: nat)
    requires s.running
    ensures SimLoop(h, s, 0, fuel) == RunLoop(h, s, fuel)
    decreases fuel
  {
    hide Dispatch;
    if fuel > 0 {
      var s1 := Step(h, s);
      if s.queue != [] && s1.running {
        RunLoopsAgree(h, s1, fuel - 1);
      } else {
        LoopHasStopped(h, s1.(running := false), 0, fuel - 1);
      }
    }
  }

  lemma {:induction false} EndIsReached<W>(h: Handlers<W>, s: Sim<W>, endTime: nat, n: nat)
    requires s.running && (s.queue == [] || (n > 0 && Ends(Steps(h, s, n), endTime)))
    ensures SimLoop(h, s, endTime, n + 1).Some?
    decreases n
  {
    hide Dispatch;
    var s1 := Step(h, s);
    assert Steps(h, s, 1) == s1 by { assert Steps(h, s, 0) == s; }
    if s.queue == [] || !s1.running || (endTime > 0 && s1.now >= endTime) {
      LoopHasStopped(h, s1.(running := false), endTime, n);
    } else {
      if n > 1 {
        StepsFromStep(h, s, n - 1);
      } else if n == 1 {
        assert Steps(h, s1, 0) == s1;
      }
      EndIsReached(h, s1, endTime, n - 1);
    }
  }

  // When the run loop ends: exactly when some step empties the queue, stops the run or reaches the end
  // time. This is all that Run and Scheduler.Run ask for.
  lemma RunEndsIff<W>(h: Handlers<W>, s: Sim<W>, endTime: nat)
    requires s.running
    ensures (exists fuel: nat :: SimLoop(h, s, endTime, fuel).Some?) <==>
              s.queue == [] || exists n: nat :: n > 0 && Ends(Steps(h, s, n), endTime)
  {
    hide SimLoop, Steps, Ends, Step;
    if fuel: nat :| SimLoop(h, s, endTime, fuel).Some? {
      var k := BoundedRunIsShortestPrefix(h, s, endTime, fuel);
    }
    if s.queue == [] {
      EndIsReached(h, s, endTime, 0);
    }
    if n: nat :| n > 0 && Ends(Steps(h, s, n), endTime) {
      EndIsReached(h, s, endTime, n);
    }
  }

  class Simulator<W> {
    const sched: Scheduler<W>
    var endTime: nat

    constructor (sched: Scheduler<W>)
      ensures this.sched == sched && endTime == 0
    {
      this.sched := sched;
      endTime := 0;
    }

    method SetEndTime(t: nat)
      modifies this`endTime
      ensures endTime == t
    {
      endTime := t;
    }

    // simulator_run, for a run that ends within fuel iterations.
    method Run(ghost fuel: nat)
      requires sched.Valid() && SimRun(sched.handlers, sched.Value(), endTime, fuel).Some?
      modifies sched, sched.eq, sched.eq.events
      ensures sched.Valid()
      ensures Some(sched.Value()) == SimRun(sched.handlers, old(sched.Value()), endTime, fuel)
    {
      sched.running := true;
      ghost var left, result := fuel, SimLoop(sched.handlers, sched.Value(), endTime, fuel);
      while sched.running
        invariant sched.Valid() && (sched.eq.events == old(sched.eq.events) || fresh(sched.eq.events))
        invariant SimLoop(sched.handlers, sched.Value(), endTime, left) == result && result.Some?
        decreases left
      {
        var more := sched.StepOnce();
        if !more {
          sched.running := false;
        }
        if endTime > 0 && sched.now >= endTime {
          sched.running := false;
        }
        left := left - 1;
      }
    }
  }
}
