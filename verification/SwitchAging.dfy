/** The switch of src/network/switch.c as seen by its MAC table: one periodic aging event, learning
    on every received frame, flushing on port down, all driven by the scheduler. */
module SwitchAging {
  import opened Wrappers
  import opened EventQueue
  import opened Scheduler
  import opened MacTable

  const SW_AGE_INTERVAL := 30000
  const EVT_MAC_AGE := 11

  // The handler number of mac_age_handler for the switch under study. Other switches, hosts and
  // protocols have other numbers.
  const AGE := 0

  predicate IsAge(e: Event<Work>) {
    e.what.handler == Some(AGE)
  }

  function AgeEvent(at: nat): Event<Work> {
    Event(at, Work(EVT_MAC_AGE, Some(AGE), 0))
  }

  // ---- what can happen to the table outside the aging handler ----

  datatype TableOp = LearnFrame(mac: Mac, port: Port) | PortDown(port: Port)

  function ApplyOp(s: seq<MacEntry>, op: TableOp, now: nat): seq<MacEntry> {
    match op
    case LearnFrame(mac, port) => Learn(s, mac, port, now).0
    case PortDown(port) => FlushPort(s, port)
  }

  function ApplyOps(s: seq<MacEntry>, ops: seq<TableOp>, now: nat): seq<MacEntry> {
    if ops == [] then s else ApplyOp(ApplyOps(s, ops[..|ops| - 1], now), ops[|ops| - 1], now)
  }

  // The switch and whatever else is simulated with it.
  datatype World<R> = World(entries: seq<MacEntry>, rest: R)

  // Handlers as the sources have them: number AGE is mac_age_handler; every other handler may learn
  // and flush at the current time and schedule what it likes, but not another aging event.
  ghost predicate SwitchHandlers<R(!new)>(h: Handlers<World<R>>) {
    && (forall w: World<R>, e, now: nat :: h(AGE, w, e, now) ==
          Effect(w.(entries := Age(w.entries, now)), [AgeEvent(now + SW_AGE_INTERVAL)], false))
    && (forall id: nat, w: World<R>, e, now: nat :: id != AGE ==>
          OnlyOps(w, h(id, w, e, now), now))
  }

  ghost predicate OnlyOps<R>(w: World<R>, f: Effect<World<R>>, now: nat) {
    && (exists ops :: f.world.entries == ApplyOps(w.entries, ops, now))
    && (forall x <- f.scheduled :: !IsAge(x))
  }

  // A handler that learns the source of one frame.
  function Learns<R>(w: World<R>, frame: (Mac, Port), now: nat): Effect<World<R>> {
    Effect(w.(entries := Learn(w.entries, frame.0, frame.1, now).0), [], false)
  }

  lemma LearningIsOp<R>(w: World<R>, frame: (Mac, Port), now: nat)
    ensures OnlyOps(w, Learns(w, frame, now), now)
  {
    hide Learn;
    var ops := [LearnFrame(frame.0, frame.1)];
    assert ops[..|ops| - 1] == [] && ApplyOps(w.entries, [], now) == w.entries;
    assert Learns(w, frame, now).world.entries == ApplyOps(w.entries, ops, now);
  }

  // A simulation of that kind: aging, and handlers that learn any chosen frames.
  lemma SwitchHandlersExist<R(!new)>(frames: nat -> (Mac, Port)) returns (h: Handlers<World<R>>)
    ensures SwitchHandlers(h)
    ensures forall id: nat, w: World<R>, e: Event<Work>, now: nat :: id != AGE ==>
              h(id, w, e, now) == Learns(w, frames(e.what.data), now)
  {
    hide OnlyOps, Learns;
    h := (id: nat, w: World<R>, e: Event<Work>, now: nat) =>
      if id == AGE then Effect(w.(entries := Age(w.entries, now)), [AgeEvent(now + SW_AGE_INTERVAL)], false)
      else Learns(w, frames(e.what.data), now);
    forall id: nat, w: World<R>, e: Event<Work>, now: nat | id != AGE
      ensures OnlyOps(w, h(id, w, e, now), now)
    {
      LearningIsOp(w, frames(e.what.data), now);
      assert h(id, w, e, now) == Learns(w, frames(e.what.data), now);
    }
  }

  // One turn: a dispatch, or the test code outside handlers calling the switch and the scheduler.
  datatype Turn = Dispatches | Outside(ops: seq<TableOp>, events: seq<Event<Work>>)

  function Take<R>(h: Handlers<World<R>>, s: Sim<World<R>>, t: Turn): Sim<World<R>> {
    match t
    case Dispatches => Step(h, s)
    case Outside(ops, events) =>
      s.(world := s.world.(entries := ApplyOps(s.world.entries, ops, s.now)), queue := InsertAll(s.queue, events))
  }

  function Turns<R>(h: Handlers<World<R>>, s: Sim<World<R>>, ts: seq<Turn>): Sim<World<R>> {
    if ts == [] then s else Take(h, Turns(h, s, ts[..|ts| - 1]), ts[|ts| - 1])
  }

  // switch_create: an empty table and the first aging event.
  function Created<R>(s: Sim<World<R>>): Sim<World<R>> {
    s.(world := s.world.(entries := seq(MAC_TABLE_SIZE, _ => NO_ENTRY)),
       queue := Insert(s.queue, AgeEvent(s.now + SW_AGE_INTERVAL)))
  }

  // ---- exactly one aging event ----

  ghost predicate NoAge(q: seq<Event<Work>>) {
    forall i :: 0 <= i < |q| ==> !IsAge(q[i])
  }

  ghost predicate OneAgeAt(q: seq<Event<Work>>, due: nat, i: int) {
    && 0 <= i < |q| && IsAge(q[i]) && q[i].timestamp == due
    && forall j :: 0 <= j < |q| && j != i ==> !IsAge(q[j])
  }

  // The queue holds exactly one aging event, at time due.
  ghost predicate OneAge(q: seq<Event<Work>>, due: nat) {
    exists i :: OneAgeAt(q, due, i)
  }

  lemma InsertOther(q: seq<Event<Work>>, e: Event<Work>, due: nat)
    requires !IsAge(e)
    ensures NoAge(q) ==> NoAge(Insert(q, e))
    ensures OneAge(q, due) ==> OneAge(Insert(q, e), due)
  {
    hide Insert, Position;
    InsertIndex(q, e);
    if OneAge(q, due) {
      var i :| OneAgeAt(q, due, i);
      var k, r := Position(q, e), Insert(q, e);
      assert OneAgeAt(r, due, if i < k then i else i + 1);
    }
  }

  lemma {:induction false} InsertOthers(q: seq<Event<Work>>, es: seq<Event<Work>>, due: nat)
    requires OneAge(q, due) && forall x <- es :: !IsAge(x)
    ensures OneAge(InsertAll(q, es), due)
  {
    if es != [] {
      var n := |es| - 1;
      assert es[n] in es && forall x <- es[..n] :: x in es;
      InsertOthers(q, es[..n], due);
      InsertOther(InsertAll(q, es[..n]), es[n], due);
    }
  }

  lemma InsertAge(q: seq<Event<Work>>, due: nat)
    requires NoAge(q)
    ensures OneAge(Insert(q, AgeEvent(due)), due)
  {
    hide Insert, Position;
    InsertIndex(q, AgeEvent(due));
    assert OneAgeAt(Insert(q, AgeEvent(due)), due, Position(q, AgeEvent(due)));
  }

  lemma PopHead(q: seq<Event<Work>>, due: nat)
    requires OneAge(q, due) && Sorted(q)
    ensures |q| > 0 && q[0].timestamp <= due
    ensures if IsAge(q[0]) then q[0].timestamp == due && NoAge(q[1..]) else OneAge(q[1..], due)
  {
    var i :| OneAgeAt(q, due, i);
    if i > 0 {
      assert OneAgeAt(q[1..], due, i - 1);
    }
  }

  // ---- the bound ----

  // No entry is from the future, and none can outlive the next aging pass by more than the age limit
  // allows.
  ghost predicate EntriesOk(s: seq<MacEntry>, now: nat, due: nat) {
    forall i :: 0 <= i < |s| && s[i].valid ==>
      s[i].timestamp <= now && due <= s[i].timestamp + MAC_AGE_MS + SW_AGE_INTERVAL
  }

  ghost predicate AgingOk<R>(s: Sim<World<R>>, due: nat) {
    && Sorted(s.queue) && OneAge(s.queue, due)
    && s.now <= due <= s.now + SW_AGE_INTERVAL
    && EntriesOk(s.world.entries, s.now, due)
    && AGE !in s.registered.Values
  }

  lemma {:induction false} OpsKeepEntries(s: seq<MacEntry>, ops: seq<TableOp>, now: nat, due: nat)
    requires EntriesOk(s, now, due) && due <= now + SW_AGE_INTERVAL
    ensures EntriesOk(ApplyOps(s, ops, now), now, due)
  {
    if ops != [] {
      OpsKeepEntries(s, ops[..|ops| - 1], now, due);
    }
  }

  lemma AgeKeepsEntries(s: seq<MacEntry>, now: nat, due: nat)
    requires EntriesOk(s, now, due) && now < TWO64
    ensures EntriesOk(Age(s, now), now, now + SW_AGE_INTERVAL)
    ensures forall i :: 0 <= i < |s| && Age(s, now)[i].valid ==> now - s[i].timestamp <= MAC_AGE_MS
  {
    forall i | 0 <= i < |s| && s[i].valid
      ensures Sub64(now, s[i].timestamp) == now - s[i].timestamp
    {}
  }

  lemma AgeStep<R(!new)>(h: Handlers<World<R>>, s: Sim<World<R>>, due: nat)
    requires SwitchHandlers(h) && AgingOk(s, due) && IsAge(s.queue[0]) && due < TWO64
    ensures AgingOk(Step(h, s), due + SW_AGE_INTERVAL)
  {
    hide Insert, OneAge, NoAge, EntriesOk;
    PopHead(s.queue, due);
    var rest, next := s.queue[1..], AgeEvent(due + SW_AGE_INTERVAL);
    assert EntriesOk(s.world.entries, due, due) by { EntriesLater(s.world.entries, s.now, due, due); }
    AgeKeepsEntries(s.world.entries, due, due);
    assert Step(h, s).queue == Insert(rest, next) by {
      assert [next][..0] == [] && InsertAll(rest, []) == rest;
    }
    InsertAge(rest, due + SW_AGE_INTERVAL);
    InsertKeepsOrder(rest, next);
  }

  lemma EntriesLater(s: seq<MacEntry>, now: nat, later: nat, due: nat)
    requires EntriesOk(s, now, due) && now <= later
    ensures EntriesOk(s, later, due)
  {}

  lemma OtherStep<R(!new)>(h: Handlers<World<R>>, s: Sim<World<R>>, due: nat)
    requires SwitchHandlers(h) && AgingOk(s, due) && !IsAge(s.queue[0])
    ensures AgingOk(Step(h, s), due)
  {
    hide InsertAll, OneAge, EntriesOk, ApplyOps;
    PopHead(s.queue, due);
    var s1, e, rest := Step(h, s), s.queue[0], s.queue[1..];
    EntriesLater(s.world.entries, s.now, s1.now, due);
    var f := EffectOf(h, s, e, s1.now);
    assert EntriesOk(f.world.entries, s1.now, due) && forall x <- f.scheduled :: !IsAge(x) by {
      match HandlerFor(s.registered, e.what)
      case Some(id) =>
        assert id != AGE;
        var ops :| f.world.entries == ApplyOps(s.world.entries, ops, s1.now);
        OpsKeepEntries(s.world.entries, ops, s1.now, due);
      case None =>
    }
    InsertOthers(rest, f.scheduled, due);
    InsertAllKeeps(rest, f.scheduled);
  }

  ghost predicate OutsideOk(t: Turn) {
    t.Outside? ==> forall x <- t.events :: !IsAge(x)
  }

  lemma OutsideKeepsAging<R(!new)>(h: Handlers<World<R>>, s: Sim<World<R>>, t: Turn, due: nat)
    requires AgingOk(s, due) && t.Outside? && OutsideOk(t)
    ensures AgingOk(Take(h, s, t), due)
  {
    OpsKeepEntries(s.world.entries, t.ops, s.now, due);
    InsertOthers(s.queue, t.events, due);
    InsertAllKeeps(s.queue, t.events);
  }

  lemma CreatedOk<R(!new)>(s: Sim<World<R>>)
    requires Sorted(s.queue) && NoAge(s.queue) && AGE !in s.registered.Values
    ensures AgingOk(Created(s), s.now + SW_AGE_INTERVAL)
  {
    hide Insert, OneAge;
    InsertAge(s.queue, s.now + SW_AGE_INTERVAL);
    InsertKeepsOrder(s.queue, AgeEvent(s.now + SW_AGE_INTERVAL));
  }

  lemma TurnKeepsAging<R(!new)>(h: Handlers<World<R>>, s: Sim<World<R>>, t: Turn, due: nat) returns (next: nat)
    requires SwitchHandlers(h) && AgingOk(s, due) && OutsideOk(t) && Take(h, s, t).now < TWO64
    ensures AgingOk(Take(h, s, t), next)
  {
    hide InsertAll, EntriesOk, ApplyOps;
    next := due;
    if t.Outside? {
      OutsideKeepsAging(h, s, t, due);
    } else {
      PopHead(s.queue, due);
      if IsAge(s.queue[0]) {
        AgeStep(h, s, due);
        next := due + SW_AGE_INTERVAL;
      } else {
        OtherStep(h, s, due);
      }
    }
  }

  // In every run after switch_create there is always exactly one aging event pending, never further
  // than one interval away.
  lemma {:induction false} AgingAlwaysPending<R(!new)>(h: Handlers<World<R>>, s: Sim<World<R>>, ts: seq<Turn>)
    returns (due: nat)
    requires SwitchHandlers(h) && Sorted(s.queue) && NoAge(s.queue) && AGE !in s.registered.Values
    requires forall t <- ts :: OutsideOk(t)
    requires Turns(h, Created(s), ts).now < TWO64
    ensures AgingOk(Turns(h, Created(s), ts), due)
  {
    hide AgingOk, SwitchHandlers, Created, OutsideOk, NoAge, Sorted;
    if ts == [] {
      CreatedOk(s);
      due := s.now + SW_AGE_INTERVAL;
    } else {
      var before, t := ts[..|ts| - 1], ts[|ts| - 1];
      assert t in ts && forall u <- before :: u in ts;
      due := AgingAlwaysPending(h, s, before);
      due := TurnKeepsAging(h, Turns(h, Created(s), before), t, due);
    }
  }

  // The staleness bound: at every moment of every run, every entry was learned in the past and is at
  // most MAC_AGE_MS + SW_AGE_INTERVAL old.
  lemma NoStaleEntry<R(!new)>(h: Handlers<World<R>>, s: Sim<World<R>>, ts: seq<Turn>, i: nat)
    requires SwitchHandlers(h) && Sorted(s.queue) && NoAge(s.queue) && AGE !in s.registered.Values
    requires forall t <- ts :: OutsideOk(t)
    requires Turns(h, Created(s), ts).now < TWO64
    ensures var end := Turns(h, Created(s), ts);
            i < |end.world.entries| && end.world.entries[i].valid ==>
              end.world.entries[i].timestamp <= end.now <= end.world.entries[i].timestamp + 330000
  {
    var due := AgingAlwaysPending(h, s, ts);
  }
}
