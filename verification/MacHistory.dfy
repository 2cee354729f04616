/** What the MAC table answers after any sequence of learning, port flushes and aging passes. */
module MacHistory {
  import opened Slots
  import opened Wrappers
  import opened MacTable
  import S = SwitchAging
  import Sch = Scheduler

  datatype Op = Learns(mac: Mac, port: Port, now: nat) | Flushes(port: Port) | Ages(now: nat)

  function Apply(s: seq<MacEntry>, op: Op): seq<MacEntry> {
    match op
    case Learns(mac, port, now) => Learn(s, mac, port, now).0
    case Flushes(port) => FlushPort(s, port)
    case Ages(now) => Age(s, now)
  }

  function After(ops: seq<Op>): seq<MacEntry> {
    if ops == [] then seq(MAC_TABLE_SIZE, _ => NO_ENTRY) else Apply(After(ops[..|ops| - 1]), ops[|ops| - 1])
  }

  // Every address is stored once, with its port.
  ghost predicate EntriesOk(s: seq<MacEntry>) {
    && |s| == MAC_TABLE_SIZE
    && (forall i :: 0 <= i < |s| && s[i].valid ==> s[i].port.Some?)
    && (forall i, j :: 0 <= i < j < |s| && s[i].valid && s[j].valid ==> s[i].mac != s[j].mac)
  }

  predicate IsAt(s: seq<MacEntry>, mac: Mac, i: nat) {
    i < |s| && s[i].valid && s[i].mac == mac
  }

  // Port and time of the entry of an address.
  ghost predicate Knows(s: seq<MacEntry>, mac: Mac, port: Port, at: nat) {
    exists i :: 0 <= i < |s| && s[i] == MacEntry(mac, Some(port), at, true)
  }

  ghost predicate Unknown(s: seq<MacEntry>, mac: Mac) {
    forall i :: 0 <= i < |s| ==> !IsAt(s, mac, i)
  }

  ghost predicate HasRoom(s: seq<MacEntry>) {
    exists i :: 0 <= i < |s| && !s[i].valid
  }

  lemma KnowsOne(s: seq<MacEntry>, mac: Mac, port: Port, at: nat, port1: Port, at1: nat)
    requires EntriesOk(s) && Knows(s, mac, port, at) && Knows(s, mac, port1, at1)
    ensures port == port1 && at == at1
  {}

  // ---- what each operation does to every address ----

  // The entry of an address after writing slot i for the address mac.
  lemma WriteSlot(s: seq<MacEntry>, i: nat, mac: Mac, port: Port, now: nat)
    requires EntriesOk(s) && i < |s| && (s[i].valid ==> s[i].mac == mac)
    requires forall k :: 0 <= k < |s| && k != i ==> !IsAt(s, mac, k)
    ensures var s1 := s[i := MacEntry(mac, Some(port), now, true)];
            && EntriesOk(s1) && Knows(s1, mac, port, now)
            && forall other, p, at :: other != mac ==> (Knows(s1, other, p, at) <==> Knows(s, other, p, at))
  {
    var s1 := s[i := MacEntry(mac, Some(port), now, true)];
    assert s1[i] == MacEntry(mac, Some(port), now, true);
    forall k, l | 0 <= k < l < |s1| && s1[k].valid && s1[l].valid ensures s1[k].mac != s1[l].mac {
      assert !IsAt(s, mac, k) || k == i;
      assert !IsAt(s, mac, l) || l == i;
    }
    forall other, p, at | other != mac ensures Knows(s1, other, p, at) <==> Knows(s, other, p, at) {
      if k :| 0 <= k < |s| && s[k] == MacEntry(other, Some(p), at, true) {
        assert s1[k] == s[k];
      }
    }
  }

  // Learning succeeds exactly for a known address or when a slot is free. The address is then known on the
  // given port from now on, wherever it was before, and no other address is affected.
  lemma LearnMoves(s: seq<MacEntry>, mac: Mac, port: Port, now: nat)
    requires EntriesOk(s)
    ensures var (s1, slot) := Learn(s, mac, port, now);
            && (slot.Some? <==> !Unknown(s, mac) || HasRoom(s))
            && (if slot.Some? then Knows(s1, mac, port, now) else s1 == s) && EntriesOk(s1)
            && forall other, p, at :: other != mac ==> (Knows(s1, other, p, at) <==> Knows(s, other, p, at))
  {
    match First(s, Holding(mac))
    case Some(i) =>
      assert IsAt(s, mac, i);
      WriteSlot(s, i, mac, port, now);
    case None =>
      assert forall k :: 0 <= k < |s| ==> !Holding(mac)(s[k]);
      match First(s, Free()) {
        case Some(i) => WriteSlot(s, i, mac, port, now);
        case None => assert forall k :: 0 <= k < |s| ==> !Free()(s[k]);
      }
  }

  lemma FlushForgets(s: seq<MacEntry>, port: Port)
    requires EntriesOk(s)
    ensures EntriesOk(FlushPort(s, port))
    ensures forall mac, p, at :: Knows(FlushPort(s, port), mac, p, at) <==> Knows(s, mac, p, at) && p != port
  {
    var s1 := FlushPort(s, port);
    forall mac, p, at | Knows(s, mac, p, at) && p != port ensures Knows(s1, mac, p, at) {
      var i :| 0 <= i < |s| && s[i] == MacEntry(mac, Some(p), at, true);
      assert s1[i] == s[i];
    }
  }

  lemma AgingForgets(s: seq<MacEntry>, now: nat)
    requires EntriesOk(s)
    ensures EntriesOk(Age(s, now))
    ensures forall mac, p, at :: Knows(Age(s, now), mac, p, at) <==> Knows(s, mac, p, at) && Sub64(now, at) <= 300000
  {
    hide Sub64;
    var s1 := Age(s, now);
    forall mac, p, at | Knows(s, mac, p, at) && Sub64(now, at) <= 300000 ensures Knows(s1, mac, p, at) {
      var i :| 0 <= i < |s| && s[i] == MacEntry(mac, Some(p), at, true);
      assert s1[i] == s[i];
    }
  }

  // ---- histories ----

  // Operation i learned the address.
  ghost predicate Took(ops: seq<Op>, i: nat, mac: Mac)
    requires i < |ops|
  {
    ops[i].Learns? && ops[i].mac == mac && (!Unknown(After(ops[..i]), mac) || HasRoom(After(ops[..i])))
  }

  // An operation after which an entry with this port and time is gone.
  predicate Removes(op: Op, port: Port, at: nat) {
    match op
    case Learns(_, _, _) => false
    case Flushes(p) => p == port
    case Ages(now) => Sub64(now, at) > 300000
  }

  // Operation i was the last one that learned the address, with this port and time, and nothing removed
  // the entry since.
  ghost predicate Stands(ops: seq<Op>, i: nat, mac: Mac, port: Port, at: nat) {
    && i < |ops| && Took(ops, i, mac) && ops[i].port == port && ops[i].now == at
    && forall j :: i < j < |ops| ==> !Took(ops, j, mac) && !Removes(ops[j], port, at)
  }

  lemma {:induction false} TableOk(ops: seq<Op>)
    ensures EntriesOk(After(ops))
  {
    hide Learn, FlushPort, Age, EntriesOk;
    if ops == [] {
      NothingKnown();
    } else {
      var s := After(ops[..|ops| - 1]);
      TableOk(ops[..|ops| - 1]);
      match ops[|ops| - 1]
      case Learns(mac, port, now) => LearnMoves(s, mac, port, now);
      case Flushes(port) => FlushForgets(s, port);
      case Ages(now) => AgingForgets(s, now);
    }
  }

  lemma NothingKnown()
    ensures EntriesOk(After([])) && forall mac, port, at :: !Knows(After([]), mac, port, at)
  {}

  lemma ShorterHistory(ops: seq<Op>, i: nat, mac: Mac)
    requires ops != [] && i < |ops| - 1
    ensures Took(ops, i, mac) <==> Took(ops[..|ops| - 1], i, mac)
  {
    assert ops[..i] == ops[..|ops| - 1][..i];
  }

  // The last operation: what it leaves standing.
  lemma StandsStep(ops: seq<Op>, i: nat, mac: Mac, port: Port, at: nat)
    requires ops != []
    ensures var before, n := ops[..|ops| - 1], |ops| - 1;
            Stands(ops, i, mac, port, at) <==>
              if Took(ops, n, mac) then i == n && ops[n].port == port && ops[n].now == at
              else Stands(before, i, mac, port, at) && !Removes(ops[n], port, at)
  {
    hide Removes, Unknown, HasRoom, After;
    var before := ops[..|ops| - 1];
    forall j: nat | j < |ops| - 1 ensures Took(ops, j, mac) <==> Took(before, j, mac) {
      ShorterHistory(ops, j, mac);
    }
    assert forall j :: 0 <= j < |before| ==> before[j] == ops[j];
  }

  lemma OpEffect(s: seq<MacEntry>, op: Op, mac: Mac, port: Port, at: nat)
    requires EntriesOk(s)
    ensures var took := op.Learns? && op.mac == mac && (!Unknown(s, mac) || HasRoom(s));
            Knows(Apply(s, op), mac, port, at) <==>
              (if took then port == op.port && at == op.now else Knows(s, mac, port, at) && !Removes(op, port, at))
  {
    hide Learn, FlushPort, Age, EntriesOk;
    match op
    case Learns(m, p, now) =>
      LearnMoves(s, m, p, now);
      if m == mac && Knows(Learn(s, m, p, now).0, mac, p, now) && Knows(Learn(s, m, p, now).0, mac, port, at) {
        KnowsOne(Learn(s, m, p, now).0, mac, p, now, port, at);
      }
    case Flushes(p) => FlushForgets(s, p);
    case Ages(now) => AgingForgets(s, now);
  }

  // After any sequence of operations the table knows an address with exactly the port and time of the
  // operation that learned it last, and only as long as no flush of that port and no aging pass more
  // than 300000 later has removed the entry.
  lemma {:induction false} EntryIsLastLearned(ops: seq<Op>, mac: Mac, port: Port, at: nat)
    ensures Knows(After(ops), mac, port, at) <==> exists i: nat :: Stands(ops, i, mac, port, at)
  {
    hide Apply, Stands, EntriesOk, Knows, Unknown, HasRoom, Removes;
    if ops == [] {
      NothingKnown();
      NothingStands(mac, port, at);
    } else {
      var n, before := |ops| - 1, ops[..|ops| - 1];
      TableOk(before);
      OpEffect(After(before), ops[n], mac, port, at);
      EntryIsLastLearned(before, mac, port, at);
      forall i: nat
        ensures Stands(ops, i, mac, port, at) <==>
                  if Took(ops, n, mac) then i == n && ops[n].port == port && ops[n].now == at
                  else Stands(before, i, mac, port, at) && !Removes(ops[n], port, at)
      {
        StandsStep(ops, i, mac, port, at);
      }
      assert Stands(ops, n, mac, port, at) <==>
               (if Took(ops, n, mac) then ops[n].port == port && ops[n].now == at else false) by {
        assert !Stands(before, n, mac, port, at) by { NotBeyond(before, n, mac, port, at); }
      }
    }
  }

  lemma NotBeyond(ops: seq<Op>, i: nat, mac: Mac, port: Port, at: nat)
    requires i >= |ops|
    ensures !Stands(ops, i, mac, port, at)
  {}

  lemma NothingStands(mac: Mac, port: Port, at: nat)
    ensures forall i: nat :: !Stands([], i, mac, port, at)
  {}

  // The same in memory: what mac_table_lookup returns after any operations on a new table.
  method LookupAfter(ops: seq<Op>, mac: Mac) returns (answer: Option<Port>)
    ensures forall port: Port :: answer == Some(port) <==> exists i: nat, at: nat :: Stands(ops, i, mac, port, at)
  {
    hide Learn, FlushPort, Age, Stands, EntriesOk;
    var table := new MacTable();
    assert table.entries[..] == After([]);
    for n := 0 to |ops|
      invariant table.Valid() && fresh(table) && fresh(table.entries) && table.entries[..] == After(ops[..n])
    {
      assert ops[..n + 1][..n] == ops[..n];
      match ops[n]
      case Learns(m, p, now) => var slot := table.LearnAddress(m, p, now);
      case Flushes(p) => table.Flush(p);
      case Ages(now) => table.AgeEntries(now);
    }
    assert ops[..|ops|] == ops;
    answer := table.Lookup(mac);
    TableOk(ops);
    forall port: Port ensures answer == Some(port) <==> exists i: nat, at: nat :: Stands(ops, i, mac, port, at) {
      FoundIsKnown(table.entries[..], mac, port);
      if at: nat :| Knows(table.entries[..], mac, port, at) {
        EntryIsLastLearned(ops, mac, port, at);
      }
      if i: nat, at: nat :| Stands(ops, i, mac, port, at) {
        EntryIsLastLearned(ops, mac, port, at);
      }
    }
  }

  lemma FoundIsKnown(s: seq<MacEntry>, mac: Mac, port: Port)
    requires EntriesOk(s)
    ensures (match First(s, Holding(mac)) case Some(i) => s[i].port case None => None) == Some(port) <==>
              exists at: nat :: Knows(s, mac, port, at)
  {
    match First(s, Holding(mac))
    case Some(i) =>
      assert s[i] == MacEntry(mac, s[i].port, s[i].timestamp, true);
      if s[i].port == Some(port) {
        assert Knows(s, mac, port, s[i].timestamp);
      }
    case None =>
      assert forall k :: 0 <= k < |s| ==> !Holding(mac)(s[k]);
  }

  // ---- the table of a running switch ----

  function OpOf(op: S.TableOp, now: nat): Op {
    match op
    case LearnFrame(mac, port) => Learns(mac, port, now)
    case PortDown(port) => Flushes(port)
  }

  lemma OneMoreOp(ops: seq<Op>, op: Op)
    ensures After(ops + [op]) == Apply(After(ops), op)
  {
    assert (ops + [op])[..|ops|] == ops;
  }

  function Mapped(ops: seq<S.TableOp>, now: nat): (r: seq<Op>)
    ensures |r| == |ops|
  {
    seq(|ops|, i requires 0 <= i < |ops| => OpOf(ops[i], now))
  }

  lemma {:induction false} OpsContinue(ops: seq<Op>, more: seq<S.TableOp>, now: nat)
    ensures After(ops + Mapped(more, now)) == S.ApplyOps(After(ops), more, now)
  {
    hide After, Apply, S.ApplyOp, Mapped, OpOf;
    MappedStep(ops, more, now);
    if more != [] {
      var n := |more| - 1;
      OpsContinue(ops, more[..n], now);
      OneMoreOp(ops + Mapped(more[..n], now), OpOf(more[n], now));
      SameOp(After(ops + Mapped(more[..n], now)), more[n], now);
    }
  }

  lemma SameOp(s: seq<MacEntry>, op: S.TableOp, now: nat)
    ensures Apply(s, OpOf(op, now)) == S.ApplyOp(s, op, now)
  {
    hide Learn, FlushPort;
  }

  lemma MappedStep(ops: seq<Op>, more: seq<S.TableOp>, now: nat)
    ensures if more == [] then ops + Mapped(more, now) == ops
            else ops + Mapped(more, now)
                 == (ops + Mapped(more[..|more| - 1], now)) + [OpOf(more[|more| - 1], now)]
  {}

  // What a turn does to the table: calls from outside do what they say, the aging event is an aging pass, and
  // any other event learns and flushes at the time of its dispatch.
  ghost predicate Adds<R>(h: Sch.Handlers<S.World<R>>, s: Sch.Sim<S.World<R>>, t: S.Turn, added: seq<Op>) {
    match t
    case Outside(ops, _) => added == Mapped(ops, s.now)
    case Dispatches =>
      if s.queue == [] then added == []
      else if S.IsAge(s.queue[0]) then added == [Ages(Sch.Step(h, s).now)]
      else exists ops :: added == Mapped(ops, Sch.Step(h, s).now)
  }

  // The history of a run from switch_create: what its turns did, one after the other.
  ghost predicate IsHistory<R>(h: Sch.Handlers<S.World<R>>, s: Sch.Sim<S.World<R>>, ts: seq<S.Turn>, ops: seq<Op>) {
    if ts == [] then ops == []
    else
      var before, t := ts[..|ts| - 1], ts[|ts| - 1];
      exists n: nat :: n <= |ops| && IsHistory(h, s, before, ops[..n])
        && Adds(h, S.Turns(h, S.Created(s), before), t, ops[n..])
  }

  lemma StepContinues<R(!new)>(h: Sch.Handlers<S.World<R>>, s: Sch.Sim<S.World<R>>, ops: seq<Op>)
    returns (added: seq<Op>)
    requires S.SwitchHandlers(h) && s.world.entries == After(ops) && S.AGE !in s.registered.Values
    ensures Adds(h, s, S.Dispatches, added) && Sch.Step(h, s).world.entries == After(ops + added)
  {
    hide After, Age, S.ApplyOps, Sch.InsertAll;
    added := [];
    assert ops + [] == ops;
    if s.queue != [] {
      var e, now := s.queue[0], Sch.Step(h, s).now;
      assert Mapped([], now) == [];
      match Sch.HandlerFor(s.registered, e.what)
      case Some(id) =>
        if id == S.AGE {
          OneMoreOp(ops, Ages(now));
          added := [Ages(now)];
        } else {
          assert S.OnlyOps(s.world, h(id, s.world, e, now), now);
          var more :| h(id, s.world, e, now).world.entries == S.ApplyOps(s.world.entries, more, now);
          OpsContinue(ops, more, now);
          added := Mapped(more, now);
        }
      case None =>
    }
  }

  // So in every run of a switch, whatever else is simulated, the table is that of the sequence of frames
  // learned, ports flushed and aging passes in the run, to which EntryIsLastLearned applies.
  lemma {:induction false} SwitchRunIsHistory<R(!new)>(h: Sch.Handlers<S.World<R>>, s: Sch.Sim<S.World<R>>,
                                                       ts: seq<S.Turn>) returns (ops: seq<Op>)
    requires S.SwitchHandlers(h) && S.AGE !in s.registered.Values
    ensures IsHistory(h, s, ts, ops) && S.Turns(h, S.Created(s), ts).world.entries == After(ops)
    ensures S.Turns(h, S.Created(s), ts).registered == s.registered
  {
    hide S.SwitchHandlers, S.ApplyOps, Apply, Adds, Sch.EffectOf, Sch.InsertAll;
    if ts == [] {
      ops := [];
    } else {
      var before := SwitchRunIsHistory(h, s, ts[..|ts| - 1]);
      var s1, t := S.Turns(h, S.Created(s), ts[..|ts| - 1]), ts[|ts| - 1];
      var added: seq<Op>;
      match t {
        case Dispatches =>
          added := StepContinues(h, s1, before);
        case Outside(more, _) =>
          OpsContinue(before, more, s1.now);
          added := Mapped(more, s1.now);
          assert Adds(h, s1, t, added) by { OutsideAdds(h, s1, t); }
      }
      ops := before + added;
      assert ops[..|before|] == before && ops[|before|..] == added;
    }
  }

  lemma OutsideAdds<R>(h: Sch.Handlers<S.World<R>>, s: Sch.Sim<S.World<R>>, t: S.Turn)
    requires t.Outside?
    ensures Adds(h, s, t, Mapped(t.ops, s.now))
  {}
}
