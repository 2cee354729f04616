/** The routing table of src/routing/route_table.c, updated in place. */
module RouteTable {
  import opened Slots
  import opened Wrappers
  import opened Prefixes
  import opened RouteSpec
  import opened RouteHistory
  import R = RouteRecord

  class RouteTable {
    const rib: array<RibEntry>
    const fib: array<FibEntry>
    var ribCount: int
    var fibCount: nat
    var nextSequence: u32

    // Sizes, counters and unused slots; what every method can rely on except RIB/FIB agreement.
    ghost predicate RibOk()
      reads this, rib
    {
      && rib.Length == RIB_SIZE && fib.Length == FIB_SIZE
      && ribCount == CountValid(rib[..])
      && (forall i :: 0 <= i < rib.Length && !rib[i].valid ==> !rib[i].selected && rib[i].iface.None?)
    }

    ghost predicate Valid()
      reads this, rib, fib
    {
      RibOk() && Coherent(rib[..], fib[..], fibCount)
    }

    ghost predicate StoredOk()
      reads rib
    {
      KeysOk(rib[..]) && forall i :: 0 <= i < rib.Length ==> WellFormed(rib[i])
    }

    // The table as a map.
    ghost function State(): Routes
      requires StoredOk()
      reads this, rib
    {
      Routes(MapOf(rib[..]), nextSequence)
    }

    // route_table_init
    constructor ()
      ensures fresh(rib) && fresh(fib)
      ensures Valid() && StoredOk() && State() == Routes(map[], 1)
    {
      rib := new RibEntry[RIB_SIZE](_ => NO_RIB_ENTRY);
      fib := new FibEntry[FIB_SIZE](_ => NO_FIB_ENTRY);
      ribCount, fibCount, nextSequence := 0, 0, 1;
      new;
      CountBounds(rib[..], Used());
      assert MapOf(rib[..]) == map[];
    }

    // Lines 227-236: the slot whose network is that of candidate i.
    method FindNetwork(i: nat) returns (slot: Option<nat>)
      requires i < rib.Length && fib.Length == FIB_SIZE
      ensures slot.Some? ==> slot.value < fib.Length && fib[slot.value].valid && fib[slot.value].net == rib[i].net
      ensures slot.None? ==> forall k :: 0 <= k < fib.Length && fib[k].valid ==> fib[k].net != rib[i].net
    {
      for j := 0 to FIB_SIZE
        invariant forall k :: 0 <= k < j && fib[k].valid ==> fib[k].net != rib[i].net
      {
        if fib[j].valid && fib[j].net.prefix == rib[i].net.prefix && fib[j].net.len == rib[i].net.len {
          return Some(j);
        }
      }
      return None;
    }

    // Lines 238-272: candidate i meets the installed candidate of its network.
    method Challenge(i: nat, k: nat)
      requires i < rib.Length == RIB_SIZE && fib.Length == FIB_SIZE && rib[i].valid && !rib[i].selected
      requires FibOf(Plain(rib[..]), i, fib[..], fibCount) && MarksOf(rib[..], fib[..], fibCount)
      requires k < fibCount && fib[k].net == rib[i].net
      modifies rib, fib
      ensures Plain(rib[..]) == old(Plain(rib[..]))
      ensures forall k :: 0 <= k < RIB_SIZE && (i < k || !rib[k].valid) ==> rib[k] == old(rib[k])
      ensures FibOf(Plain(rib[..]), i + 1, fib[..], fibCount) && MarksOf(rib[..], fib[..], fibCount)
    {
      ghost var plain := Plain(rib[..]);
      var current := fib[k].ribIndex;
      assert BestOf(plain, i, current);
      var ribDistance, currentDistance := AdminDistance(rib[i].proto), AdminDistance(rib[current].proto);
      var replace := false;
      if ribDistance < currentDistance {
        replace := true;
      } else if ribDistance == currentDistance && rib[i].metric < rib[current].metric {
        replace := true;
      } else if ribDistance == currentDistance && rib[i].metric == rib[current].metric
                && rib[i].sequence < rib[current].sequence {
        replace := true;
      }
      assert replace == Preferred(plain, i, current);
      if replace {
        TakeOver(plain, i, fib[..], fibCount, k);
        MoveMark(rib[..], fib[..], fibCount, k, i);
        ghost var marked := rib[..][current := rib[current].(selected := false)][i := rib[i].(selected := true)];
        rib[current] := rib[current].(selected := false);
        fib[k] := FibEntry(rib[i].net, rib[i].proto, true,
                           rib[i].nextHop, rib[i].iface, rib[i].metric, i);
        rib[i] := rib[i].(selected := true);
        assert rib[..] == marked && Plain(marked) == plain;
        assert fib[..] == old(fib[..])[k := FibEntryOf(plain, i)];
      } else {
        KeepInstalled(plain, i, fib[..], fibCount, k);
      }
    }

    // Lines 274-291: candidate i is the first of its network and gets the first unused slot. There
    // is one, because fewer networks than candidates were seen.
    method OpenNetwork(i: nat)
      requires i < rib.Length == RIB_SIZE && fib.Length == FIB_SIZE && rib[i].valid && !rib[i].selected
      requires FibOf(Plain(rib[..]), i, fib[..], fibCount) && MarksOf(rib[..], fib[..], fibCount) && fibCount <= i
      requires forall k :: 0 <= k < fibCount ==> fib[k].net != rib[i].net
      modifies this`fibCount, rib, fib
      ensures Plain(rib[..]) == old(Plain(rib[..]))
      ensures forall k :: 0 <= k < RIB_SIZE && (i < k || !rib[k].valid) ==> rib[k] == old(rib[k])
      ensures FibOf(Plain(rib[..]), i + 1, fib[..], fibCount) && MarksOf(rib[..], fib[..], fibCount)
      ensures fibCount == old(fibCount) + 1
    {
      ghost var plain := Plain(rib[..]);
      ghost var was := fib[..];
      for j := 0 to FIB_SIZE
        invariant forall k :: 0 <= k < j ==> fib[k].valid
        invariant rib[..] == old(rib[..]) && fib[..] == was && fibCount == old(fibCount)
      {
        if !fib[j].valid {
          assert j == fibCount by {
            assert !was[j].valid;
            assert fib[fibCount] == was[fibCount] && !was[fibCount].valid;
          }
          NewNetwork(plain, i, was, j);
          AddMark(rib[..], was, j, i);
          ghost var marked := rib[..][i := rib[i].(selected := true)];
          fib[j] := FibEntry(rib[i].net, rib[i].proto, true,
                             rib[i].nextHop, rib[i].iface, rib[i].metric, i);
          rib[i] := rib[i].(selected := true);
          fibCount := fibCount + 1;
          assert rib[..] == marked && Plain(marked) == plain;
          assert fib[..] == was[j := FibEntryOf(plain, i)];
          return;
        }
      }
    }

    // Lines 207-217 of route_table_rebuild_fib: an empty FIB and no marks.
    method Clear()
      requires RibOk()
      modifies this`fibCount, rib, fib
      ensures fibCount == 0 && (forall k :: 0 <= k < FIB_SIZE ==> fib[k] == NO_FIB_ENTRY)
      ensures forall k :: 0 <= k < RIB_SIZE ==> rib[k] == old(rib[k]).(selected := false)
    {
      for i := 0 to FIB_SIZE
        invariant forall k :: 0 <= k < i ==> fib[k] == NO_FIB_ENTRY
        modifies fib
      {
        fib[i] := NO_FIB_ENTRY;
      }
      fibCount := 0;
      for i := 0 to RIB_SIZE
        invariant forall k :: i <= k < RIB_SIZE ==> rib[k] == old(rib[k])
        invariant forall k :: 0 <= k < i ==> rib[k] == old(rib[k]).(selected := false)
        modifies rib
      {
        if rib[i].valid {
          rib[i] := rib[i].(selected := false);
        }
      }
    }

    // Lines 219-292: every used slot, in order, competes for its network.
    method SelectAll()
      requires RibOk() && fibCount == 0 && (forall k :: 0 <= k < FIB_SIZE ==> fib[k] == NO_FIB_ENTRY)
      requires forall k :: 0 <= k < RIB_SIZE ==> !rib[k].selected
      modifies this`fibCount, rib, fib
      ensures Valid() && Plain(rib[..]) == old(Plain(rib[..]))
    {
      hide FibOf, MarksOf;
      ghost var plain := Plain(rib[..]);
      CountPlain(rib[..], plain);
      EmptyFib(rib[..], plain, fib[..]);
      for i := 0 to RIB_SIZE
        invariant Plain(rib[..]) == plain
        invariant forall k :: i <= k < RIB_SIZE ==> !rib[k].selected
        invariant forall k :: 0 <= k < RIB_SIZE && !rib[k].valid ==> rib[k] == old(rib[k])
        invariant fibCount <= FIB_SIZE && FibOf(plain, i, fib[..], fibCount) && MarksOf(rib[..], fib[..], fibCount)
        invariant fibCount <= CountValid(plain[..i])
      {
        CountStep(plain, Used(), i);
        CountBounds(plain[..i], Used());
        FibIsPacked(plain, i, fib[..], fibCount);
        assert forall k :: 0 <= k < FIB_SIZE ==> fib[k] == fib[..][k];
        if !rib[i].valid {
          SkipUnused(plain, i, fib[..], fibCount);
          continue;
        }
        var slot := FindNetwork(i);
        if slot.Some? {
          Challenge(i, slot.value);
          continue;
        }
        OpenNetwork(i);
      }
      assert plain[..RIB_SIZE] == plain;
      CountPlain(rib[..], plain);
    }

    // route_table_rebuild_fib. It always succeeds, so the rollback in route_table_add never runs.
    method RebuildFib()
      requires RibOk() && StoredOk()
      modifies this`fibCount, rib, fib
      ensures Valid() && StoredOk() && MapOf(rib[..]) == old(MapOf(rib[..]))
    {
      hide MapOf, KeysOk, WellFormed, Coherent;
      ghost var was := rib[..];
      CountPlain(was, Plain(was));
      Clear();
      assert Plain(rib[..]) == Plain(was);
      CountPlain(rib[..], Plain(was));
      SelectAll();
      MapOfPlain(was, rib[..]);
      PlainKeepsWellFormed(was, rib[..]);
    }

    // The duplicate scan: the used slot of (network, protocol).
    method FindKey(key: Key) returns (slot: Option<nat>)
      requires rib.Length == RIB_SIZE
      ensures slot.Some? ==> slot.value < rib.Length && rib[slot.value].valid && KeyOf(rib[slot.value]) == key
      ensures slot.None? ==> forall k :: 0 <= k < rib.Length && rib[k].valid ==> KeyOf(rib[k]) != key
    {
      for i := 0 to RIB_SIZE
        invariant forall k :: 0 <= k < i && rib[k].valid ==> KeyOf(rib[k]) != key
      {
        if rib[i].valid && rib[i].net.prefix == key.net.prefix && rib[i].net.len == key.net.len
           && rib[i].proto == key.proto {
          return Some(i);
        }
      }
      return None;
    }

    method FindUnused() returns (slot: Option<nat>)
      requires rib.Length == RIB_SIZE
      ensures slot.Some? ==> slot.value < rib.Length && !rib[slot.value].valid
      ensures slot.None? ==> forall k :: 0 <= k < rib.Length ==> rib[k].valid
    {
      for i := 0 to RIB_SIZE
        invariant forall k :: 0 <= k < i ==> rib[k].valid
      {
        if !rib[i].valid {
          return Some(i);
        }
      }
      return None;
    }

    // Lines 80-90: a free slot gets a new candidate; lines 66-69: a used slot gets new attributes.
    method Store(i: nat, e: RibEntry)
      requires RibOk() && StoredOk() && i < rib.Length && e.valid && WellFormed(e)
      requires if rib[i].valid then KeyOf(rib[i]) == KeyOf(e)
               else forall k :: 0 <= k < rib.Length && rib[k].valid ==> KeyOf(rib[k]) != KeyOf(e)
      modifies this`ribCount, this`fibCount, rib, fib
      ensures Valid() && StoredOk() && MapOf(rib[..]) == old(MapOf(rib[..]))[KeyOf(e) := RouteOf(e)]
    {
      hide MapOf, WellFormed, Coherent;
      ghost var was, now := rib[..], rib[..][i := e];
      CountUpdate(was, Used(), i, e);
      assert KeysOk(now);
      MapOfStore(was, i, e);
      if !rib[i].valid {
        ribCount := ribCount + 1;
      }
      rib[i] := e;
      assert rib[..] == now;
      RebuildFib();
    }

    // A new network or protocol: the first unused slot takes it.
    method AddNew(key: Key, nextHop: u32, iface: Iface, metric: u32) returns (ok: bool)
      requires Valid() && StoredOk() && key !in MapOf(rib[..])
      requires WellFormed(RibEntry(key.net, key.proto, true, false, nextHop, iface, metric, nextSequence))
      modifies this, rib, fib
      ensures Valid() && StoredOk()
      ensures (State(), ok) == AddAt(old(State()), key, nextHop, iface, metric)
    {
      hide MapOf, Coherent, Normalized, Count;
      MapOfSize(rib[..]);
      CountBounds(rib[..], Used());
      var slot := FindUnused();
      if slot.None? {
        return false;
      }
      var e := RibEntry(key.net, key.proto, true, false, nextHop, iface, metric, nextSequence);
      nextSequence := (nextSequence + 1) % 0x1_0000_0000;
      Store(slot.value, e);
      return true;
    }

    // route_table_add after the input checks.
    method AddChecked(key: Key, nextHop: u32, iface: Iface, metric: u32) returns (ok: bool)
      requires Valid() && StoredOk()
      requires WellFormed(RibEntry(key.net, key.proto, true, false, nextHop, iface, metric, 0))
      modifies this, rib, fib
      ensures Valid() && StoredOk()
      ensures (State(), ok) == AddAt(old(State()), key, nextHop, iface, metric)
    {
      hide MapOf, Coherent, Normalized, Count;
      MapOfSize(rib[..]);
      var slot := FindKey(key);
      if slot.None? {
        ok := AddNew(key, nextHop, iface, metric);
        return;
      }
      var i := slot.value;
      Store(i, rib[i].(nextHop := nextHop, iface := iface, metric := metric));
      ok := true;
    }

    // route_table_add
    method AddEntry(prefix: bv32, len: u8, nextHop: u32, iface: Iface, metric: u32, proto: u8) returns (ok: bool)
      requires Valid() && StoredOk()
      modifies this, rib, fib
      ensures Valid() && StoredOk()
      ensures (State(), ok) == AddRoute(old(State()), prefix, len, nextHop, iface, metric, proto)
      ensures R.AddDone(old(State()), Key(Normalized(prefix, len), proto), iface.Some? && len <= 32 && proto != 0,
                        nextHop, iface, metric, State(), ok)
    {
      R.AddIsDone(State(), prefix, len, nextHop, iface, metric, proto);
      hide R.AddDone;
      if iface.None? || len > 32 || proto == 0 {
        return false;
      }
      NormalizedTwice(prefix, len);
      ok := AddChecked(Key(Normalized(prefix, len), proto), nextHop, iface, metric);
    }

    // Writes one slot free: lines 125-130 and 187-192.
    method Erase(i: nat)
      requires RibOk() && StoredOk() && i < rib.Length && rib[i].valid
      modifies this`ribCount, rib
      ensures RibOk() && StoredOk() && ribCount == old(ribCount) - 1
      ensures MapOf(rib[..]) == old(MapOf(rib[..])) - {old(KeyOf(rib[i]))}
      ensures rib[..] == old(rib[..])[i := old(rib[i]).(valid := false, selected := false, iface := None)]
    {
      hide MapOf, Normalized, Count;
      ghost var was, e := rib[..], rib[i].(valid := false, selected := false, iface := None);
      CountUpdate(was, Used(), i, e);
      MapOfErase(was, i, e);
      rib[i] := rib[i].(valid := false);
      rib[i] := rib[i].(selected := false);
      rib[i] := rib[i].(iface := None);
      CountBounds(was, Used());
      if ribCount > 0 {
        ribCount := ribCount - 1;
      }
      assert rib[..] == was[i := e];
    }

    // route_table_delete after the input checks.
    method DeleteChecked(key: Key) returns (ok: bool)
      requires Valid() && StoredOk()
      modifies this, rib, fib
      ensures Valid() && StoredOk()
      ensures (State(), ok) == DeleteAt(old(State()), key)
    {
      hide MapOf, Coherent, WellFormed;
      var slot := FindKey(key);
      if slot.Some? {
        Erase(slot.value);
        RebuildFib();
        return true;
      }
      assert key !in MapOf(rib[..]);
      assert MapOf(rib[..]) - {key} == MapOf(rib[..]);
      return false;
    }

    // route_table_delete
    method DeleteEntry(prefix: bv32, len: u8, proto: u8) returns (ok: bool)
      requires Valid() && StoredOk()
      modifies this, rib, fib
      ensures Valid() && StoredOk()
      ensures (State(), ok) == DeleteRoute(old(State()), prefix, len, proto)
      ensures ok <==> len <= 32 && proto != 0 && Key(Normalized(prefix, len), proto) in old(State()).map_
      ensures State() == if ok then old(State()).(map_ := old(State()).map_ - {Key(Normalized(prefix, len), proto)})
                         else old(State())
    {
      hide MapOf, Coherent, WellFormed, Normalized, KeysOk;
      if len > 32 || proto == 0 {
        return false;
      }
      ok := DeleteChecked(Key(Normalized(prefix, len), proto));
    }

    // route_table_flush_proto; returns how many candidates were removed.
    method FlushProto(proto: u8) returns (invalidated: int)
      requires Valid() && StoredOk()
      modifies this, rib, fib
      ensures Valid() && StoredOk()
      ensures State() == FlushRoutes(old(State()), proto)
      ensures R.FlushDone(old(State()), proto, State())
      ensures invalidated == |old(State()).map_| - |State().map_|
    {
      hide MapOf, Coherent, WellFormed, OfProto, KeysOk, R.FlushDone;
      R.FlushIsDone(State(), proto);
      if proto == 0 {
        return 0;
      }
      invalidated := FlushChecked(proto);
    }

    method FlushChecked(proto: u8) returns (invalidated: int)
      requires Valid() && StoredOk()
      modifies this`ribCount, this`fibCount, rib, fib
      ensures Valid() && StoredOk()
      ensures MapOf(rib[..]) == old(MapOf(rib[..])) - OfProto(old(MapOf(rib[..])), proto)
      ensures invalidated == |old(MapOf(rib[..]))| - |MapOf(rib[..])|
    {
      hide MapOf, Coherent, WellFormed, Without, OfProto, KeysOk;
      ghost var was := rib[..];
      invalidated := InvalidateProto(proto);
      FlushSizes(was, rib[..], proto);
      RebuildFib();
    }

    // Lines 183-195.
    method InvalidateProto(proto: u8) returns (invalidated: int)
      requires RibOk() && StoredOk()
      modifies this`ribCount, rib
      ensures RibOk() && StoredOk() && Without(old(rib[..]), rib[..], proto)
      ensures invalidated == old(ribCount) - ribCount
    {
      hide MapOf, WellFormed;
      invalidated := 0;
      ghost var was := rib[..];
      for i := 0 to RIB_SIZE
        invariant RibOk() && StoredOk()
        invariant invalidated == old(ribCount) - ribCount
        invariant forall k :: i <= k < RIB_SIZE ==> rib[k] == was[k]
        invariant forall k :: 0 <= k < i ==> rib[k].valid == (was[k].valid && was[k].proto != proto)
        invariant forall k :: 0 <= k < i && rib[k].valid ==> rib[k] == was[k]
      {
        if rib[i].valid && rib[i].proto == proto {
          Erase(i);
          invalidated := invalidated + 1;
        }
      }
    }

    // route_table_lookup; slot is the index of the returned FIB entry.
    method Lookup(dst: bv32) returns (slot: Option<nat>)
      requires Valid() && StoredOk()
      ensures slot.None? ==> forall j :: 0 <= j < rib.Length ==> !Matches(rib[j], dst)
      ensures slot.Some? ==> slot.value < fibCount <= fib.Length && BestMatch(rib[..], dst, fib[slot.value].ribIndex)
      ensures slot.Some? ==> fib[slot.value] == FibEntryOf(rib[..], fib[slot.value].ribIndex)
    {
      hide Covers, Normalized;
      slot := None;
      FibSlots(rib[..], fib[..], fibCount);
      assert forall k :: 0 <= k < FIB_SIZE ==> fib[..][k] == fib[k];
      for i := 0 to FIB_SIZE
        invariant slot.Some? ==> slot.value < i && fib[slot.value].valid && Covers(fib[slot.value].net, dst)
        invariant forall k :: 0 <= k < i && fib[k].valid && Covers(fib[k].net, dst) ==>
                    slot.Some? && fib[k].net.len <= fib[slot.value].net.len
      {
        if fib[i].valid {
          if fib[i].net.len <= 32 {
            if fib[i].net.len > 24 {
              if Covers(fib[i].net, dst) {
                if slot.None? || fib[i].net.len > fib[slot.value].net.len {
                  slot := Some(i);
                }
              }
            } else if fib[i].net.len <= 24 {
              if Covers(fib[i].net, dst) {
                if slot.None? || fib[i].net.len > fib[slot.value].net.len {
                  slot := Some(i);
                }
              }
            }
          }
        }
      }
      if slot.Some? {
        LongestIsBest(rib[..], fib[..], fibCount, dst, slot.value);
      } else {
        NoneMatches(rib[..], fib[..], fibCount, dst);
      }
    }
  }

  // A new table after any operations, in memory.
  method Replay(ops: seq<Op>) returns (table: RouteTable)
    ensures fresh(table) && fresh(table.rib) && fresh(table.fib)
    ensures table.Valid() && table.StoredOk() && table.State() == History(ops)
  {
    hide MapOf, Coherent, WellFormed, KeysOk;
    table := new RouteTable();
    for n := 0 to |ops|
      invariant table.Valid() && table.StoredOk() && table.State() == History(ops[..n])
    {
      assert ops[..n + 1][..n] == ops[..n];
      match ops[n]
      case Add(prefix, len, nextHop, iface, metric, proto) =>
        var ok := table.AddEntry(prefix, len, nextHop, iface, metric, proto);
      case Delete(prefix, len, proto) =>
        var ok := table.DeleteEntry(prefix, len, proto);
      case Flush(proto) =>
        var removed := table.FlushProto(proto);
    }
    assert ops[..|ops|] == ops;
  }

  // entry is the forwarding entry of the best route for dst, which has key best.
  ghost predicate Answers(m: map<Key, Route>, dst: bv32, entry: FibEntry, best: Key) {
    && BestRoute(m, dst, best)
    && entry.net == best.net && entry.proto == best.proto
    && entry.nextHop == m[best].nextHop && entry.iface == m[best].iface && entry.metric == m[best].metric
  }

  lemma BestSlotAnswers(ops: seq<Op>, rib: seq<RibEntry>, dst: bv32, i: nat)
    requires Additions(ops) < TWO32 && KeysOk(rib) && MapOf(rib) == History(ops).map_ && BestMatch(rib, dst, i)
    ensures Answers(History(ops).map_, dst, FibEntryOf(rib, i), KeyOf(rib[i]))
  {
    hide MapOf, History, Additions, Covers;
    LookupAfterHistory(ops, rib, dst);
  }

  // The answer gives next hop, interface and metric of the last addition of the key best.
  ghost predicate LastAdded(ops: seq<Op>, best: Key, answer: FibEntry) {
    exists i: nat :: R.Stands(ops, i, best)
      && ops[i].nextHop == answer.nextHop && ops[i].iface == answer.iface && ops[i].metric == answer.metric
  }

  lemma AnswerIsLastAdded(ops: seq<Op>, dst: bv32, answer: FibEntry, best: Key)
    requires Answers(History(ops).map_, dst, answer, best)
    ensures LastAdded(ops, best, answer)
  {
    hide History, BestRoute, R.Stands;
    InTable(History(ops).map_, dst, best);
    R.StoredIsLastAdded(ops, best);
    var i: nat :| R.Stands(ops, i, best);
    R.StandsWithin(ops, i, best);
  }

  lemma InTable(m: map<Key, Route>, dst: bv32, k: Key)
    requires BestRoute(m, dst, k)
    ensures k in m
  {}

  // What a lookup answers after any history: nothing exactly when no stored route covers the
  // destination, and otherwise the next hop and interface of the best route over all stored ones, as
  // the last addition of its network and protocol gave them.
  method AnswerAfter(ops: seq<Op>, dst: bv32) returns (answer: Option<FibEntry>, ghost best: Key)
    requires Additions(ops) < TWO32
    ensures answer.None? <==> forall k :: k in History(ops).map_ ==> !Covers(k.net, dst)
    ensures answer.Some? ==> Answers(History(ops).map_, dst, answer.value, best) && LastAdded(ops, best, answer.value)
  {
    hide MapOf, Coherent, WellFormed, Covers, BestMatch, BestRoute, History, Additions, KeysOk, Answers,
      LastAdded;
    var table := Replay(ops);
    assert table.State().map_ == MapOf(table.rib[..]);
    var slot := table.Lookup(dst);
    LookupAfterHistory(ops, table.rib[..], dst);
    best := Key(Net(0, 0), 0);
    answer := None;
    if slot.Some? {
      var i := table.fib[slot.value].ribIndex;
      BestSlotCovers(table.rib[..], dst, i);
      BestSlotAnswers(ops, table.rib[..], dst, i);
      best := KeyOf(table.rib[i]);
      answer := Some(table.fib[slot.value]);
      AnswerIsLastAdded(ops, dst, answer.value, best);
    }
  }

  lemma BestSlotCovers(rib: seq<RibEntry>, dst: bv32, i: nat)
    requires BestMatch(rib, dst, i)
    ensures i < |rib| && Matches(rib[i], dst)
  {}
}
