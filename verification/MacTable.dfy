/** The MAC table of src/network/mac_table.c, updated in place by slot scans. */
module MacTable {
  import opened Slots
  import opened Wrappers
  import Framing

  const MAC_TABLE_SIZE := 1024
  const MAC_AGE_MS := 300000
  const TWO64 := 0x1_0000_0000_0000_0000

  type Mac = Framing.Mac

  // The identity of an interface.
  type Port = nat

  datatype MacEntry = MacEntry(mac: Mac, port: Option<Port>, timestamp: nat, valid: bool)

  const NO_ENTRY := MacEntry([0, 0, 0, 0, 0, 0], None, 0, false)

  // Unsigned 64-bit subtraction.
  function Sub64(a: nat, b: nat): nat {
    (a - b) % TWO64
  }

  // ---- tables as values ----

  function Holding(mac: Mac): MacEntry -> bool {
    (e: MacEntry) => e.valid && e.mac == mac
  }

  function Used(): MacEntry -> bool {
    (e: MacEntry) => e.valid
  }

  function Free(): MacEntry -> bool {
    (e: MacEntry) => !e.valid
  }

  // mac_table_learn: refresh the entry of the address, or take the first free slot.
  function Learn(s: seq<MacEntry>, mac: Mac, port: Port, now: nat): (seq<MacEntry>, Option<nat>) {
    match First(s, Holding(mac))
    case Some(i) => (s[i := s[i].(port := Some(port), timestamp := now)], Some(i))
    case None =>
      match First(s, Free())
      case Some(i) => (s[i := MacEntry(mac, Some(port), now, true)], Some(i))
      case None => (s, None)
  }

  predicate Stale(e: MacEntry, now: nat) {
    e.valid && Sub64(now, e.timestamp) > MAC_AGE_MS
  }

  function Age(s: seq<MacEntry>, now: nat): (r: seq<MacEntry>)
    ensures |r| == |s| && forall i :: 0 <= i < |s| ==> r[i] == if Stale(s[i], now) then s[i].(valid := false) else s[i]
  {
    seq(|s|, i requires 0 <= i < |s| => if Stale(s[i], now) then s[i].(valid := false) else s[i])
  }

  predicate Behind(e: MacEntry, port: Port) {
    e.valid && e.port == Some(port)
  }

  function FlushPort(s: seq<MacEntry>, port: Port): (r: seq<MacEntry>)
    ensures |r| == |s| && forall i :: 0 <= i < |s| ==>
              r[i] == if Behind(s[i], port) then s[i].(valid := false) else s[i]
  {
    seq(|s|, i requires 0 <= i < |s| => if Behind(s[i], port) then s[i].(valid := false) else s[i])
  }

  // ---- the table in memory ----

  class MacTable {
    const entries: array<MacEntry>
    var count: int

    ghost predicate Valid()
      reads this, entries
    {
      entries.Length == MAC_TABLE_SIZE && count == Count(entries[..], Used())
    }

    // mac_table_init
    constructor ()
      ensures Valid() && fresh(entries) && forall i :: 0 <= i < entries.Length ==> entries[i] == NO_ENTRY
    {
      entries := new MacEntry[MAC_TABLE_SIZE](_ => NO_ENTRY);
      count := 0;
      new;
      CountBounds(entries[..], Used());
    }

    // mac_table_learn
    method LearnAddress(mac: Mac, port: Port, now: nat) returns (slot: Option<nat>)
      requires Valid()
      modifies this, entries
      ensures Valid() && (entries[..], slot) == Learn(old(entries[..]), mac, port, now)
      ensures slot.Some? ==> slot.value < entries.Length && entries[slot.value] == MacEntry(mac, Some(port), now, true)
      ensures forall k :: 0 <= k < entries.Length && slot != Some(k) ==> entries[k] == old(entries[k])
    {
      ghost var s := entries[..];
      for i := 0 to MAC_TABLE_SIZE
        invariant entries[..] == s && count == old(count)
        invariant forall k :: 0 <= k < i ==> !Holding(mac)(entries[k])
      {
        if entries[i].valid && entries[i].mac == mac {
          CountUpdate(s, Used(), i, s[i].(port := Some(port), timestamp := now));
          entries[i] := entries[i].(port := Some(port));
          entries[i] := entries[i].(timestamp := now);
          assert entries[..] == s[i := s[i].(port := Some(port), timestamp := now)];
          return Some(i);
        }
      }
      for i := 0 to MAC_TABLE_SIZE
        invariant entries[..] == s && count == old(count)
        invariant forall k :: 0 <= k < i ==> entries[k].valid
      {
        if !entries[i].valid {
          CountUpdate(s, Used(), i, MacEntry(mac, Some(port), now, true));
          entries[i] := MacEntry(mac, Some(port), now, true);
          count := count + 1;
          assert entries[..] == s[i := MacEntry(mac, Some(port), now, true)];
          return Some(i);
        }
      }
      return None;
    }

    // mac_table_lookup
    method Lookup(mac: Mac) returns (port: Option<Port>)
      requires Valid()
      ensures port == match First(entries[..], Holding(mac)) case Some(i) => entries[i].port case None => None
    {
      for i := 0 to MAC_TABLE_SIZE
        invariant forall k :: 0 <= k < i ==> !Holding(mac)(entries[k])
      {
        if entries[i].valid && entries[i].mac == mac {
          return entries[i].port;
        }
      }
      return None;
    }

    // mac_table_age
    method AgeEntries(now: nat)
      requires Valid()
      modifies this, entries
      ensures Valid() && entries[..] == Age(old(entries[..]), now)
    {
      for i := 0 to MAC_TABLE_SIZE
        invariant Valid()
        invariant forall k :: 0 <= k < i ==> entries[k] == Age(old(entries[..]), now)[k]
        invariant forall k :: i <= k < MAC_TABLE_SIZE ==> entries[k] == old(entries[k])
      {
        if entries[i].valid && Sub64(now, entries[i].timestamp) > MAC_AGE_MS {
          CountUpdate(entries[..], Used(), i, entries[i].(valid := false));
          ghost var next := entries[..][i := entries[i].(valid := false)];
          entries[i] := entries[i].(valid := false);
          count := count - 1;
          assert entries[..] == next;
        }
      }
    }

    // mac_table_flush_port
    method Flush(port: Port)
      requires Valid()
      modifies this, entries
      ensures Valid() && entries[..] == FlushPort(old(entries[..]), port)
    {
      for i := 0 to MAC_TABLE_SIZE
        invariant Valid()
        invariant forall k :: 0 <= k < i ==> entries[k] == FlushPort(old(entries[..]), port)[k]
        invariant forall k :: i <= k < MAC_TABLE_SIZE ==> entries[k] == old(entries[k])
      {
        if entries[i].valid && entries[i].port == Some(port) {
          CountUpdate(entries[..], Used(), i, entries[i].(valid := false));
          ghost var next := entries[..][i := entries[i].(valid := false)];
          entries[i] := entries[i].(valid := false);
          count := count - 1;
          assert entries[..] == next;
        }
      }
    }
  }
}
