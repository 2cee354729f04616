/** What the routing table holds after any operations, told by the list of operations alone: every
    stored route is the one that was added last under its key, and nothing else is stored. */
module RouteRecord {
  import opened Prefixes
  import opened RouteSpec
  import opened RouteHistory

  // The key that a well-formed addition or deletion is about.
  predicate AddsKey(op: Op, k: Key) {
    op.Add? && op.iface.Some? && op.len <= 32 && op.proto != 0 && k == Key(Normalized(op.prefix, op.len), op.proto)
  }

  predicate RemovesKey(op: Op, k: Key) {
    match op
    case Add(_, _, _, _, _, _) => false
    case Delete(prefix, len, proto) => len <= 32 && proto != 0 && k == Key(Normalized(prefix, len), proto)
    case Flush(proto) => proto != 0 && k.proto == proto
  }

  predicate Gives(op: Op, r: Route) {
    op.Add? && r.nextHop == op.nextHop && r.iface == op.iface && r.metric == op.metric
  }

  // An addition is taken when its key is stored already or fewer than 256 routes are.
  predicate Room(s: Routes, k: Key) {
    k in s.map_ || |s.map_| < 256
  }

  predicate Took(ops: seq<Op>, i: nat, k: Key)
    requires i < |ops|
  {
    AddsKey(ops[i], k) && Room(History(ops[..i]), k)
  }

  // Operation i was the last addition of the key, and nothing removed the route since.
  ghost predicate Stands(ops: seq<Op>, i: nat, k: Key) {
    && i < |ops| && Took(ops, i, k)
    && forall j :: i < j < |ops| ==> !Took(ops, j, k) && !RemovesKey(ops[j], k)
  }

  // What one operation does to one key: an addition that is taken stores its own attributes, a removal
  // of the key removes it, and everything else leaves the route as it was, its age included.
  lemma OpEffect(s: Routes, op: Op, k: Key)
    ensures var m, took := Apply(s, op).map_, AddsKey(op, k) && Room(s, k);
            && (k in m <==> took || (k in s.map_ && !RemovesKey(op, k)))
            && (took ==> Gives(op, m[k]))
            && (k in m && k in s.map_ ==> m[k].sequence == s.map_[k].sequence)
            && (k in m && !took ==> m[k] == s.map_[k])
  {
    hide Normalized;
  }

  // What route_table_add does: on success the key has exactly the given attributes, and no other key is
  // affected; on failure nothing changes.
  ghost predicate AddDone(s: Routes, k: Key, good: bool, nextHop: u32, iface: Iface, metric: u32,
                          s1: Routes, ok: bool)
  {
    && (ok <==> good && Room(s, k))
    && (!ok ==> s1 == s)
    && (ok ==> k in s1.map_ && s1.map_[k] == Route(nextHop, iface, metric, s1.map_[k].sequence))
    && (ok ==> s1.map_[k].sequence == if k in s.map_ then s.map_[k].sequence else s.nextSequence)
    && (forall l :: l != k ==> (l in s1.map_ <==> l in s.map_))
    && (forall l :: l != k && l in s.map_ ==> l in s1.map_ && s1.map_[l] == s.map_[l])
  }

  lemma AddIsDone(s: Routes, prefix: bv32, len: u8, nextHop: u32, iface: Iface, metric: u32, proto: u8)
    ensures var (s1, ok) := AddRoute(s, prefix, len, nextHop, iface, metric, proto);
            AddDone(s, Key(Normalized(prefix, len), proto), iface.Some? && len <= 32 && proto != 0,
                    nextHop, iface, metric, s1, ok)
  {
    hide Normalized;
  }

  // What route_table_flush_proto does: the routes of the protocol are gone, the others are as before.
  ghost predicate FlushDone(s: Routes, proto: u8, s1: Routes) {
    && s1.nextSequence == s.nextSequence
    && (forall k :: k in s1.map_ <==> k in s.map_ && (proto == 0 || k.proto != proto))
    && (forall k :: k in s1.map_ ==> s1.map_[k] == s.map_[k])
  }

  lemma FlushIsDone(s: Routes, proto: u8)
    ensures FlushDone(s, proto, FlushRoutes(s, proto))
  {}

  // A refused operation changes nothing, not even the next age.
  lemma Refused(s: Routes, op: Op)
    requires op.Add? && forall k :: !(AddsKey(op, k) && Room(s, k))
    ensures Apply(s, op) == s
  {
    hide Normalized;
    var k := Key(Normalized(op.prefix, op.len), op.proto);
    assert !(AddsKey(op, k) && Room(s, k));
  }

  lemma StandsStep(ops: seq<Op>, i: nat, k: Key)
    requires ops != []
    ensures var before, n := ops[..|ops| - 1], |ops| - 1;
            Stands(ops, i, k) <==> if Took(ops, n, k) then i == n else Stands(before, i, k) && !RemovesKey(ops[n], k)
  {
    hide RemovesKey, AddsKey, Room, History;
    var before := ops[..|ops| - 1];
    forall j: nat | j < |ops| - 1 ensures Took(ops, j, k) <==> Took(before, j, k) {
      assert ops[..j] == before[..j];
    }
    assert forall j :: 0 <= j < |before| ==> before[j] == ops[j];
  }

  // After any operations a route is stored under a key exactly when the last addition of the key that was
  // taken has not been deleted or flushed since; next hop, interface and metric are those it gave.
  lemma {:induction false} StoredIsLastAdded(ops: seq<Op>, k: Key)
    ensures k in History(ops).map_ <==> exists i: nat :: Stands(ops, i, k)
    ensures forall i: nat :: Stands(ops, i, k) ==> k in History(ops).map_ && Gives(ops[i], History(ops).map_[k])
  {
    hide Apply, Stands, RemovesKey, Gives;
    if ops == [] {
      NothingStands(k);
    } else {
      var n, before := |ops| - 1, ops[..|ops| - 1];
      OpEffect(History(before), ops[n], k);
      StoredIsLastAdded(before, k);
      forall i: nat
        ensures Stands(ops, i, k) <==>
                  if Took(ops, n, k) then i == n else Stands(before, i, k) && !RemovesKey(ops[n], k)
      {
        StandsStep(ops, i, k);
      }
      assert Took(ops, n, k) ==> Stands(ops, n, k);
      forall i: nat | Stands(before, i, k) ensures i < n && before[i] == ops[i] {
        StandsWithin(before, i, k);
      }
    }
  }

  lemma NothingStands(k: Key)
    ensures forall i: nat :: !Stands([], i, k)
  {}

  lemma StandsWithin(ops: seq<Op>, i: nat, k: Key)
    requires Stands(ops, i, k)
    ensures i < |ops|
  {}

  // How many additions were taken under a key that was not stored.
  function NewKeys(ops: seq<Op>): nat {
    if ops == [] then 0
    else
      var before := ops[..|ops| - 1];
      NewKeys(before) + (if OpensKey(History(before), ops[|ops| - 1]) then 1 else 0)
  }

  predicate OpensKey(s: Routes, op: Op) {
    op.Add? && AddsKey(op, KeyOfAdd(op)) && KeyOfAdd(op) !in s.map_ && |s.map_| < 256
  }

  function KeyOfAdd(op: Op): Key
    requires op.Add?
  {
    Key(Normalized(op.prefix, op.len), op.proto)
  }

  // These are the additions that use up a sequence number.
  lemma {:induction false} AdditionsAreNewKeys(ops: seq<Op>)
    ensures Additions(ops) == NewKeys(ops)
  {
    hide Apply, OpensKey;
    if ops != [] {
      AdditionsAreNewKeys(ops[..|ops| - 1]);
      UsesNumber(History(ops[..|ops| - 1]), ops[|ops| - 1]);
    }
  }

  lemma UsesNumber(s: Routes, op: Op)
    ensures Apply(s, op).nextSequence != s.nextSequence <==> OpensKey(s, op)
  {
    hide Normalized;
  }

  // ---- which of two routes wins ----

  // The protocols from the most to the least trusted: direct, static, BGP, EIGRP, OSPF, IS-IS, RIP.
  const RANKING: seq<u8> := [2, 1, 5, 6, 4, 7, 3]

  // Distances order them so; all other protocols are equal and come last.
  lemma DistancesRank(i: nat, j: nat, proto: u8, other: u8)
    requires i < |RANKING| && j < |RANKING| && proto !in RANKING && other !in RANKING
    ensures AdminDistance(RANKING[i]) < AdminDistance(RANKING[j]) <==> i < j
    ensures AdminDistance(RANKING[i]) < AdminDistance(proto) == AdminDistance(other)
  {
    assert forall p: u8 :: p !in RANKING ==> p != 1 && p != 2 && p != 3 && p != 4 && p != 5 && p != 6 && p != 7 by {
      assert RANKING[0] == 2 && RANKING[1] == 1 && RANKING[2] == 5 && RANKING[3] == 6;
      assert RANKING[4] == 4 && RANKING[5] == 7 && RANKING[6] == 3;
    }
  }

  // No route that covers the address is longer than the best one; of those as long none has a lower
  // distance; of these none a lower metric; and of these none is as old.
  lemma BestRouteWins(m: map<Key, Route>, dst: bv32, k: Key, l: Key)
    requires BestRoute(m, dst, k) && l in m && Covers(l.net, dst) && l != k
    ensures var d, e := AdminDistance(k.proto), AdminDistance(l.proto);
            && l.net.len <= k.net.len
            && (l.net.len == k.net.len ==> d <= e)
            && (l.net.len == k.net.len && d == e ==> m[k].metric <= m[l].metric)
            && (l.net.len == k.net.len && d == e && m[k].metric == m[l].metric ==> m[k].sequence < m[l].sequence)
  {
    hide Covers, AdminDistance;
  }
}
