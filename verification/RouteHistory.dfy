/** The routing table seen from outside: a finite map from (network, protocol) to a route. This is
    the reference that the slot arrays are compared with, and the level at which histories are told. */
module RouteHistory {
  import opened Prefixes
  import opened RouteSpec

  const TWO32 := 0x1_0000_0000

  datatype Key = Key(net: Net, proto: u8)

  datatype Route = Route(nextHop: u32, iface: Iface, metric: u32, sequence: u32)

  datatype Routes = Routes(map_: map<Key, Route>, nextSequence: u32)

  // ---- the operations ----

  predicate BadInput(iface: Iface, len: u8, proto: u8) {
    iface.None? || len > 32 || proto == 0
  }

  function Normalized(prefix: bv32, len: u8): Net {
    Net(Masked(prefix, len), len)
  }

  datatype Op =
    | Add(prefix: bv32, len: u8, nextHop: u32, iface: Iface, metric: u32, proto: u8)
    | Delete(prefix: bv32, len: u8, proto: u8)
    | Flush(proto: u8)

  function Apply(s: Routes, op: Op): Routes {
    match op
    case Add(prefix, len, nextHop, iface, metric, proto) => AddRoute(s, prefix, len, nextHop, iface, metric, proto).0
    case Delete(prefix, len, proto) => DeleteRoute(s, prefix, len, proto).0
    case Flush(proto) => FlushRoutes(s, proto)
  }

  function AddRoute(s: Routes, prefix: bv32, len: u8, nextHop: u32, iface: Iface, metric: u32, proto: u8)
    : (Routes, bool)
  {
    if BadInput(iface, len, proto) then (s, false)
    else AddAt(s, Key(Normalized(prefix, len), proto), nextHop, iface, metric)
  }

  // A known (network, protocol) is updated and keeps its age; a new one is refused when 256 are stored.
  function AddAt(s: Routes, key: Key, nextHop: u32, iface: Iface, metric: u32): (Routes, bool) {
    if key in s.map_ then
      (s.(map_ := s.map_[key := Route(nextHop, iface, metric, s.map_[key].sequence)]), true)
    else if |s.map_| < RIB_SIZE then
      (Routes(s.map_[key := Route(nextHop, iface, metric, s.nextSequence)], (s.nextSequence + 1) % TWO32), true)
    else (s, false)
  }

  function DeleteRoute(s: Routes, prefix: bv32, len: u8, proto: u8): (Routes, bool) {
    if len > 32 || proto == 0 then (s, false)
    else DeleteAt(s, Key(Normalized(prefix, len), proto))
  }

  function DeleteAt(s: Routes, key: Key): (Routes, bool) {
    if key in s.map_ then (s.(map_ := s.map_ - {key}), true) else (s, false)
  }

  function OfProto(m: map<Key, Route>, proto: u8): set<Key> {
    set k | k in m && k.proto == proto
  }

  function FlushRoutes(s: Routes, proto: u8): Routes {
    if proto == 0 then s else s.(map_ := s.map_ - OfProto(s.map_, proto))
  }

  // ---- the best route, by content alone ----

  // Lower administrative distance, then lower metric, then older.
  predicate Beats(k: Key, r: Route, l: Key, q: Route) {
    var d, e := AdminDistance(k.proto), AdminDistance(l.proto);
    d < e || (d == e && (r.metric < q.metric || (r.metric == q.metric && r.sequence < q.sequence)))
  }

  ghost predicate BestRoute(m: map<Key, Route>, dst: bv32, k: Key) {
    && k in m && Covers(k.net, dst)
    && forall l :: l in m && Covers(l.net, dst) && l != k ==>
         l.net.len < k.net.len || (l.net.len == k.net.len && Beats(k, m[k], l, m[l]))
  }

  lemma BestRouteIsUnique(m: map<Key, Route>, dst: bv32, k: Key, l: Key)
    requires BestRoute(m, dst, k) && BestRoute(m, dst, l)
    ensures k == l
  {}

  // The network of the best route is the innermost of all stored networks that cover the address.
  lemma BestIsInnermost(m: map<Key, Route>, dst: bv32, k: Key, l: Key)
    requires BestRoute(m, dst, k) && l in m && Covers(l.net, dst)
    ensures Inside(k.net, l.net)
  {
    hide Covers, Inside;
    LongerIsInside(k.net, l.net, dst);
  }

  ghost predicate DistinctAges(m: map<Key, Route>) {
    forall k, l :: k in m && l in m && k != l ==> m[k].sequence != m[l].sequence
  }

  // ---- the slot array behind the map ----

  function KeyOf(e: RibEntry): Key {
    Key(e.net, e.proto)
  }

  function RouteOf(e: RibEntry): Route {
    Route(e.nextHop, e.iface, e.metric, e.sequence)
  }

  // No two used slots hold the same (network, protocol).
  ghost predicate KeysOk(rib: seq<RibEntry>) {
    forall i, j :: 0 <= i < j < |rib| && rib[i].valid && rib[j].valid ==> KeyOf(rib[i]) != KeyOf(rib[j])
  }

  // Stored prefixes are normalized, and the other input checks left their mark.
  predicate WellFormed(e: RibEntry) {
    e.valid ==> e.net.len <= 32 && e.net == Normalized(e.net.prefix, e.net.len) && e.proto != 0 && e.iface.Some?
  }

  lemma NormalizedTwice(prefix: bv32, len: u8)
    ensures Normalized(Normalized(prefix, len).prefix, len) == Normalized(prefix, len)
  {
    hide PrefixMask;
    var mask := PrefixMask(len);
    assert (prefix & mask) & mask == prefix & mask;
  }

  lemma PlainKeepsWellFormed(rib: seq<RibEntry>, other: seq<RibEntry>)
    requires Plain(rib) == Plain(other) && forall i :: 0 <= i < |rib| ==> WellFormed(rib[i])
    ensures forall i :: 0 <= i < |other| ==> WellFormed(other[i])
  {
    hide Masked, Normalized;
    assert |Plain(rib)| == |Plain(other)|;
    forall i | 0 <= i < |other| ensures WellFormed(other[i]) {
      assert Plain(rib)[i] == Plain(other)[i];
      assert WellFormed(rib[i]);
    }
  }

  ghost function MapOf(rib: seq<RibEntry>): (m: map<Key, Route>)
    requires KeysOk(rib)
    ensures forall i :: 0 <= i < |rib| && rib[i].valid ==> KeyOf(rib[i]) in m && m[KeyOf(rib[i])] == RouteOf(rib[i])
    ensures forall k :: k in m ==> exists i :: 0 <= i < |rib| && rib[i].valid && KeyOf(rib[i]) == k
  {
    map i | 0 <= i < |rib| && rib[i].valid :: KeyOf(rib[i]) := RouteOf(rib[i])
  }

  lemma MapOfPlain(rib: seq<RibEntry>, other: seq<RibEntry>)
    requires KeysOk(rib) && Plain(rib) == Plain(other)
    ensures KeysOk(other) && MapOf(other) == MapOf(rib)
  {
    forall i | 0 <= i < |rib|
      ensures other[i] == rib[i].(selected := other[i].selected)
    {
      assert Plain(rib)[i] == Plain(other)[i];
    }
    hide MapOf;
    forall k ensures k in MapOf(rib) <==> k in MapOf(other) {
      assert forall i :: 0 <= i < |rib| ==> KeyOf(other[i]) == KeyOf(rib[i]);
    }
  }

  // Writing a used slot with the same key, or a free slot with a new key, writes the map.
  lemma MapOfStore(rib: seq<RibEntry>, i: nat, e: RibEntry)
    requires KeysOk(rib) && i < |rib| && e.valid && KeysOk(rib[i := e])
    requires rib[i].valid ==> KeyOf(rib[i]) == KeyOf(e)
    ensures MapOf(rib[i := e]) == MapOf(rib)[KeyOf(e) := RouteOf(e)]
  {
    hide MapOf;
    var rib1, m1 := rib[i := e], MapOf(rib)[KeyOf(e) := RouteOf(e)];
    assert rib1[i] == e;
    forall k | k in m1 ensures k in MapOf(rib1) && MapOf(rib1)[k] == m1[k] {
      if k != KeyOf(e) {
        var j :| 0 <= j < |rib| && rib[j].valid && KeyOf(rib[j]) == k;
        assert rib1[j] == rib[j];
      }
    }
    forall k | k in MapOf(rib1) ensures k in m1 {
      var j :| 0 <= j < |rib1| && rib1[j].valid && KeyOf(rib1[j]) == k;
    }
  }

  lemma MapOfErase(rib: seq<RibEntry>, i: nat, e: RibEntry)
    requires KeysOk(rib) && i < |rib| && rib[i].valid && !e.valid
    ensures KeysOk(rib[i := e]) && MapOf(rib[i := e]) == MapOf(rib) - {KeyOf(rib[i])}
  {
    hide MapOf;
    var rib1, m1 := rib[i := e], MapOf(rib) - {KeyOf(rib[i])};
    forall k | k in m1 ensures k in MapOf(rib1) && MapOf(rib1)[k] == m1[k] {
      var j :| 0 <= j < |rib| && rib[j].valid && KeyOf(rib[j]) == k;
      assert rib1[j] == rib[j];
    }
    forall k | k in MapOf(rib1) ensures k in m1 {
      var j :| 0 <= j < |rib1| && rib1[j].valid && KeyOf(rib1[j]) == k;
    }
  }

  lemma MapOfSnoc(rib: seq<RibEntry>, e: RibEntry)
    requires KeysOk(rib + [e])
    ensures KeysOk(rib) && MapOf(rib + [e]) == if e.valid then MapOf(rib)[KeyOf(e) := RouteOf(e)] else MapOf(rib)
    ensures e.valid ==> KeyOf(e) !in MapOf(rib)
  {
    hide MapOf;
    var rib1 := rib + [e];
    assert rib1[|rib|] == e && forall i :: 0 <= i < |rib| ==> rib1[i] == rib[i];
    forall k | k in MapOf(rib)
      ensures k in MapOf(rib1) && MapOf(rib1)[k] == MapOf(rib)[k] && (e.valid ==> k != KeyOf(e)) {
      var j :| 0 <= j < |rib| && rib[j].valid && KeyOf(rib[j]) == k;
    }
    forall k | k in MapOf(rib1) ensures k in MapOf(rib) || (e.valid && k == KeyOf(e)) {
      var j :| 0 <= j < |rib1| && rib1[j].valid && KeyOf(rib1[j]) == k;
    }
  }

  lemma {:induction false} MapOfSize(rib: seq<RibEntry>)
    requires KeysOk(rib)
    ensures |MapOf(rib)| == CountValid(rib)
  {
    hide MapOf;
    if rib == [] {
      assert forall k :: k !in MapOf(rib);
      assert MapOf(rib) == map[];
    } else {
      var n := |rib| - 1;
      assert rib == rib[..n] + [rib[n]];
      MapOfSnoc(rib[..n], rib[n]);
      MapOfSize(rib[..n]);
    }
  }

  // rib is what is left of was after every slot of one protocol was freed.
  ghost predicate Without(was: seq<RibEntry>, rib: seq<RibEntry>, proto: u8) {
    && |was| == |rib|
    && (forall k :: 0 <= k < |rib| ==> rib[k].valid == (was[k].valid && was[k].proto != proto))
    && (forall k :: 0 <= k < |rib| && rib[k].valid ==> rib[k] == was[k])
  }

  lemma MapOfFlush(was: seq<RibEntry>, rib: seq<RibEntry>, proto: u8)
    requires KeysOk(was) && KeysOk(rib) && Without(was, rib, proto)
    ensures MapOf(rib) == MapOf(was) - OfProto(MapOf(was), proto)
  {
    hide MapOf;
    var m1 := MapOf(was) - OfProto(MapOf(was), proto);
    forall k | k in m1 ensures k in MapOf(rib) && MapOf(rib)[k] == m1[k] {
      var j :| 0 <= j < |was| && was[j].valid && KeyOf(was[j]) == k;
      assert rib[j].valid;
    }
    forall k | k in MapOf(rib) ensures k in m1 {
      var j :| 0 <= j < |rib| && rib[j].valid && KeyOf(rib[j]) == k;
      assert was[j].valid;
    }
  }

  lemma FlushSizes(was: seq<RibEntry>, rib: seq<RibEntry>, proto: u8)
    requires KeysOk(was) && KeysOk(rib) && Without(was, rib, proto)
    ensures MapOf(rib) == MapOf(was) - OfProto(MapOf(was), proto)
    ensures |MapOf(rib)| == CountValid(rib) && |MapOf(was)| == CountValid(was)
  {
    MapOfFlush(was, rib, proto);
    MapOfSize(was);
    MapOfSize(rib);
  }

  // Used FIB slots are the first m, and hold prefixes of at most 32 bits.
  lemma FibSlots(rib: seq<RibEntry>, fib: seq<FibEntry>, m: nat)
    requires Coherent(rib, fib, m) && forall i :: 0 <= i < |rib| ==> WellFormed(rib[i])
    ensures forall k :: 0 <= k < |fib| ==> fib[k].valid == (k < m)
    ensures forall k :: 0 <= k < m ==> fib[k].net.len <= 32
  {
    hide Normalized;
    forall k | 0 <= k < m ensures fib[k].valid && fib[k].net.len <= 32 {
      assert BestOf(Plain(rib), |rib|, fib[k].ribIndex);
      assert WellFormed(rib[fib[k].ribIndex]);
    }
  }

  // The slot order does not matter: with distinct ages the best slot holds the best route by content.
  lemma BestMatchIsBestRoute(rib: seq<RibEntry>, dst: bv32, i: nat)
    requires KeysOk(rib) && DistinctAges(MapOf(rib)) && BestMatch(rib, dst, i)
    ensures BestRoute(MapOf(rib), dst, KeyOf(rib[i]))
  {
    hide MapOf;
    var m := MapOf(rib);
    forall l | l in m && Covers(l.net, dst) && l != KeyOf(rib[i])
      ensures l.net.len < rib[i].net.len
              || (l.net.len == rib[i].net.len && Beats(KeyOf(rib[i]), RouteOf(rib[i]), l, m[l]))
    {
      var j :| 0 <= j < |rib| && rib[j].valid && KeyOf(rib[j]) == l;
      assert Matches(rib[j], dst);
    }
  }

  // ---- after any history of operations ----

  function History(ops: seq<Op>): Routes {
    if ops == [] then Routes(map[], 1) else Apply(History(ops[..|ops| - 1]), ops[|ops| - 1])
  }

  // How many routes were ever added under a new key.
  function Additions(ops: seq<Op>): nat {
    if ops == [] then 0
    else
      var before := ops[..|ops| - 1];
      Additions(before) + (if History(ops).nextSequence != History(before).nextSequence then 1 else 0)
  }

  // Which addition created each stored route, counting from 1. An update keeps it, as it keeps the age.
  function Born(ops: seq<Op>): map<Key, nat> {
    if ops == [] then map[]
    else Next(Born(ops[..|ops| - 1]), History(ops).map_, Additions(ops))
  }

  function Next(born: map<Key, nat>, m: map<Key, Route>, n: nat): map<Key, nat> {
    map k | k in m :: if k in born then born[k] else n
  }

  // Addition number n in 32 bits.
  function Number(n: nat): u32 {
    n % TWO32
  }

  // The age of a route is the number of its addition.
  ghost predicate AgesAt(s: Routes, born: map<Key, nat>, n: nat) {
    && born.Keys == s.map_.Keys && |s.map_| <= RIB_SIZE && s.nextSequence == Number(n + 1)
    && (forall k :: k in s.map_ ==> 1 <= born[k] <= n && s.map_[k].sequence == Number(born[k]))
    && (forall k, l :: k in s.map_ && l in s.map_ && k != l ==> born[k] != born[l])
  }

  // A step from s to s1 keeps this; it counts as an addition when it used up a sequence number.
  ghost predicate KeepsAges(s: Routes, born: map<Key, nat>, n: nat, s1: Routes) {
    var n1 := if s1.nextSequence != s.nextSequence then n + 1 else n;
    AgesAt(s1, Next(born, s1.map_, n1), n1)
  }

  // Updating a stored route.
  lemma UpdateKeepsAges(s: Routes, born: map<Key, nat>, n: nat, key: Key, r: Route)
    requires AgesAt(s, born, n) && key in s.map_ && r.sequence == s.map_[key].sequence
    ensures KeepsAges(s, born, n, s.(map_ := s.map_[key := r]))
  {
    var m1 := s.map_[key := r];
    StoreSize(s.map_, key, r);
    assert m1.Keys == s.map_.Keys && Next(born, m1, n) == born;
  }

  // Storing a new one.
  lemma InsertKeepsAges(s: Routes, born: map<Key, nat>, n: nat, key: Key, r: Route, next: u32)
    requires AgesAt(s, born, n) && key !in s.map_ && |s.map_| < RIB_SIZE && r.sequence == s.nextSequence
    requires next == Number(n + 2) && next != s.nextSequence
    ensures KeepsAges(s, born, n, Routes(s.map_[key := r], next))
  {
    hide Number;
    NextOfStore(s.map_, born, n + 1, key, r);
    StoreSize(s.map_, key, r);
    StoredAges(s, born, n, key, r, next);
    hide Next, AgesAt;
  }

  lemma NextOfStore(m: map<Key, Route>, born: map<Key, nat>, n: nat, key: Key, r: Route)
    requires born.Keys == m.Keys && key !in m
    ensures Next(born, m[key := r], n) == born[key := n]
  {}

  lemma StoredAges(s: Routes, born: map<Key, nat>, n: nat, key: Key, r: Route, next: u32)
    requires AgesAt(s, born, n) && key !in s.map_ && |s.map_[key := r]| <= RIB_SIZE && r.sequence == s.nextSequence
    requires next == Number(n + 2)
    ensures AgesAt(Routes(s.map_[key := r], next), born[key := n + 1], n + 1)
  {
    hide Number;
  }

  lemma NextNumber(n: nat)
    ensures (Number(n + 1) + 1) % TWO32 == Number(n + 2) != Number(n + 1)
  {}

  lemma RemovingKeepsAges(s: Routes, born: map<Key, nat>, n: nat, gone: set<Key>)
    requires AgesAt(s, born, n)
    ensures KeepsAges(s, born, n, s.(map_ := s.map_ - gone))
  {
    hide Number;
    var m1 := s.map_ - gone;
    var born1 := Next(born, m1, n);
    assert born1.Keys == m1.Keys && m1.Keys <= s.map_.Keys;
    SubsetSize(m1.Keys, s.map_.Keys);
    forall k | k in m1 ensures k in s.map_ && born1[k] == born[k] && m1[k] == s.map_[k] {}
    hide Next;
  }

  lemma StepKeepsAges(s: Routes, born: map<Key, nat>, n: nat, op: Op)
    requires AgesAt(s, born, n)
    ensures KeepsAges(s, born, n, Apply(s, op))
  {
    hide Masked, Normalized, AgesAt, KeepsAges, OfProto, AddAt;
    RemovingNothing(s, born, n);
    match op
    case Add(prefix, len, nextHop, iface, metric, proto) =>
      AddKeepsAges(s, born, n, Key(Normalized(prefix, len), proto), nextHop, iface, metric);
    case Delete(prefix, len, proto) => RemovingKeepsAges(s, born, n, {Key(Normalized(prefix, len), proto)});
    case Flush(proto) => RemovingKeepsAges(s, born, n, OfProto(s.map_, proto));
  }

  lemma AddKeepsAges(s: Routes, born: map<Key, nat>, n: nat, key: Key, nextHop: u32, iface: Iface, metric: u32)
    requires AgesAt(s, born, n)
    ensures KeepsAges(s, born, n, AddAt(s, key, nextHop, iface, metric).0)
  {
    hide KeepsAges, Number;
    if key in s.map_ {
      UpdateKeepsAges(s, born, n, key, Route(nextHop, iface, metric, s.map_[key].sequence));
    } else if |s.map_| < RIB_SIZE {
      NextNumber(n);
      InsertKeepsAges(s, born, n, key, Route(nextHop, iface, metric, s.nextSequence), Number(n + 2));
    } else {
      RemovingNothing(s, born, n);
    }
  }

  lemma RemovingNothing(s: Routes, born: map<Key, nat>, n: nat)
    requires AgesAt(s, born, n)
    ensures KeepsAges(s, born, n, s)
  {
    assert Next(born, s.map_, n) == born;
  }

  // In every history, of any length: ages are the numbers of the additions in 32 bits.
  lemma {:induction false} HistoryAges(ops: seq<Op>)
    ensures AgesAt(History(ops), Born(ops), Additions(ops))
  {
    hide Apply, AgesAt, Next;
    if ops == [] {
      NoAges();
    } else {
      HistoryAges(ops[..|ops| - 1]);
      StepKeepsAges(History(ops[..|ops| - 1]), Born(ops[..|ops| - 1]), Additions(ops[..|ops| - 1]), ops[|ops| - 1]);
    }
  }

  lemma NoAges()
    ensures AgesAt(Routes(map[], 1), map[], 0)
  {}

  // Comparing ages compares which route was added first.
  ghost predicate AgesInOrder(ops: seq<Op>) {
    var m, born := History(ops).map_, Born(ops);
    forall k, l :: k in m && l in m && k in born && l in born ==> (m[k].sequence < m[l].sequence <==> born[k] < born[l])
  }

  lemma FewAdditionsKeepOrder(ops: seq<Op>)
    requires Additions(ops) < TWO32
    ensures AgesInOrder(ops) && DistinctAges(History(ops).map_)
  {
    hide History, Born, Additions, Number;
    HistoryAges(ops);
    var m, born := History(ops).map_, Born(ops);
    forall k | k in m ensures m[k].sequence == born[k] {
      SmallModulus(born[k]);
    }
  }

  lemma SmallModulus(n: nat)
    requires n < TWO32
    ensures Number(n) == n
  {}

  lemma StoreSize(m: map<Key, Route>, key: Key, r: Route)
    ensures |m[key := r]| == if key in m then |m| else |m| + 1
  {
    var m1 := m[key := r];
    assert m1.Keys == m.Keys + {key};
  }

  lemma SubsetSize(a: set<Key>, b: set<Key>)
    requires a <= b
    ensures |a| <= |b|
  {
    assert b == a + (b - a);
  }

  // The answer of a lookup after any history, whatever the slots look like: with fewer than 2^32
  // additions it is the longest match, then lowest distance, metric and age, over all stored routes,
  // and there is one exactly when some stored route covers the destination.
  lemma LookupAfterHistory(ops: seq<Op>, rib: seq<RibEntry>, dst: bv32)
    requires Additions(ops) < TWO32 && KeysOk(rib) && MapOf(rib) == History(ops).map_
    ensures forall i: nat :: BestMatch(rib, dst, i) ==> BestRoute(History(ops).map_, dst, KeyOf(rib[i]))
    ensures (exists k :: k in History(ops).map_ && Covers(k.net, dst)) <==>
              exists j :: 0 <= j < |rib| && Matches(rib[j], dst)
  {
    hide MapOf, Covers, History, Additions;
    FewAdditionsKeepOrder(ops);
    forall i: nat | BestMatch(rib, dst, i) ensures BestRoute(History(ops).map_, dst, KeyOf(rib[i])) {
      BestMatchIsBestRoute(rib, dst, i);
    }
    if k :| k in History(ops).map_ && Covers(k.net, dst) {
      var j :| 0 <= j < |rib| && rib[j].valid && KeyOf(rib[j]) == k;
      assert Matches(rib[j], dst);
    }
    if j :| 0 <= j < |rib| && Matches(rib[j], dst) {
      assert KeyOf(rib[j]) in MapOf(rib);
    }
  }

  // Two slot arrangements of the same history answer alike.
  lemma SlotOrderIsIrrelevant(ops: seq<Op>, rib: seq<RibEntry>, other: seq<RibEntry>, dst: bv32, i: nat, j: nat)
    requires Additions(ops) < TWO32 && KeysOk(rib) && KeysOk(other)
    requires MapOf(rib) == MapOf(other) == History(ops).map_
    requires BestMatch(rib, dst, i) && BestMatch(other, dst, j)
    ensures KeyOf(rib[i]) == KeyOf(other[j]) && RouteOf(rib[i]) == RouteOf(other[j])
  {
    LookupAfterHistory(ops, rib, dst);
    LookupAfterHistory(ops, other, dst);
    BestRouteIsUnique(History(ops).map_, dst, KeyOf(rib[i]), KeyOf(other[j]));
  }
}
