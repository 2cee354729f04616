/** What the routing table of src/routing/route_table.c has to compute: the preference order among
    candidate routes, the forwarding table that a candidate table determines, and the best match. */
module RouteSpec {
  import opened Prefixes
  import opened Slots
  import opened Wrappers

  const RIB_SIZE := 256
  const FIB_SIZE := 256

  type u32 = Bytes.u32

  // An interface is an identity; None is the null pointer.
  type Iface = Option<nat>

  datatype RibEntry = RibEntry(net: Net, proto: u8, valid: bool, selected: bool,
                               nextHop: u32, iface: Iface, metric: u32, sequence: u32)

  datatype FibEntry = FibEntry(net: Net, proto: u8, valid: bool,
                               nextHop: u32, iface: Iface, metric: u32, ribIndex: nat)

  const NO_RIB_ENTRY := RibEntry(Net(0, 0), 0, false, false, 0, None, 0, 0)
  const NO_FIB_ENTRY := FibEntry(Net(0, 0), 0, false, 0, None, 0, 0)

  function AdminDistance(proto: u8): nat {
    match proto
    case 2 => 0     // directly connected
    case 1 => 1     // static
    case 5 => 20    // BGP
    case 6 => 90    // EIGRP
    case 4 => 110   // OSPF
    case 7 => 115   // IS-IS
    case 3 => 120   // RIP
    case _ => 255
  }

  // ---- preference among candidates ----

  // Lower administrative distance, then lower metric, then older; the slot decides the rest.
  predicate Preferred(rib: seq<RibEntry>, i: nat, j: nat)
    requires i < |rib| && j < |rib|
  {
    var d, e := AdminDistance(rib[i].proto), AdminDistance(rib[j].proto);
    d < e || (d == e && (rib[i].metric < rib[j].metric || (rib[i].metric == rib[j].metric &&
      (rib[i].sequence < rib[j].sequence || (rib[i].sequence == rib[j].sequence && i < j)))))
  }

  // i is the best of the first n candidates for its network.
  ghost predicate BestOf(rib: seq<RibEntry>, n: nat, i: nat)
    requires n <= |rib|
  {
    && i < n && rib[i].valid
    && forall j :: 0 <= j < n && rib[j].valid && rib[i].net == rib[j].net && j != i ==> Preferred(rib, i, j)
  }

  // ---- the forwarding table of a candidate table ----

  function FibEntryOf(rib: seq<RibEntry>, i: nat): FibEntry
    requires i < |rib|
  {
    var e := rib[i];
    FibEntry(e.net, e.proto, true, e.nextHop, e.iface, e.metric, i)
  }

  // fib holds, packed in its first m slots, one copy of the best candidate of every network that
  // occurs among the first n candidates.
  ghost predicate FibOf(rib: seq<RibEntry>, n: nat, fib: seq<FibEntry>, m: nat) {
    && n <= |rib| && m <= |fib|
    && (forall k :: m <= k < |fib| ==> !fib[k].valid)
    && (forall k :: 0 <= k < m ==> BestOf(rib, n, fib[k].ribIndex) && fib[k] == FibEntryOf(rib, fib[k].ribIndex))
    && (forall k, l :: 0 <= k < l < m ==> fib[k].net != fib[l].net)
    && (forall i :: 0 <= i < n && rib[i].valid ==> HasFib(fib, m, rib[i].net))
  }

  ghost predicate HasFib(fib: seq<FibEntry>, m: nat, net: Net)
    requires m <= |fib|
  {
    exists k :: 0 <= k < m && fib[k].net == net
  }

  // Exactly the installed candidates carry the selected mark.
  ghost predicate MarksOf(rib: seq<RibEntry>, fib: seq<FibEntry>, m: nat)
    requires m <= |fib|
  {
    forall i :: 0 <= i < |rib| ==> (rib[i].selected <==> exists k :: 0 <= k < m && fib[k].ribIndex == i)
  }

  function Used(): RibEntry -> bool {
    (e: RibEntry) => e.valid
  }

  function CountValid(rib: seq<RibEntry>): nat {
    Count(rib, Used())
  }

  // The candidates without their selected marks, which preference does not look at.
  function Plain(rib: seq<RibEntry>): (r: seq<RibEntry>)
    ensures |r| == |rib| && forall i :: 0 <= i < |rib| ==> r[i] == rib[i].(selected := false)
  {
    seq(|rib|, i requires 0 <= i < |rib| => rib[i].(selected := false))
  }

  lemma {:induction false} CountPlain(rib: seq<RibEntry>, plain: seq<RibEntry>)
    requires |plain| == |rib| && forall i :: 0 <= i < |rib| ==> plain[i].valid == rib[i].valid
    ensures CountValid(plain) == CountValid(rib)
  {
    if rib != [] {
      CountPlain(rib[..|rib| - 1], plain[..|rib| - 1]);
    }
  }

  // RIB and FIB agree.
  ghost predicate Coherent(rib: seq<RibEntry>, fib: seq<FibEntry>, m: nat) {
    FibOf(Plain(rib), |rib|, fib, m) && MarksOf(rib, fib, m) && m <= CountValid(rib)
  }

  // ---- one more candidate ----

  lemma PreferredIsTotalOrder(rib: seq<RibEntry>, i: nat, j: nat, k: nat)
    requires i < |rib| && j < |rib| && k < |rib|
    ensures !Preferred(rib, i, i)
    ensures i != j ==> Preferred(rib, i, j) || Preferred(rib, j, i)
    ensures Preferred(rib, i, j) && Preferred(rib, j, k) ==> Preferred(rib, i, k)
  {}

  lemma EmptyFib(rib: seq<RibEntry>, plain: seq<RibEntry>, fib: seq<FibEntry>)
    requires forall k :: 0 <= k < |fib| ==> !fib[k].valid
    requires forall i :: 0 <= i < |rib| ==> !rib[i].selected
    ensures FibOf(plain, 0, fib, 0) && MarksOf(rib, fib, 0)
  {}

  lemma FibIsPacked(rib: seq<RibEntry>, n: nat, fib: seq<FibEntry>, m: nat)
    requires FibOf(rib, n, fib, m)
    ensures m <= |fib| && forall k :: 0 <= k < |fib| ==> fib[k].valid == (k < m)
  {}

  // Candidate n loses against the installed one.
  lemma KeepInstalled(rib: seq<RibEntry>, n: nat, fib: seq<FibEntry>, m: nat, k: nat)
    requires FibOf(rib, n, fib, m) && n < |rib| && rib[n].valid && k < m && fib[k].net == rib[n].net
    requires Preferred(rib, fib[k].ribIndex, n)
    ensures FibOf(rib, n + 1, fib, m)
  {
    assert HasFib(fib, m, rib[n].net);
  }

  // Candidate n takes over its network.
  lemma TakeOver(rib: seq<RibEntry>, n: nat, fib: seq<FibEntry>, m: nat, k: nat)
    requires FibOf(rib, n, fib, m) && n < |rib| && rib[n].valid && k < m && fib[k].net == rib[n].net
    requires Preferred(rib, n, fib[k].ribIndex)
    ensures FibOf(rib, n + 1, fib[k := FibEntryOf(rib, n)], m)
  {
    var fib1, c := fib[k := FibEntryOf(rib, n)], fib[k].ribIndex;
    forall j | 0 <= j < n && rib[j].valid && rib[n].net == rib[j].net
      ensures Preferred(rib, n, j)
    {
      PreferredIsTotalOrder(rib, n, c, j);
    }
    assert BestOf(rib, n + 1, n);
    forall l | 0 <= l < m && l != k
      ensures BestOf(rib, n + 1, fib[l].ribIndex)
    {
      assert BestOf(rib, n, fib[l].ribIndex);
      assert rib[fib[l].ribIndex].net != rib[n].net;
    }
    forall i | 0 <= i < n + 1 && rib[i].valid
      ensures HasFib(fib1, m, rib[i].net)
    {
      if i == n {
        assert fib1[k].net == rib[i].net;
      } else {
        assert HasFib(fib, m, rib[i].net);
        var l :| 0 <= l < m && fib[l].net == rib[i].net;
        assert fib1[l].net == rib[i].net;
      }
    }
  }

  // Candidate n opens a new network.
  lemma NewNetwork(rib: seq<RibEntry>, n: nat, fib: seq<FibEntry>, m: nat)
    requires FibOf(rib, n, fib, m) && n < |rib| && rib[n].valid && m < |fib|
    requires forall k :: 0 <= k < m ==> fib[k].net != rib[n].net
    ensures FibOf(rib, n + 1, fib[m := FibEntryOf(rib, n)], m + 1)
  {
    var fib1 := fib[m := FibEntryOf(rib, n)];
    forall j | 0 <= j < n && rib[j].valid ensures rib[n].net != rib[j].net {
      assert HasFib(fib, m, rib[j].net);
    }
    assert BestOf(rib, n + 1, n);
    forall l | 0 <= l < m
      ensures BestOf(rib, n + 1, fib[l].ribIndex)
    {
      assert BestOf(rib, n, fib[l].ribIndex);
      assert fib[l].net != rib[n].net;
    }
    forall i | 0 <= i < n + 1 && rib[i].valid
      ensures HasFib(fib1, m + 1, rib[i].net)
    {
      if i == n {
        assert fib1[m].net == rib[i].net;
      } else {
        assert HasFib(fib, m, rib[i].net);
        var l :| 0 <= l < m && fib[l].net == rib[i].net;
        assert fib1[l].net == rib[i].net;
      }
    }
  }

  lemma SkipUnused(rib: seq<RibEntry>, n: nat, fib: seq<FibEntry>, m: nat)
    requires FibOf(rib, n, fib, m) && n < |rib| && !rib[n].valid
    ensures FibOf(rib, n + 1, fib, m)
  {}

  lemma MoveMark(rib: seq<RibEntry>, fib: seq<FibEntry>, m: nat, k: nat, i: nat)
    requires m <= |fib| && k < m && i < |rib| && MarksOf(rib, fib, m) && !rib[i].selected && fib[k].ribIndex < |rib|
    requires forall l :: 0 <= l < m && l != k ==> fib[l].ribIndex != fib[k].ribIndex
    ensures var c := fib[k].ribIndex;
            MarksOf(rib[c := rib[c].(selected := false)][i := rib[i].(selected := true)],
                    fib[k := FibEntryOf(rib, i)], m)
  {
    var c := fib[k].ribIndex;
    var rib1, fib1 := rib[c := rib[c].(selected := false)][i := rib[i].(selected := true)],
      fib[k := FibEntryOf(rib, i)];
    assert fib1[k].ribIndex == i;
    forall j | 0 <= j < |rib| && rib1[j].selected && j != i
      ensures exists l :: 0 <= l < m && fib1[l].ribIndex == j
    {
      var l :| 0 <= l < m && fib[l].ribIndex == j;
      assert fib1[l].ribIndex == j;
    }
  }

  lemma AddMark(rib: seq<RibEntry>, fib: seq<FibEntry>, m: nat, i: nat)
    requires m < |fib| && i < |rib| && MarksOf(rib, fib, m)
    ensures MarksOf(rib[i := rib[i].(selected := true)], fib[m := FibEntryOf(rib, i)], m + 1)
  {
    var rib1, fib1 := rib[i := rib[i].(selected := true)], fib[m := FibEntryOf(rib, i)];
    assert fib1[m].ribIndex == i;
    forall j | 0 <= j < |rib| && rib1[j].selected && j != i
      ensures exists l :: 0 <= l < m + 1 && fib1[l].ribIndex == j
    {
      var l :| 0 <= l < m && fib[l].ribIndex == j;
      assert fib1[l].ribIndex == j;
    }
  }

  // ---- best match for a destination ----

  predicate Matches(e: RibEntry, dst: bv32) {
    e.valid && Covers(e.net, dst)
  }

  // Longest prefix first, then preference.
  ghost predicate BestMatch(rib: seq<RibEntry>, dst: bv32, i: nat) {
    && i < |rib| && Matches(rib[i], dst)
    && forall j :: 0 <= j < |rib| && Matches(rib[j], dst) && j != i ==>
         rib[j].net.len < rib[i].net.len || (rib[j].net.len == rib[i].net.len && Preferred(rib, i, j))
  }

  // Scanning the FIB for the longest cover finds the best match of the whole RIB.
  lemma LongestIsBest(rib: seq<RibEntry>, fib: seq<FibEntry>, m: nat, dst: bv32, k: nat)
    requires Coherent(rib, fib, m) && k < m && Covers(fib[k].net, dst)
    requires forall l :: 0 <= l < m && Covers(fib[l].net, dst) ==> fib[l].net.len <= fib[k].net.len
    ensures fib[k].ribIndex < |rib| && BestMatch(rib, dst, fib[k].ribIndex)
            && fib[k] == FibEntryOf(rib, fib[k].ribIndex)
  {
    var plain, i := Plain(rib), fib[k].ribIndex;
    assert BestOf(plain, |rib|, i);
    forall j | 0 <= j < |rib| && Matches(rib[j], dst) && j != i
      ensures rib[j].net.len < rib[i].net.len || (rib[j].net.len == rib[i].net.len && Preferred(rib, i, j))
    {
      assert plain[j].valid && HasFib(fib, m, plain[j].net);
      var l :| 0 <= l < m && fib[l].net == rib[j].net;
      if rib[j].net.len == rib[i].net.len {
        assert rib[j].net == rib[i].net;
        assert Preferred(plain, i, j);
      }
    }
  }

  lemma NoneMatches(rib: seq<RibEntry>, fib: seq<FibEntry>, m: nat, dst: bv32)
    requires Coherent(rib, fib, m)
    requires forall l :: 0 <= l < m ==> !Covers(fib[l].net, dst)
    ensures forall j :: 0 <= j < |rib| ==> !Matches(rib[j], dst)
  {
    forall j | 0 <= j < |rib| && rib[j].valid ensures !Covers(rib[j].net, dst) {
      assert HasFib(fib, m, Plain(rib)[j].net);
    }
  }
}
