/** How far the ages of routes can be trusted: up to 2^32 - 1 additions, and no further. */
module RouteLimits {
  import opened Wrappers
  import opened Prefixes
  import opened RouteSpec
  import opened RouteHistory

  // Two protocols with the same administrative distance.
  function AddTo(proto: u8): Op {
    Op.Add(0, 0, 0, Some(0), 0, proto)
  }

  function Default(proto: u8): Key {
    Key(Normalized(0, 0), proto)
  }

  lemma OneMoreOp(ops: seq<Op>, op: Op)
    ensures var s, s1, n1 := History(ops), History(ops + [op]), Additions(ops + [op]);
            && s1 == Apply(s, op) && n1 == Additions(ops) + (if s1.nextSequence != s.nextSequence then 1 else 0)
            && Born(ops + [op]) == Next(Born(ops), s1.map_, n1)
  {
    assert (ops + [op])[..|ops|] == ops;
  }

  lemma NewRoute(s: Routes, proto: u8)
    requires Default(proto) !in s.map_ && |s.map_| < RIB_SIZE && proto != 0
    ensures var s1 := Apply(s, AddTo(proto));
            && s1.map_ == s.map_[Default(proto) := Route(0, Some(0), 0, s.nextSequence)]
            && s1.nextSequence == (s.nextSequence + 1) % TWO32
  {
    hide Normalized;
  }

  lemma AddAndDelete(s: Routes)
    requires Default(9) !in s.map_ && |s.map_| < RIB_SIZE
    ensures var s1 := Apply(s, AddTo(9));
            && s1.nextSequence == (s.nextSequence + 1) % TWO32
            && Apply(s1, Delete(0, 0, 9)) == Routes(s.map_, s1.nextSequence)
  {
    hide Normalized;
    NewRoute(s, 9);
    assert Apply(s, AddTo(9)).map_ - {Default(9)} == s.map_;
  }

  // Routes that come and go use up n sequence numbers and leave the stored routes as they are.
  lemma {:induction false} Cycles(ops: seq<Op>, n: nat) returns (longer: seq<Op>)
    requires Default(9) !in History(ops).map_ && |History(ops).map_| < RIB_SIZE
    ensures Additions(longer) == Additions(ops) + n
    ensures History(longer) == Routes(History(ops).map_, (History(ops).nextSequence + n) % TWO32)
  {
    hide History, Additions, Born, Normalized, Apply;
    if n == 0 {
      longer := ops;
    } else {
      var before := Cycles(ops, n - 1);
      var added := before + [AddTo(9)];
      longer := added + [Delete(0, 0, 9)];
      OneMoreOp(before, AddTo(9));
      OneMoreOp(added, Delete(0, 0, 9));
      AddAndDelete(History(before));
      OneFurther(History(ops).nextSequence, n - 1);
    }
  }

  lemma OneFurther(x: nat, n: nat)
    ensures ((x + n) % TWO32 + 1) % TWO32 == (x + n + 1) % TWO32 != (x + n) % TWO32
  {}

  // The addition before the last wrap has the greatest number, and the n-th one no greater.
  lemma LastBeforeWrap(n: nat) returns (j: nat)
    requires n >= TWO32
    ensures 1 <= j < n && j % TWO32 == TWO32 - 1 && (j + 1) % TWO32 == 0
    ensures (j + 1 + (n - 1 - j)) % TWO32 == n % TWO32
  {
    j := n - n % TWO32 - 1;
    var q := n / TWO32 - 1;
    assert j == TWO32 * q + (TWO32 - 1);
  }

  // One stored route, made by the j-th addition.
  lemma RouteOfAge(j: nat) returns (ops: seq<Op>)
    requires j > 0
    ensures Additions(ops) == j
    ensures History(ops) == Routes(map[Default(8) := Route(0, Some(0), 0, j % TWO32)], (j + 1) % TWO32)
  {
    hide History, Additions, Born, Normalized, Apply;
    NothingAdded();
    var start := Cycles([], j - 1);
    ops := start + [AddTo(8)];
    OneFurther(0, j);
    FirstDefault(start, j % TWO32, (j + 1) % TWO32);
  }

  lemma FirstDefault(start: seq<Op>, age: u32, next: u32)
    requires History(start) == Routes(map[], age) && next == (age + 1) % TWO32
    ensures Additions(start + [AddTo(8)]) == Additions(start) + 1
    ensures History(start + [AddTo(8)]) == Routes(map[Default(8) := Route(0, Some(0), 0, age)], next)
  {
    hide History, Additions, Born, Normalized, Apply;
    OneMoreOp(start, AddTo(8));
    NewRoute(History(start), 8);
  }

  // A route added just before the last wrap, and n - 1 additions in all.
  lemma OldRoute(n: nat) returns (ops: seq<Op>)
    requires n >= TWO32
    ensures Additions(ops) == n - 1
    ensures History(ops) == Routes(map[Default(8) := Route(0, Some(0), 0, TWO32 - 1)], n % TWO32)
  {
    hide History, Additions, Born, Normalized, Apply;
    var j := LastBeforeWrap(n);
    var first := RouteOfAge(j);
    SizeOfOne(History(first).map_, Default(8));
    ops := Cycles(first, n - 1 - j);
  }

  // The n-th addition is the younger route, but does not have the greater age.
  lemma OutOfOrder(n: nat) returns (ops: seq<Op>)
    requires n >= TWO32
    ensures Additions(ops) == n && !AgesInOrder(ops)
  {
    hide History, Additions, Born, Normalized, Apply;
    var before := OldRoute(n);
    SizeOfOne(History(before).map_, Default(8));
    HistoryAges(before);
    ops := before + [AddTo(9)];
    OneMoreOp(before, AddTo(9));
    NewRoute(History(before), 9);
    OneFurther(0, n);
    Youngest(ops, n);
  }

  lemma NothingAdded()
    ensures History([]) == Routes(map[], 1) && Additions([]) == 0
  {}

  lemma SizeOfOne(m: map<Key, Route>, k: Key)
    requires m.Keys == {k}
    ensures |m| == 1
  {
    assert |m.Keys| == 1;
  }

  lemma Youngest(ops: seq<Op>, n: nat)
    requires Additions(ops) == n && n > 0
    requires var m := History(ops).map_; Default(8) in m && Default(9) in m && m[Default(8)].sequence == TWO32 - 1
    requires Default(9) in Born(ops) && Born(ops)[Default(9)] == n
    ensures !AgesInOrder(ops)
  {
    hide History, Additions, Born, Normalized;
    HistoryAges(ops);
    var m, born := History(ops).map_, Born(ops);
    assert born[Default(8)] < born[Default(9)];
    assert !(m[Default(8)].sequence < m[Default(9)].sequence);
  }

  // The bound is sharp: every history of n additions keeps ages in the order of the additions if and
  // only if n is less than 2^32.
  lemma OrderIffFewAdditions(n: nat)
    ensures (forall ops :: Additions(ops) == n ==> AgesInOrder(ops)) <==> n < TWO32
  {
    hide Additions, AgesInOrder;
    if n < TWO32 {
      forall ops | Additions(ops) == n ensures AgesInOrder(ops) {
        FewAdditionsKeepOrder(ops);
      }
    } else {
      var ops := OutOfOrder(n);
    }
  }

  lemma EqualAges() returns (ops: seq<Op>)
    ensures Additions(ops) == TWO32 + 1
    ensures History(ops).map_ == map[Default(8) := Route(0, Some(0), 0, 1), Default(9) := Route(0, Some(0), 0, 1)]
  {
    hide History, Additions, Born, Normalized, Apply;
    var first := RouteOfAge(1);
    SizeOfOne(History(first).map_, Default(8));
    var before := Cycles(first, TWO32 - 1);
    ops := before + [AddTo(9)];
    SecondDefault(before);
  }

  lemma SecondDefault(before: seq<Op>)
    requires History(before) == Routes(map[Default(8) := Route(0, Some(0), 0, 1)], 1)
    ensures Additions(before + [AddTo(9)]) == Additions(before) + 1
    ensures History(before + [AddTo(9)]).map_
            == map[Default(8) := Route(0, Some(0), 0, 1), Default(9) := Route(0, Some(0), 0, 1)]
  {
    hide History, Additions, Born, Normalized, Apply;
    SizeOfOne(History(before).map_, Default(8));
    OneMoreOp(before, AddTo(9));
    NewRoute(History(before), 9);
  }

  // After 2^32 + 1 additions two default routes may both have age 1, so that neither beats the other:
  // a lookup finds a match, but only slots decide which.
  lemma WrappedAgesTie() returns (ops: seq<Op>)
    ensures var m := History(ops).map_;
            && Default(8) in m && Default(9) in m && m[Default(8)].sequence == m[Default(9)].sequence
            && forall k :: !BestRoute(m, 0, k)
  {
    hide History, Normalized, BestRoute;
    ops := EqualAges();
    TieHasNoBest(Route(0, Some(0), 0, 1));
  }

  lemma TieHasNoBest(r: Route)
    ensures forall k :: !BestRoute(map[Default(8) := r, Default(9) := r], 0, k)
  {
    hide Normalized;
    CoversItself(0, 0);
    assert Covers(Default(8).net, 0) && Covers(Default(9).net, 0);
  }

  lemma CoversItself(prefix: bv32, len: u8)
    ensures Covers(Normalized(prefix, len), prefix)
  {}
}
