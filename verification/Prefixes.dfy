/** Networks as prefixes: the masks of src/routing/route_table.c (src/protocols/ip.c has the same
    function), and why the longest match is the innermost network. */
module Prefixes {
  import Bytes

  type u8 = Bytes.byte

  // A network: the fields prefix and prefix_len of an entry.
  datatype Net = Net(prefix: bv32, len: u8)

  function OnesAbove(shift: nat): bv32
    requires shift < 32
  {
    0xFFFF_FFFF << shift
  }

  // route_prefix_mask, ip_prefix_mask
  function PrefixMask(prefixLen: u8): bv32 {
    if prefixLen == 0 then 0
    else if prefixLen >= 32 then 0xFFFF_FFFF
    else OnesAbove(32 - prefixLen)
  }

  function And(x: bv32, m: bv32): bv32 {
    x & m
  }

  function Masked(x: bv32, len: u8): bv32 {
    And(x, PrefixMask(len))
  }

  predicate Covers(net: Net, dst: bv32) {
    Masked(dst, net.len) == net.prefix
  }

  ghost predicate Inside(inner: Net, outer: Net) {
    forall x: bv32 :: Covers(inner, x) ==> Covers(outer, x)
  }

  // ---- masks as bit patterns ----

  function Twice(x: bv32): bv32 {
    x << 1
  }

  // The zero bits of a mask are the lowest 32 - len: a network is a block of 2^(32 - len) addresses.
  lemma BlockSize(len: u8)
    requires 0 < len <= 32
    ensures !PrefixMask(len) == ((1 as bv32) << (32 - len)) - 1
  {}

  // Every bit of mask s is one of mask m.
  ghost predicate Within(s: bv32, m: bv32) {
    m & s == s
  }

  // The shift distance as a machine number, which the solver handles best in few bits.
  function Distance(shift: nat): bv6
    requires shift < 32
  {
    shift as bv6
  }

  function Ones(distance: bv6): bv32
    requires distance < 32
  {
    0xFFFF_FFFF << distance
  }

  lemma NextDistance(shift: nat)
    requires shift < 31
    ensures Distance(shift) < 31 && Distance(shift + 1) == Distance(shift) + 1
  {
    var distance := Distance(shift);
    assert distance as nat == shift;
    assert (distance + 1) as nat == shift + 1;
  }

  lemma OnesByDistance(shift: nat)
    requires shift < 32
    ensures Distance(shift) < 32 && OnesAbove(shift) == Ones(Distance(shift))
  {}

  lemma NextOnes(distance: bv6)
    requires distance < 31
    ensures Ones(distance + 1) == Twice(Ones(distance)) && Within(Ones(distance + 1), Ones(distance))
  {}

  lemma OnesInSteps(shift: nat)
    requires shift < 31
    ensures OnesAbove(shift + 1) == Twice(OnesAbove(shift)) && Within(OnesAbove(shift + 1), OnesAbove(shift))
  {
    hide *;
    NextDistance(shift);
    OnesByDistance(shift);
    OnesByDistance(shift + 1);
    NextOnes(Distance(shift));
  }

  lemma MaskEnds(m: bv32)
    ensures Within(0, m) && Within(m, 0xFFFF_FFFF)
  {}

  lemma NextMask(len: u8)
    requires len < 255
    ensures Within(PrefixMask(len), PrefixMask(len + 1))
  {
    hide OnesAbove, Within;
    MaskEnds(PrefixMask(len));
    MaskEnds(PrefixMask(len + 1));
    if 0 < len < 31 {
      OnesInSteps(31 - len);
    }
  }

  lemma WithinIsOrder(s: bv32, m: bv32, l: bv32)
    ensures Within(s, s)
    ensures Within(s, m) && Within(m, l) ==> Within(s, l)
  {}

  lemma AndTwice(x: bv32, m: bv32, s: bv32)
    requires Within(s, m)
    ensures And(And(x, m), s) == And(x, s)
  {}

  lemma {:induction false} MasksAreNested(long: u8, short: u8)
    requires short <= long
    ensures Within(PrefixMask(short), PrefixMask(long))
    decreases long
  {
    hide PrefixMask, Within;
    if short < long {
      MasksAreNested(long - 1, short);
      NextMask(long - 1);
      WithinIsOrder(PrefixMask(short), PrefixMask(long - 1), PrefixMask(long));
    } else {
      WithinIsOrder(PrefixMask(short), PrefixMask(short), PrefixMask(short));
    }
  }

  // ---- networks ----

  // Masking with the longer mask first changes nothing.
  lemma MaskedTwice(x: bv32, long: u8, short: u8)
    requires short <= long
    ensures Masked(Masked(x, long), short) == Masked(x, short)
  {
    hide PrefixMask, Within, And;
    MasksAreNested(long, short);
    AndTwice(x, PrefixMask(long), PrefixMask(short));
  }

  // Of two networks that share an address the longer lies inside the shorter.
  lemma LongerIsInside(inner: Net, outer: Net, shared: bv32)
    requires outer.len <= inner.len && Covers(inner, shared) && Covers(outer, shared)
    ensures Inside(inner, outer)
  {
    hide Masked;
    forall x: bv32 | Covers(inner, x) ensures Covers(outer, x) {
      MaskedTwice(x, inner.len, outer.len);
      MaskedTwice(shared, inner.len, outer.len);
    }
  }

  // ---- which addresses a network covers ----

  function Half(x: bv32): bv32 {
    x >> 1
  }

  // What is left of an address after its lowest bits are dropped, one by one.
  function UpperBits(x: bv32, lowest: nat): bv32
    decreases lowest
  {
    if lowest == 0 then x else UpperBits(Half(x), lowest - 1)
  }

  lemma AndInSteps(x: bv32, m: bv32)
    ensures And(x, Twice(m)) == Twice(And(Half(x), m)) && Half(And(x, Twice(m))) == And(Half(x), m)
  {}

  lemma NothingLost(x: bv32)
    ensures And(x, OnesAbove(0)) == x && And(x, 0) == 0 && And(x, 0xFFFF_FFFF) == x
  {}

  lemma {:induction false} SameUpperBits(x: bv32, y: bv32, shift: nat)
    requires shift < 32
    ensures And(x, OnesAbove(shift)) == And(y, OnesAbove(shift)) <==> UpperBits(x, shift) == UpperBits(y, shift)
    decreases shift
  {
    hide And, OnesAbove, Half, Twice;
    if shift == 0 {
      NothingLost(x);
      NothingLost(y);
    } else {
      OnesInSteps(shift - 1);
      AndInSteps(x, OnesAbove(shift - 1));
      AndInSteps(y, OnesAbove(shift - 1));
      SameUpperBits(Half(x), Half(y), shift - 1);
    }
  }

  // The network of an address covers exactly the addresses that have the same first len bits: every
  // address when len is 0, and that address alone when len is 32.
  lemma CoversSameBits(x: bv32, y: bv32, len: u8)
    requires len <= 32
    ensures Covers(Net(Masked(x, len), len), y) <==> len == 0 || UpperBits(x, 32 - len) == UpperBits(y, 32 - len)
    ensures len == 32 ==> (Covers(Net(Masked(x, len), len), y) <==> x == y)
  {
    hide And, OnesAbove, Half;
    NothingLost(x);
    NothingLost(y);
    if 0 < len < 32 {
      SameUpperBits(x, y, 32 - len);
    }
  }
}
