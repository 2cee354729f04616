/** The three Internet checksum loops: packet_checksum (src/network/packet.c) adds words as a
    little-endian host reads them, icmp_checksum (src/protocols/icmp.c) and ip_checksum
    (src/protocols/ip.c) swap them to network order and swap the result back. Section 2(B) of
    RFC 1071 says why both give the same bytes. */
module Checksum {
  import opened Bytes

  // From this length on, the 32-bit running sum can overflow: 65537 words of 0xFFFF are 2^32 - 1.
  const SAFE_LENGTH := 2 * 65537

  function Word(low: byte, high: byte): u16 {
    var l: int, h: int := low, high;
    l + 256 * h
  }

  // The word at position k of the data as a little-endian host reads it; a last odd byte stands alone.
  function HostWord(data: seq<byte>, k: nat): u16
    requires 2 * k < |data|
  {
    Word(data[2 * k], if 2 * k + 1 < |data| then data[2 * k + 1] else 0)
  }

  function NetWord(data: seq<byte>, k: nat): u16
    requires 2 * k < |data|
  {
    Word(if 2 * k + 1 < |data| then data[2 * k + 1] else 0, data[2 * k])
  }

  lemma SwappedWord(data: seq<byte>, k: nat)
    requires 2 * k + 1 < |data|
    ensures Swap16(HostWord(data, k)) == NetWord(data, k)
  {}

  lemma LastWord(data: seq<byte>)
    requires |data| % 2 == 1
    ensures var last: int := data[|data| - 1];
            NetWord(data, |data| / 2) == 256 * last && HostWord(data, |data| / 2) == last
  {}

  function Words(data: seq<byte>): nat {
    (|data| + 1) / 2
  }

  // Plain sums over the first k words.
  function HostSum(data: seq<byte>, k: nat): nat
    requires k <= Words(data)
  {
    if k == 0 then 0 else HostSum(data, k - 1) + HostWord(data, k - 1)
  }

  function NetSum(data: seq<byte>, k: nat): nat
    requires k <= Words(data)
  {
    if k == 0 then 0 else NetSum(data, k - 1) + NetWord(data, k - 1)
  }

  lemma {:induction false} SumBounds(data: seq<byte>, k: nat)
    requires k <= Words(data)
    ensures HostSum(data, k) <= 65535 * k && NetSum(data, k) <= 65535 * k
    ensures HostSum(data, k) == 0 <==> NetSum(data, k) == 0
  {
    if k > 0 {
      SumBounds(data, k - 1);
    }
  }

  lemma AddMod(sum: nat, w: nat)
    ensures (sum % TWO32 + w) % TWO32 == (sum + w) % TWO32
  {
    var q := sum / TWO32;
    assert sum + w == sum % TWO32 + w + TWO32 * q;
    Multiple(sum % TWO32 + w, q);
  }

  lemma Multiple(a: nat, q: nat)
    ensures (a + TWO32 * q) % TWO32 == a % TWO32
  {}

  // ---- folding ----

  // One's complement sum of 16-bit words: the residue mod 65535, with 65535 standing for a
  // non-zero multiple.
  function Folded(sum: nat): u16 {
    if sum == 0 then 0 else if sum % 65535 == 0 then 65535 else sum % 65535
  }

  // Carrying the upper half into the lower keeps the one's complement sum.
  lemma CarryKeepsFolded(sum: nat)
    ensures Folded(sum % 0x1_0000 + sum / 0x1_0000) == Folded(sum)
    ensures sum >= 0x1_0000 ==> sum % 0x1_0000 + sum / 0x1_0000 < sum
  {
    var carried := sum % 0x1_0000 + sum / 0x1_0000;
    assert sum == carried + 65535 * (sum / 0x1_0000);
    Residue(carried, sum / 0x1_0000);
  }

  lemma Residue(a: nat, q: nat)
    ensures (a + 65535 * q) % 65535 == a % 65535
  {}

  method Fold(start: u32) returns (sum: u16)
    ensures sum == Folded(start)
  {
    var s := start;
    while s / 0x1_0000 != 0
      invariant 0 <= s < TWO32 && Folded(s) == Folded(start)
      decreases s
    {
      CarryKeepsFolded(s);
      s := s % 0x1_0000 + s / 0x1_0000;
    }
    sum := s;
  }

  // ---- the loops ----

  function HostChecksum(data: seq<byte>): u16 {
    65535 - Folded(HostSum(data, Words(data)) % TWO32)
  }

  function NetChecksum(data: seq<byte>): u16 {
    Swap16(65535 - Folded(NetSum(data, Words(data)) % TWO32))
  }

  lemma SumStep(data: seq<byte>, k: nat)
    requires k < Words(data)
    ensures HostSum(data, k + 1) == HostSum(data, k) + HostWord(data, k)
    ensures NetSum(data, k + 1) == NetSum(data, k) + NetWord(data, k)
  {}

  // The same step on 32-bit sums.
  lemma NetStep(data: seq<byte>, k: nat)
    requires k < Words(data)
    ensures NetSum(data, k + 1) % TWO32 == (NetSum(data, k) % TWO32 + NetWord(data, k)) % TWO32
    ensures NetSum(data, 0) == 0
  {
    AddMod(NetSum(data, k), NetWord(data, k));
  }

  lemma HostStep(data: seq<byte>, k: nat)
    requires k < Words(data)
    ensures HostSum(data, k + 1) % TWO32 == (HostSum(data, k) % TWO32 + HostWord(data, k)) % TWO32
  {
    AddMod(HostSum(data, k), HostWord(data, k));
  }

  // packet_checksum
  method PacketChecksum(data: seq<byte>) returns (checksum: u16)
    ensures checksum == HostChecksum(data)
  {
    var sum: u32, len, k := 0, |data|, 0;
    assert sum == HostSum(data, 0);
    hide HostSum, HostWord, Folded;
    while len > 1
      invariant 0 <= len <= |data| && len == |data| - 2 * k && 0 <= k
      invariant sum == HostSum(data, k) % TWO32
    {
      HostStep(data, k);
      sum := (sum + HostWord(data, k)) % TWO32;
      k := k + 1;
      len := len - 2;
    }
    if len == 1 {
      HostStep(data, k);
      LastWord(data);
      var last: int := data[2 * k];
      sum := (sum + last) % TWO32;
      k := k + 1;
    }
    var folded := Fold(sum);
    checksum := 65535 - folded;
  }

  // icmp_checksum
  method IcmpChecksum(data: seq<byte>) returns (checksum: u16)
    ensures checksum == NetChecksum(data)
  {
    if |data| == 0 {
      return 0xFFFF;
    }
    hide Swap16, HostWord, NetSum, NetWord, Folded;
    NetStep(data, 0);
    var sum: u32 := 0;
    for i := 0 to |data| / 2
      invariant sum == NetSum(data, i) % TWO32
    {
      NetStep(data, i);
      SwappedWord(data, i);
      sum := (sum + Swap16(HostWord(data, i))) % TWO32;
    }
    if |data| % 2 == 1 {
      NetStep(data, |data| / 2);
      LastWord(data);
      var last: int := data[|data| - 1];
      sum := (sum + last * 256) % TWO32;
    }
    var folded := Fold(sum);
    checksum := Swap16(65535 - folded);
  }

  // ip_checksum over the ten words of a header.
  method IpChecksum(header: seq<byte>) returns (checksum: u16)
    requires |header| == 20
    ensures checksum == NetChecksum(header)
  {
    var sum: u32 := 0;
    for i := 0 to 10
      invariant sum == NetSum(header, i) % TWO32
    {
      AddMod(NetSum(header, i), NetWord(header, i));
      SwappedWord(header, i);
      sum := (sum + Swap16(HostWord(header, i))) % TWO32;
    }
    var folded := Fold(sum);
    checksum := Swap16(65535 - folded);
  }

  // ---- byte order independence ----

  // 256 times the network-order sum is the host-order sum, mod 65535.
  lemma {:induction false} SumsAgree(data: seq<byte>, k: nat) returns (q: nat)
    requires k <= Words(data)
    ensures 256 * NetSum(data, k) == HostSum(data, k) + 65535 * q
  {
    if k == 0 {
      q := 0;
    } else {
      q := SumsAgree(data, k - 1);
      q := q + data[2 * k - 2];
    }
  }

  lemma SwapIsTimes256(x: u16)
    ensures 256 * x == Swap16(x) + 65535 * (x / 256)
    ensures Swap16(65535 - x) == 65535 - Swap16(x)
    ensures Swap16(x) == 0 <==> x == 0
  {}

  lemma FoldedSplit(sum: nat) returns (q: nat)
    ensures sum == Folded(sum) + 65535 * q
  {
    q := (sum - Folded(sum)) / 65535;
  }

  lemma SameResidue(a: u16, b: u16, p: nat, q: nat)
    requires a + 65535 * p == b + 65535 * q && (a == 0 <==> b == 0)
    ensures a == b
  {}

  lemma SwappedSum(host: nat, net: nat, q: nat)
    requires 256 * net == host + 65535 * q && (host == 0 <==> net == 0)
    ensures Swap16(Folded(net)) == Folded(host)
  {
    var f, g := Folded(net), Folded(host);
    var m := FoldedSplit(net);
    var n := FoldedSplit(host);
    SwapIsTimes256(f);
    SameResidue(Swap16(f), g, f / 256 + 256 * m, n + q);
  }

  // packet_checksum and icmp_checksum return the same value for every data that cannot overflow the
  // 32-bit sum, odd lengths included.
  lemma ChecksumsAgree(data: seq<byte>)
    requires |data| <= SAFE_LENGTH
    ensures HostChecksum(data) == NetChecksum(data)
  {
    hide Folded, HostSum, NetSum, Swap16;
    var k := Words(data);
    var host, net := HostSum(data, k), NetSum(data, k);
    SumBounds(data, k);
    assert host < TWO32 && net < TWO32;
    var q := SumsAgree(data, k);
    SwappedSum(host, net, q);
    SwapIsTimes256(Folded(net));
  }

  // Ones up to SAFE_LENGTH, then a single one, then zeros: the host-order sum is exactly 2^32.
  function Overflowing(n: nat): (data: seq<byte>)
    ensures |data| == n
  {
    seq(n, i => if i < SAFE_LENGTH then 255 else if i == SAFE_LENGTH then 1 else 0)
  }

  lemma {:induction false} SumsOfOverflowing(n: nat, k: nat)
    requires SAFE_LENGTH < n && 65538 <= k <= Words(Overflowing(n))
    ensures HostSum(Overflowing(n), k) == 65535 * 65537 + 1
    ensures NetSum(Overflowing(n), k) == 65535 * 65537 + 256
  {
    hide HostSum, NetSum;
    var data := Overflowing(n);
    SumStep(data, k - 1);
    if k == 65538 {
      AllOnes(data, 65537);
    } else {
      SumsOfOverflowing(n, k - 1);
    }
  }

  lemma LongerDataDisagrees(n: nat)
    requires n > SAFE_LENGTH
    ensures HostChecksum(Overflowing(n)) == 65535 && NetChecksum(Overflowing(n)) == 255
  {
    hide HostSum, NetSum;
    SumsOfOverflowing(n, Words(Overflowing(n)));
    assert (65535 * 65537 + 1) % TWO32 == 0 && (65535 * 65537 + 256) % TWO32 == 255;
    assert Folded(0) == 0 && Folded(255) == 255;
  }

  // The bound is sharp: the two functions agree on all data of a length exactly up to SAFE_LENGTH.
  lemma AgreeIffShort(n: nat)
    ensures (forall data: seq<byte> :: |data| == n ==> HostChecksum(data) == NetChecksum(data)) <==> n <= SAFE_LENGTH
  {
    hide HostChecksum, NetChecksum;
    if n <= SAFE_LENGTH {
      forall data: seq<byte> | |data| == n ensures HostChecksum(data) == NetChecksum(data) {
        ChecksumsAgree(data);
      }
    } else {
      LongerDataDisagrees(n);
      assert |Overflowing(n)| == n;
    }
  }

  lemma {:induction false} AllOnes(data: seq<byte>, k: nat)
    requires k <= |data| / 2 && forall i :: 0 <= i < 2 * k ==> data[i] == 255
    ensures HostSum(data, k) == 65535 * k && NetSum(data, k) == 65535 * k
  {
    if k > 0 {
      AllOnes(data, k - 1);
    }
  }

  // ---- storing a checksum makes the data verify ----

  // The two bytes that writing the 16-bit value c at word i leaves in memory.
  function StoreWord(data: seq<byte>, i: nat, c: u16): (r: seq<byte>)
    requires 2 * i + 1 < |data|
    ensures |r| == |data| && HostWord(r, i) == c
  {
    data[2 * i := c % 256][2 * i + 1 := c / 256]
  }

  lemma {:induction false} SumAfterStore(data: seq<byte>, i: nat, c: u16, k: nat)
    requires 2 * i + 1 < |data| && k <= Words(data)
    ensures NetSum(StoreWord(data, i, c), k) == NetSum(data, k) + (if i < k then Swap16(c) - NetWord(data, i) else 0)
  {
    if k > 0 {
      SumAfterStore(data, i, c, k - 1);
      if k - 1 == i {
        SwappedWord(StoreWord(data, i, c), i);
      } else {
        assert NetWord(StoreWord(data, i, c), k - 1) == NetWord(data, k - 1);
      }
    }
  }

  // A message whose checksum field is zero verifies to 0 once its checksum is stored there, for a
  // field at any even offset: this is how IP and ICMP write and check their headers.
  lemma StoredChecksumVerifies(data: seq<byte>, i: nat)
    requires 2 * i + 1 < |data| <= SAFE_LENGTH && NetWord(data, i) == 0
    ensures NetChecksum(StoreWord(data, i, NetChecksum(data))) == 0
  {
    hide Folded, NetSum, StoreWord, Swap16, NetWord;
    var k, c := Words(data), NetChecksum(data);
    var stored, sum := StoreWord(data, i, c), NetSum(data, k);
    SumBounds(data, k);
    SmallMod(sum);
    assert c == Swap16(65535 - Folded(sum));
    SwapsAreInverse(65535 - Folded(sum), 0);
    SumAfterStore(data, i, c, k);
    var q := FoldedSplit(sum);
    assert NetSum(stored, k) == 65535 * (q + 1);
    SumBounds(stored, k);
    SmallMod(NetSum(stored, k));
    MultipleFolds(q + 1);
    assert Swap16(0) == 0 by { SwapIsTimes256(0); }
  }

  // ---- what the checksum detects ----

  // How much a byte counts in the sum: those at even positions are the upper halves of words.
  function Weight(i: nat): nat {
    if i % 2 == 0 then 256 else 1
  }

  lemma {:induction false} SumAfterChange(data: seq<byte>, i: nat, b: byte, k: nat)
    requires i < |data| && k <= Words(data)
    ensures NetSum(data[i := b], k) == NetSum(data, k) + (if i < 2 * k then Weight(i) * (b - data[i]) else 0)
  {
    if k > 0 {
      SumAfterChange(data, i, b, k - 1);
      if i / 2 == k - 1 {
        WordAfterChange(data, i, b);
      } else {
        assert NetWord(data[i := b], k - 1) == NetWord(data, k - 1);
      }
    }
  }

  lemma WordAfterChange(data: seq<byte>, i: nat, b: byte)
    requires i < |data|
    ensures NetWord(data[i := b], i / 2) == NetWord(data, i / 2) + Weight(i) * (b - data[i])
  {}

  // Data verifies exactly when its sum is a non-zero multiple of 65535.
  lemma VerifiesIff(data: seq<byte>)
    requires |data| <= SAFE_LENGTH
    ensures var sum := NetSum(data, Words(data));
            NetChecksum(data) == 0 <==> sum > 0 && sum % 65535 == 0
  {
    hide NetSum, Swap16;
    var sum := NetSum(data, Words(data));
    SumBounds(data, Words(data));
    SmallMod(sum);
    SwapIsTimes256(65535 - Folded(sum));
  }

  // Every change of a single byte in data that verifies is detected.
  lemma ByteErrorIsDetected(data: seq<byte>, i: nat, b: byte)
    requires |data| <= SAFE_LENGTH && NetChecksum(data) == 0 && i < |data| && b != data[i]
    ensures NetChecksum(data[i := b]) != 0
  {
    hide NetSum, NetChecksum;
    var k, data1 := Words(data), data[i := b];
    VerifiesIff(data);
    VerifiesIff(data1);
    SumAfterChange(data, i, b, k);
    NotMultiple(NetSum(data, k), Weight(i) * (b - data[i]));
  }

  lemma NotMultiple(sum: nat, d: int)
    requires sum % 65535 == 0 && -65535 < d < 65535 && d != 0
    ensures (sum + d) % 65535 != 0
  {}

  lemma SmallMod(x: nat)
    requires x < TWO32
    ensures x % TWO32 == x
  {}

  lemma MultipleFolds(q: nat)
    requires q > 0
    ensures Folded(65535 * q) == 65535
  {}
}
