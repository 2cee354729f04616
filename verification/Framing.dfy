/** The byte layout of IPv4 and Ethernet frames as src/protocols/ip.c and src/protocols/ethernet.c
    build and parse them on a little-endian host. */
module Framing {
  import opened Bytes
  import opened Checksum

  const ETH_HDR_LEN := 14
  const ETH_ALEN := 6
  const IP_HDR_LEN := 20
  const IP_DEFAULT_TTL := 64
  const ETHERTYPE_IPV4 := 0x0800

  type Mac = m: seq<byte> | |m| == ETH_ALEN witness [0, 0, 0, 0, 0, 0]

  const BROADCAST: Mac := [255, 255, 255, 255, 255, 255]

  // How integers lie in memory.
  function Store16(x: u16): (s: seq<byte>)
    ensures |s| == 2
  {
    [x % 256, x / 256]
  }

  function Load16(s: seq<byte>, at: nat): u16
    requires at + 2 <= |s|
  {
    Word(s[at], s[at + 1])
  }

  function Store32(x: u32): (s: seq<byte>)
    ensures |s| == 4
  {
    [ByteOf(x, 0), ByteOf(x, 1), ByteOf(x, 2), ByteOf(x, 3)]
  }

  function Load32(s: seq<byte>, at: nat): u32
    requires at + 4 <= |s|
  {
    FromBytes(s[at], s[at + 1], s[at + 2], s[at + 3])
  }

  lemma LoadStore(x: u16, y: u32, before: seq<byte>, after: seq<byte>)
    ensures Load16(before + Store16(x) + after, |before|) == x
    ensures Load32(before + Store32(y) + after, |before|) == y
  {
    BytesGiveBack(y);
    var s := before + Store32(y) + after;
    assert s[|before|..|before| + 4] == Store32(y);
  }

  // ---- what goes on the wire ----

  // The number that bytes stand for in network order, the most significant byte first.
  function BigEndian(s: seq<byte>): nat {
    if s == [] then 0 else 256 * BigEndian(s[..|s| - 1]) + s[|s| - 1]
  }

  lemma TwoBytes(a: byte, b: byte)
    ensures BigEndian([a, b]) == 256 * a + b
  {
    assert [a, b][..1] == [a] && [a][..0] == [];
    assert BigEndian([a]) == a;
  }

  lemma FourOfThem(a: byte, b: byte, c: byte, d: byte)
    ensures BigEndian([a, b, c, d]) == 0x100_0000 * a + 0x1_0000 * b + 0x100 * c + d
  {
    assert [a, b, c, d][..3] == [a, b, c] && [a, b, c][..2] == [a, b];
    TwoBytes(a, b);
    assert BigEndian([a, b, c]) == 256 * BigEndian([a, b]) + c;
  }

  // Swapped numbers lie in memory in network order, and what is loaded and swapped was in that order.
  lemma StoredInNetworkOrder(x: u16, y: u32)
    ensures BigEndian(Store16(Swap16(x))) == x
    ensures BigEndian(Store32(Swap32(y))) == y
  {
    hide FromBytes, ByteOf, BigEndian;
    TwoBytes(Swap16(x) % 256, Swap16(x) / 256);
    FourBytes(ByteOf(y, 3), ByteOf(y, 2), ByteOf(y, 1), ByteOf(y, 0));
    FourOfThem(ByteOf(y, 3), ByteOf(y, 2), ByteOf(y, 1), ByteOf(y, 0));
    NumberOfBytes(y);
  }

  lemma NumberOfBytes(y: u32)
    ensures var a: int, b: int, c: int, d: int := ByteOf(y, 0), ByteOf(y, 1), ByteOf(y, 2), ByteOf(y, 3);
            a + 0x100 * b + 0x1_0000 * c + 0x100_0000 * d == y
  {
    BytesGiveBack(y);
  }

  lemma LoadedFromNetworkOrder(s: seq<byte>, at: nat)
    requires at + 2 <= |s|
    ensures Swap16(Load16(s, at)) == BigEndian(s[at..at + 2])
    ensures at + 4 <= |s| ==> Swap32(Load32(s, at)) == BigEndian(s[at..at + 4])
  {
    hide FromBytes, ByteOf, BigEndian;
    TwoBytes(s[at], s[at + 1]);
    assert s[at..at + 2] == [s[at], s[at + 1]];
    if at + 4 <= |s| {
      FourBytes(s[at], s[at + 1], s[at + 2], s[at + 3]);
      FourOfThem(s[at], s[at + 1], s[at + 2], s[at + 3]);
      assert s[at..at + 4] == [s[at], s[at + 1], s[at + 2], s[at + 3]];
      Reversed(s[at], s[at + 1], s[at + 2], s[at + 3]);
    }
  }

  lemma Reversed(a: byte, b: byte, c: byte, d: byte)
    ensures Swap32(FromBytes(a, b, c, d)) == 0x100_0000 * a + 0x1_0000 * b + 0x100 * c + d
  {
    FourBytes(a, b, c, d);
    hide ByteOf;
  }

  // ---- Ethernet ----

  function EthHeader(dst: Mac, src: Mac, ethertype: u16): (h: seq<byte>)
    ensures |h| == ETH_HDR_LEN
  {
    dst + src + Store16(Swap16(ethertype))
  }

  datatype EthResult = EthAccepted(ethertype: u16, body: seq<byte>) | EthNotForUs | EthError

  // ethernet_receive on an interface that is not error-disabled.
  function DecodeEth(frame: seq<byte>, mac: Mac): EthResult {
    if |frame| < ETH_HDR_LEN then EthError
    else if frame[..6] != mac && frame[..6] != BROADCAST then EthNotForUs
    else EthAccepted(Swap16(Load16(frame, 12)), frame[ETH_HDR_LEN..])
  }

  lemma EthRoundTrip(dst: Mac, src: Mac, ethertype: u16, body: seq<byte>, mac: Mac)
    ensures DecodeEth(EthHeader(dst, src, ethertype) + body, mac) ==
            if dst == mac || dst == BROADCAST then EthAccepted(ethertype, body) else EthNotForUs
  {
    var frame := EthHeader(dst, src, ethertype) + body;
    assert frame[..6] == dst;
    assert frame[ETH_HDR_LEN..] == body;
    assert frame == (dst + src) + Store16(Swap16(ethertype)) + body;
    LoadStore(Swap16(ethertype), 0, dst + src, body);
    SwapsAreInverse(ethertype, 0);
  }

  // Any frame: too short, for somebody else, or accepted with the EtherType that stands in it.
  lemma EthVerdict(frame: seq<byte>, mac: Mac)
    ensures var r, ours := DecodeEth(frame, mac), |frame| >= 14 && (frame[..6] == mac || frame[..6] == BROADCAST);
            && (r == EthError <==> |frame| < 14) && (r.EthAccepted? <==> ours)
            && (ours ==> r.ethertype == BigEndian(frame[12..14]) && r.body == frame[14..])
  {
    hide BigEndian;
    if |frame| >= 14 {
      LoadedFromNetworkOrder(frame, 12);
    }
  }

  // A frame starts with the destination, the source and the EtherType in network order.
  lemma EthBytes(dst: Mac, src: Mac, ethertype: u16)
    ensures var h := EthHeader(dst, src, ethertype);
            h[..6] == dst && h[6..12] == src && BigEndian(h[12..]) == ethertype
  {
    var h := EthHeader(dst, src, ethertype);
    StoredInNetworkOrder(ethertype, 0);
    assert h[12..] == Store16(Swap16(ethertype));
  }

  // ---- IPv4 ----

  // The header before the checksum is filled in; length is that of the payload.
  function BareIpHeader(src: u32, dst: u32, protocol: byte, length: nat): (h: seq<byte>)
    ensures |h| == IP_HDR_LEN
  {
    [4 * 16 + IP_HDR_LEN / 4, 0] + Store16(Swap16((IP_HDR_LEN + length) % 0x1_0000)) + Store16(0) + Store16(0)
    + [IP_DEFAULT_TTL, protocol] + Store16(0) + Store32(Swap32(src)) + Store32(Swap32(dst))
  }

  function IpHeader(src: u32, dst: u32, protocol: byte, length: nat): (h: seq<byte>)
    ensures |h| == IP_HDR_LEN
  {
    var bare := BareIpHeader(src, dst, protocol, length);
    StoreWord(bare, 5, NetChecksum(bare))
  }

  datatype IpInfo = IpInfo(src: u32, dst: u32, protocol: byte)

  datatype IpResult = IpAccepted(info: IpInfo, payload: seq<byte>)
    | IpTooShort | IpBadVersion | IpExpired | IpBadChecksum

  function InfoOf(header: seq<byte>): IpInfo
    requires |header| == IP_HDR_LEN
  {
    IpInfo(Swap32(Load32(header, 12)), Swap32(Load32(header, 16)), header[9])
  }

  // ip_receive, with the addresses that the protocol handler reads from the header it left behind.
  function DecodeIp(packet: seq<byte>): IpResult {
    if |packet| < IP_HDR_LEN then IpTooShort
    else if packet[0] / 16 != 4 then IpBadVersion
    else if packet[8] == 0 then IpExpired
    else if NetChecksum(packet[..IP_HDR_LEN]) != 0 then IpBadChecksum
    else IpAccepted(InfoOf(packet[..IP_HDR_LEN]), packet[IP_HDR_LEN..])
  }

  lemma BareHeaderFields(src: u32, dst: u32, protocol: byte, length: nat)
    ensures var h := BareIpHeader(src, dst, protocol, length);
            && h[0] / 16 == 4 && h[8] == IP_DEFAULT_TTL && h[9] == protocol && h[10] == h[11] == 0
            && Load32(h, 12) == Swap32(src) && Load32(h, 16) == Swap32(dst)
  {
    hide FromBytes, ByteOf;
    var h := BareIpHeader(src, dst, protocol, length);
    var front := h[..12];
    assert h == front + Store32(Swap32(src)) + Store32(Swap32(dst));
    LoadStore(0, Swap32(src), front, Store32(Swap32(dst)));
    assert h == (front + Store32(Swap32(src))) + Store32(Swap32(dst)) + [];
    LoadStore(0, Swap32(dst), front + Store32(Swap32(src)), []);
  }

  // The header field by field, numbers in network order: version 4 with five header words, total
  // length, no fragmentation, TTL 64, protocol and addresses.
  lemma IpHeaderBytes(src: u32, dst: u32, protocol: byte, length: nat)
    ensures var h := IpHeader(src, dst, protocol, length);
            && h[..2] == [0x45, 0] && BigEndian(h[2..4]) == (20 + length) % 0x1_0000
            && h[4..10] == [0, 0, 0, 0, 64, protocol]
            && BigEndian(h[12..16]) == src && BigEndian(h[16..]) == dst
  {
    hide NetChecksum, FromBytes, ByteOf, Swap16, Swap32, BigEndian, Store32, Store16;
    var total := Store16(Swap16((IP_HDR_LEN + length) % 0x1_0000));
    var bare, h := BareIpHeader(src, dst, protocol, length), IpHeader(src, dst, protocol, length);
    BarePrefix(src, dst, protocol, length);
    assert h[..10] == bare[..10] && h[12..] == bare[12..];
    StoredInNetworkOrder((IP_HDR_LEN + length) % 0x1_0000, src);
    StoredInNetworkOrder(0, dst);
    assert h[..2] == h[..10][..2] && h[2..4] == h[..10][2..4] && h[4..10] == h[..10][4..];
    assert h[12..16] == h[12..][..4] && h[16..] == h[12..][4..];
  }

  lemma BarePrefix(src: u32, dst: u32, protocol: byte, length: nat)
    ensures var h, total := BareIpHeader(src, dst, protocol, length),
                            Store16(Swap16((IP_HDR_LEN + length) % 0x1_0000));
            h[..10] == [0x45, 0] + total + [0, 0, 0, 0, 64, protocol]
            && h[12..] == Store32(Swap32(src)) + Store32(Swap32(dst))
  {
    hide FromBytes, ByteOf, Swap16, Swap32, Store32;
    assert Store16(0) == [0, 0];
  }

  // What ip_send writes, ip_receive accepts: the checksum verifies to 0 and addresses, protocol and
  // payload come out again.
  lemma IpRoundTrip(src: u32, dst: u32, protocol: byte, payload: seq<byte>)
    ensures var h := IpHeader(src, dst, protocol, |payload|);
            && NetChecksum(h) == 0
            && DecodeIp(h + payload) == IpAccepted(IpInfo(src, dst, protocol), payload)
  {
    hide NetChecksum, FromBytes, ByteOf, BareIpHeader, Swap32;
    var bare := BareIpHeader(src, dst, protocol, |payload|);
    var h := IpHeader(src, dst, protocol, |payload|);
    BareHeaderFields(src, dst, protocol, |payload|);
    StoredChecksumVerifies(bare, 5);
    assert (h + payload)[..IP_HDR_LEN] == h;
    assert (h + payload)[IP_HDR_LEN..] == payload;
    SwapsAreInverse(0, src);
    SwapsAreInverse(0, dst);
  }

  // Any packet: ip_receive accepts exactly what is long enough, of version 4, not expired and verifies, and reads
  // protocol and addresses where ip_send writes them.
  lemma AcceptedIff(packet: seq<byte>)
    ensures DecodeIp(packet).IpAccepted? <==>
              20 <= |packet| && 64 <= packet[0] < 80 && packet[8] > 0 && NetChecksum(packet[..20]) == 0
    ensures DecodeIp(packet).IpAccepted? ==>
      var r := DecodeIp(packet);
      && r.info.protocol == packet[9]
      && r.info.src == BigEndian(packet[12..16]) && r.info.dst == BigEndian(packet[16..20])
      && r.payload == packet[20..]
    ensures DecodeIp(packet) == IpTooShort <==> |packet| < 20
    ensures DecodeIp(packet) == IpBadVersion <==> 20 <= |packet| && !(64 <= packet[0] < 80)
    ensures DecodeIp(packet) == IpExpired <==> 20 <= |packet| && 64 <= packet[0] < 80 && packet[8] == 0
  {
    hide NetChecksum, FromBytes, ByteOf, Swap32, BigEndian;
    if |packet| >= 20 {
      var h := packet[..20];
      LoadedFromNetworkOrder(h, 12);
      LoadedFromNetworkOrder(h, 16);
      assert h[12..16] == packet[12..16] && h[16..20] == packet[16..20];
    }
  }

  // A header with one wrong byte is never accepted.
  lemma DamagedHeaderIsRejected(packet: seq<byte>, i: nat, b: byte)
    requires DecodeIp(packet).IpAccepted? && i < IP_HDR_LEN && b != packet[i]
    ensures !DecodeIp(packet[i := b]).IpAccepted?
  {
    hide NetChecksum;
    ByteErrorIsDetected(packet[..IP_HDR_LEN], i, b);
    assert packet[i := b][..IP_HDR_LEN] == packet[..IP_HDR_LEN][i := b];
  }

  // The whole path: a payload framed for IP and Ethernet, received by the addressed interface.
  lemma FrameRoundTrip(srcMac: Mac, dstMac: Mac, mac: Mac, src: u32, dst: u32, protocol: byte, payload: seq<byte>)
    requires dstMac == mac || dstMac == BROADCAST
    ensures var frame := EthHeader(dstMac, srcMac, ETHERTYPE_IPV4)
                         + (IpHeader(src, dst, protocol, |payload|) + payload);
            var eth := DecodeEth(frame, mac);
            && eth.EthAccepted? && eth.ethertype == ETHERTYPE_IPV4
            && DecodeIp(eth.body) == IpAccepted(IpInfo(src, dst, protocol), payload)
  {
    hide IpHeader, EthHeader, DecodeEth, DecodeIp;
    EthRoundTrip(dstMac, srcMac, ETHERTYPE_IPV4, IpHeader(src, dst, protocol, |payload|) + payload, mac);
    IpRoundTrip(src, dst, protocol, payload);
  }
}
