/** TCP segments as bytes: the header that tcp_send_segment writes and tcp_receive reads
    (src/protocols/tcp.c), down to the Ethernet frame. It justifies the wire of Datagram values
    that TcpPair.dfy and TcpNetwork.dfy reason about. */
module TcpWire {
  import opened Wrappers
  import opened Bytes
  import opened Framing
  import opened Packet
  import opened TcpTypes
  import T = TcpTable

  const TCP_HDR_LEN := 20
  const TCP_HDR_WORDS := 5
  const TCP_DEFAULT_WINDOW := 65535
  const IPPROTO_TCP := 6

  function Join(lowest: bool, rest: nat): nat {
    (if lowest then 1 else 0) + 2 * rest
  }

  // FIN is bit 0 of the flags, URG bit 5.
  function FlagBits(f: Flags): (n: nat)
    ensures n < 64
  {
    Join(f.fin, Join(f.syn, Join(f.rst, Join(f.psh, Join(f.ack, Join(f.urg, 0))))))
  }

  function FlagsOf(n: nat): Flags {
    var n1 := n / 2;
    var n2 := n1 / 2;
    var n3 := n2 / 2;
    var n4 := n3 / 2;
    var n5 := n4 / 2;
    Flags(n % 2 == 1, n1 % 2 == 1, n2 % 2 == 1, n3 % 2 == 1, n4 % 2 == 1, n5 % 2 == 1)
  }

  // The segment m from the owner of `tuple` to its peer.
  function TcpHeader(tuple: Tuple, m: Segment): (h: seq<byte>)
    ensures |h| == TCP_HDR_LEN
  {
    Store16(Swap16(tuple.localPort)) + Store16(Swap16(tuple.remotePort))
    + Store32(Swap32(m.seqNum)) + Store32(Swap32(m.ackNum))
    + Store16(Swap16(TCP_HDR_WORDS * 4096 + FlagBits(m.flags)))
    + Store16(Swap16(TCP_DEFAULT_WINDOW)) + Store16(0) + Store16(0)
  }

  datatype Parsed = Parsed(datagram: T.Datagram) | TooShort | NoIpHeader | WrongProtocol | BadOffset

  // The checks and fields of tcp_receive before the table lookup; info comes from the IP header
  // in front of the segment.
  function Parse(info: IpInfo, bytes: seq<byte>): Parsed {
    if |bytes| < TCP_HDR_LEN then TooShort
    else if info.protocol != IPPROTO_TCP then WrongProtocol
    else
      var dataOff := Swap16(Load16(bytes, 12));
      if dataOff / 4096 != TCP_HDR_WORDS then BadOffset
      else Parsed(T.Datagram(
        Tuple(info.dst, Swap16(Load16(bytes, 2)), info.src, Swap16(Load16(bytes, 0))),
        Segment(Swap32(Load32(bytes, 4)), Swap32(Load32(bytes, 8)), FlagsOf(dataOff % 64), bytes[TCP_HDR_LEN..])))
  }

  lemma LowestBit(lowest: bool, rest: nat)
    ensures var n := Join(lowest, rest); (n % 2 == 1 <==> lowest) && n / 2 == rest
  {}

  lemma FlagsRoundTrip(f: Flags)
    ensures FlagsOf(FlagBits(f)) == f
  {
    hide Join;
    var urg := Join(f.urg, 0);
    var ack := Join(f.ack, urg);
    var psh := Join(f.psh, ack);
    var rst := Join(f.rst, psh);
    var syn := Join(f.syn, rst);
    LowestBit(f.urg, 0);
    LowestBit(f.ack, urg);
    LowestBit(f.psh, ack);
    LowestBit(f.rst, psh);
    LowestBit(f.syn, rst);
    LowestBit(f.fin, syn);
  }

  lemma OffsetAndFlags(bits: nat)
    requires bits < 64
    ensures var off: u16 := TCP_HDR_WORDS * 4096 + bits; off / 4096 == TCP_HDR_WORDS && off % 64 == bits
  {}

  lemma HeaderFields(tuple: Tuple, m: Segment, bytes: seq<byte>)
    requires bytes == TcpHeader(tuple, m) + m.payload
    ensures Swap16(Load16(bytes, 0)) == tuple.localPort && Swap16(Load16(bytes, 2)) == tuple.remotePort
    ensures Swap32(Load32(bytes, 4)) == m.seqNum && Swap32(Load32(bytes, 8)) == m.ackNum
    ensures Swap16(Load16(bytes, 12)) == TCP_HDR_WORDS * 4096 + FlagBits(m.flags)
  {
    hide FromBytes, ByteOf, Swap16, Swap32, FlagBits, Load16, Load32, Store16, Store32;
    var off: u16 := TCP_HDR_WORDS * 4096 + FlagBits(m.flags);
    var h := TcpHeader(tuple, m);
    FieldBack(h[..0], tuple.localPort, 0, bytes[2..], bytes);
    FieldBack(h[..2], tuple.remotePort, 0, bytes[4..], bytes);
    FieldBack(h[..4], 0, m.seqNum, bytes[8..], bytes);
    FieldBack(h[..8], 0, m.ackNum, bytes[12..], bytes);
    FieldBack(h[..12], off, 0, bytes[14..], bytes);
  }

  // A value that was stored in network order at some offset reads back.
  lemma FieldBack(before: seq<byte>, x: u16, y: u32, after: seq<byte>, bytes: seq<byte>)
    ensures bytes == before + Store16(Swap16(x)) + after ==> Swap16(Load16(bytes, |before|)) == x
    ensures bytes == before + Store32(Swap32(y)) + after ==> Swap32(Load32(bytes, |before|)) == y
  {
    hide FromBytes, ByteOf, Swap16, Swap32, Load16, Load32, Store16, Store32;
    LoadStore(Swap16(x), Swap32(y), before, after);
    SwapsAreInverse(x, y);
  }

  // The header on the wire: ports and numbers in network order, five header words, the flags with FIN
  // lowest, a constant window, no checksum and no urgent pointer.
  lemma HeaderBytes(tuple: Tuple, m: Segment)
    ensures var h := TcpHeader(tuple, m);
            && BigEndian(h[..2]) == tuple.localPort && BigEndian(h[2..4]) == tuple.remotePort
            && BigEndian(h[4..8]) == m.seqNum && BigEndian(h[8..12]) == m.ackNum
            && h[12..14] == [0x50, FlagByte(m.flags)] && h[14..] == [0xFF, 0xFF, 0, 0, 0, 0]
  {
    hide FromBytes, ByteOf, Swap16, Swap32, Store16, Store32, FlagBits, BigEndian, TcpHeader;
    HeaderSlices(tuple, m);
    StoredInNetworkOrder(tuple.localPort, m.seqNum);
    StoredInNetworkOrder(tuple.remotePort, m.ackNum);
    ConstantBytes(m.flags);
  }

  lemma HeaderSlices(tuple: Tuple, m: Segment)
    ensures var h := TcpHeader(tuple, m);
            && h[..2] == Store16(Swap16(tuple.localPort)) && h[2..4] == Store16(Swap16(tuple.remotePort))
            && h[4..8] == Store32(Swap32(m.seqNum)) && h[8..12] == Store32(Swap32(m.ackNum))
            && h[12..14] == Store16(Swap16(TCP_HDR_WORDS * 4096 + FlagBits(m.flags)))
            && h[14..] == Store16(Swap16(TCP_DEFAULT_WINDOW)) + Store16(0) + Store16(0)
  {
    hide FromBytes, ByteOf, Swap16, Swap32, Store16, Store32, FlagBits;
  }

  lemma ConstantBytes(f: Flags)
    ensures Store16(Swap16(TCP_HDR_WORDS * 4096 + FlagBits(f))) == [0x50, FlagByte(f)]
    ensures Store16(Swap16(TCP_DEFAULT_WINDOW)) + Store16(0) + Store16(0) == [0xFF, 0xFF, 0, 0, 0, 0]
  {
    hide FlagBits, FlagByte;
    FlagsAreOneByte(f);
  }

  // FIN 1, SYN 2, RST 4, PSH 8, ACK 16, URG 32.
  function FlagByte(f: Flags): (b: byte)
    ensures b < 64
  {
    (if f.fin then 1 else 0) + (if f.syn then 2 else 0) + (if f.rst then 4 else 0)
    + (if f.psh then 8 else 0) + (if f.ack then 16 else 0) + (if f.urg then 32 else 0)
  }

  lemma FlagsAreOneByte(f: Flags)
    ensures FlagBits(f) == FlagByte(f)
  {}

  // What is parsed from any bytes: exactly when they are long enough, of protocol 6 and with a header of
  // five words, and then the fields that stand there in network order, the two highest flag bits ignored.
  lemma ParsedBytes(info: IpInfo, bytes: seq<byte>)
    ensures var r := Parse(info, bytes);
            && (r.Parsed? <==> 20 <= |bytes| && info.protocol == 6 && bytes[12] / 16 == 5)
            && (r.Parsed? ==> ReadsAs(info, bytes, r.datagram))
            && (r == TooShort <==> |bytes| < 20)
            && (r == WrongProtocol <==> 20 <= |bytes| && info.protocol != 6)
  {
    hide FromBytes, ByteOf, Swap32, BigEndian, FlagsOf, Load32;
    if |bytes| >= 20 {
      LoadedFromNetworkOrder(bytes, 0);
      LoadedFromNetworkOrder(bytes, 2);
      LoadedFromNetworkOrder(bytes, 4);
      LoadedFromNetworkOrder(bytes, 8);
      LowBits(bytes, 12);
      FlagsFromBits(bytes[13] % 64);
    }
  }

  ghost predicate ReadsAs(info: IpInfo, bytes: seq<byte>, d: T.Datagram)
    requires |bytes| >= TCP_HDR_LEN
  {
    && d.tuple.localIp == info.dst && d.tuple.remoteIp == info.src
    && d.tuple.localPort == BigEndian(bytes[2..4]) && d.tuple.remotePort == BigEndian(bytes[0..2])
    && d.segment.seqNum == BigEndian(bytes[4..8]) && d.segment.ackNum == BigEndian(bytes[8..12])
    && FlagByte(d.segment.flags) == bytes[13] % 64 && d.segment.payload == bytes[20..]
  }

  lemma LowBits(s: seq<byte>, at: nat)
    requires at + 2 <= |s|
    ensures var x := Swap16(Load16(s, at)); x % 64 == s[at + 1] % 64 && x / 4096 == s[at] / 16
  {
    hide Swap16, Load16;
    Swapped(s, at);
    BitsOf(s[at], s[at + 1]);
  }

  lemma Swapped(s: seq<byte>, at: nat)
    requires at + 2 <= |s|
    ensures var a: int, b: int := s[at], s[at + 1]; Swap16(Load16(s, at)) == 256 * a + b
  {}

  lemma BitsOf(a: int, b: int)
    requires 0 <= a && 0 <= b < 256
    ensures (256 * a + b) % 64 == b % 64 && (256 * a + b) / 4096 == a / 16
  {}

  lemma FlagsFromBits(n: nat)
    requires n < 64
    ensures FlagByte(FlagsOf(n)) == n
  {}

  // What the peer parses is the segment, under the four-tuple as the peer sees it.
  lemma SegmentRoundTrip(tuple: Tuple, m: Segment)
    ensures Parse(IpInfo(tuple.localIp, tuple.remoteIp, IPPROTO_TCP), TcpHeader(tuple, m) + m.payload)
            == Parsed(T.Datagram(tuple.Mirror(), m))
  {
    hide FromBytes, ByteOf, Swap16, Swap32, FlagBits, FlagsOf, TcpHeader, Load16, Load32;
    var bytes := TcpHeader(tuple, m) + m.payload;
    HeaderFields(tuple, m, bytes);
    FlagsRoundTrip(m.flags);
    OffsetAndFlags(FlagBits(m.flags));
    assert bytes[TCP_HDR_LEN..] == m.payload;
  }

  // ---- over the link ----

  function Frame(srcMac: Mac, dstMac: Mac, tuple: Tuple, m: Segment): seq<byte> {
    var segment := TcpHeader(tuple, m) + m.payload;
    EthHeader(dstMac, srcMac, ETHERTYPE_IPV4)
    + (IpHeader(tuple.localIp, tuple.remoteIp, IPPROTO_TCP, |segment|) + segment)
  }

  // What a host with address mac makes of a frame.
  function Understood(frame: seq<byte>, mac: Mac): Option<T.Datagram> {
    match DecodeEth(frame, mac)
    case EthAccepted(ethertype, body) =>
      if ethertype != ETHERTYPE_IPV4 then None
      else (match DecodeIp(body)
            case IpAccepted(info, segment) =>
              (match Parse(info, segment) case Parsed(d) => Some(d) case _ => None)
            case _ => None)
    case _ => None
  }

  // Through TCP, IP and Ethernet and back: the addressed host reads exactly the datagram.
  lemma DatagramCrossesStack(srcMac: Mac, dstMac: Mac, tuple: Tuple, m: Segment)
    ensures Understood(Frame(srcMac, dstMac, tuple, m), dstMac) == Some(T.Datagram(tuple.Mirror(), m))
  {
    hide EthHeader, IpHeader, TcpHeader, DecodeEth, DecodeIp, Parse;
    var segment := TcpHeader(tuple, m) + m.payload;
    FrameRoundTrip(srcMac, dstMac, dstMac, tuple.localIp, tuple.remoteIp, IPPROTO_TCP, segment);
    SegmentRoundTrip(tuple, m);
  }

  // So a wire of frames and a wire of datagrams are the same thing: no frame carries two datagrams.
  lemma FramesDetermineDatagrams(srcMac: Mac, dstMac: Mac, tuple: Tuple, m: Segment, tuple1: Tuple, m1: Segment)
    requires Frame(srcMac, dstMac, tuple, m) == Frame(srcMac, dstMac, tuple1, m1)
    ensures tuple == tuple1 && m == m1
  {
    hide Frame, Understood;
    DatagramCrossesStack(srcMac, dstMac, tuple, m);
    DatagramCrossesStack(srcMac, dstMac, tuple1, m1);
  }

  lemma InTwoParts(s: seq<byte>, front: seq<byte>, back: seq<byte>)
    requires |s| == |front| + |back|
    requires forall i :: 0 <= i < |front| ==> s[i] == front[i]
    requires forall i :: 0 <= i < |back| ==> s[|front| + i] == back[i]
    ensures s == front + back
  {
    assert s[..|front|] == front && s[|front|..] == back;
  }

  // tcp_send_segment up to its call of ip_output.
  method BuildSegment(tuple: Tuple, m: Segment) returns (pkt: Option<Packet>)
    ensures pkt.Some? == (|m.payload| <= TCP_MSS)
    ensures pkt.Some? ==>
      && fresh(pkt.value) && fresh(pkt.value.head) && pkt.value.Valid() && pkt.value.layer == 4
      && pkt.value.Contents() == TcpHeader(tuple, m) + m.payload
      && pkt.value.data >= IP_HDR_LEN + ETH_HDR_LEN
  {
    if |m.payload| > TCP_MSS {
      return None;
    }
    hide TcpHeader;
    var p := new Packet(TCP_HDR_LEN + |m.payload|);
    var header := TcpHeader(tuple, m);
    forall i | 0 <= i < TCP_HDR_LEN {
      p.head[p.data + i] := header[i];
    }
    forall i | 0 <= i < |m.payload| {
      p.head[p.data + TCP_HDR_LEN + i] := m.payload[i];
    }
    p.len := TCP_HDR_LEN + |m.payload|;
    p.layer := 4;
    InTwoParts(p.head[p.data..p.data + p.len], header, m.payload);
    pkt := Some(p);
  }

  // The first part of tcp_receive; the IP header that ip_receive stepped over is still in the buffer.
  method ReadSegment(pkt: Packet) returns (r: Parsed)
    requires pkt.Valid()
    ensures r == if pkt.len < TCP_HDR_LEN then TooShort
                 else if pkt.data < IP_HDR_LEN then NoIpHeader
                 else Parse(InfoOf(pkt.head[pkt.data - IP_HDR_LEN..pkt.data]), pkt.Contents())
  {
    hide InfoOf, FromBytes, ByteOf, Swap16, Swap32, FlagsOf, Load16, Load32;
    if pkt.len < TCP_HDR_LEN {
      return TooShort;
    }
    if pkt.data < IP_HDR_LEN {
      return NoIpHeader;
    }
    var info := InfoOf(pkt.head[pkt.data - IP_HDR_LEN..pkt.data]);
    if info.protocol != IPPROTO_TCP {
      return WrongProtocol;
    }
    var bytes := pkt.head[pkt.data..pkt.data + pkt.len];
    var srcPort, dstPort := Swap16(Load16(bytes, 0)), Swap16(Load16(bytes, 2));
    var seqNum, ackNum := Swap32(Load32(bytes, 4)), Swap32(Load32(bytes, 8));
    var dataOff := Swap16(Load16(bytes, 12));
    if dataOff / 4096 != TCP_HDR_WORDS {
      return BadOffset;
    }
    var tuple := Tuple(info.dst, dstPort, info.src, srcPort);
    r := Parsed(T.Datagram(tuple, Segment(seqNum, ackNum, FlagsOf(dataOff % 64), bytes[TCP_HDR_LEN..])));
  }

  // A segment of at most TCP_MSS bytes, sent by one host and received by the other.
  method Deliver(from: Interface, to: Interface, tuple: Tuple, m: Segment) returns (d: T.Datagram)
    requires |m.payload| <= TCP_MSS
    requires from != to && !from.errDisabled && !to.errDisabled
    modifies from, to
    ensures d == T.Datagram(tuple.Mirror(), m)
  {
    hide TcpHeader, Parse, InfoOf;
    var pkt := BuildSegment(tuple, m);
    var arrived := CarryOver(from, to, tuple.localIp, tuple.remoteIp, IPPROTO_TCP, pkt.value);
    SegmentRoundTrip(tuple, m);
    var r := ReadSegment(arrived);
    d := r.datagram;
  }
}
