/** Packet buffers with headroom (src/network/packet.c) and the pipeline that pushes headers in
    front of a payload and takes them off again: ip_send, ethernet_send, link_transmit,
    ethernet_receive and ip_receive, in place on the buffer. The byte layouts are in Framing.dfy. */
module Packet {
  import opened Wrappers
  import opened Bytes
  import opened Checksum
  import opened Framing

  const PKT_HEADROOM := 64

  // head never moves; data and len bound the current layer inside it.
  class Packet {
    const head: array<byte>
    const capacity: nat
    var data: nat
    var len: nat
    var layer: nat

    ghost predicate Valid()
      reads this
    {
      head.Length == PKT_HEADROOM + capacity && data + len <= head.Length
    }

    ghost function Contents(): (s: seq<byte>)
      requires Valid()
      reads this, head
    {
      head[data..data + len]
    }

    // packet_create
    constructor (capacity: nat)
      ensures Valid() && fresh(head)
      ensures this.capacity == capacity && data == PKT_HEADROOM && len == 0 && layer == 0
    {
      head := new byte[PKT_HEADROOM + capacity];
      this.capacity := capacity;
      data, len, layer := PKT_HEADROOM, 0, 0;
    }

    // packet_prepend
    method Prepend(header: seq<byte>) returns (ok: bool)
      requires Valid()
      modifies this, head
      ensures Valid() && layer == old(layer) && data + len == old(data + len)
      ensures ok == (|header| <= old(data))
      ensures Contents() == if ok then header + old(Contents()) else old(Contents())
      ensures head[..data] == old(head[..])[..data]
    {
      if data < |header| {
        return false;
      }
      data := data - |header|;
      len := len + |header|;
      forall i | 0 <= i < |header| {
        head[data + i] := header[i];
      }
      ok := true;
    }

    // packet_strip: the header stays in the buffer, in front of the new start.
    method Strip(headerLen: nat) returns (ok: bool)
      requires Valid()
      modifies this
      ensures Valid() && layer == old(layer) && data + len == old(data + len)
      ensures ok == (headerLen <= old(len))
      ensures Contents() == if ok then old(Contents())[headerLen..] else old(Contents())
      ensures ok ==> data >= headerLen && head[data - headerLen..data] == old(Contents())[..headerLen]
    {
      if headerLen > len {
        return false;
      }
      data := data + headerLen;
      len := len - headerLen;
      ok := true;
    }

    // Assignments to a one-byte and to a 16-bit field of the header at the start of the packet.
    method PutByte(i: nat, b: byte)
      requires Valid() && i < len
      modifies head
      ensures Contents() == old(Contents())[i := b]
    {
      head[data + i] := b;
    }

    method PutWord(i: nat, w: u16)
      requires Valid() && 2 * i + 1 < len
      modifies head
      ensures Contents() == StoreWord(old(Contents()), i, w)
    {
      head[data + 2 * i] := w % 256;
      head[data + 2 * i + 1] := w / 256;
    }

    // packet_clone: same bytes, new headroom.
    method Clone() returns (clone: Packet)
      requires Valid()
      ensures fresh(clone) && fresh(clone.head) && clone.Valid()
      ensures clone.Contents() == Contents() && clone.layer == layer && clone.data == PKT_HEADROOM
    {
      clone := new Packet(len);
      forall i | 0 <= i < len {
        clone.head[clone.data + i] := head[data + i];
      }
      clone.len := len;
      clone.layer := layer;
      assert forall i :: 0 <= i < len ==> clone.Contents()[i] == Contents()[i];
    }
  }

  // The fields of an interface that sending and receiving touch.
  class Interface {
    const mac: Mac
    var errDisabled: bool
    var txBytes: nat
    var rxBytes: nat
    var rxDropped: nat
    var rxErrors: nat
    var txErrors: nat

    constructor (mac: Mac)
      ensures this.mac == mac && !errDisabled
      ensures txBytes == rxBytes == rxDropped == rxErrors == txErrors == 0
    {
      this.mac := mac;
      errDisabled := false;
      txBytes, rxBytes, rxDropped, rxErrors, txErrors := 0, 0, 0, 0, 0;
    }
  }

  // ---- sending ----

  // What link_transmit sees of a link, with the state of the interface at the other end; an interface
  // may have no link.
  datatype Link = Link(up: bool, peerUp: bool, delay: nat)

  predicate Ready(link: Option<Link>) {
    link.Some? && link.value.up && link.value.peerUp
  }

  // A frame on its way and the time of the event that delivers it.
  datatype Delivery = Delivery(frame: Packet, at: nat)

  // link_transmit; scheduled says that memory for the copy and its event is found.
  method Transmit(pkt: Packet, link: Option<Link>, now: nat, scheduled: bool) returns (sent: Option<Delivery>)
    requires pkt.Valid()
    ensures sent.Some? == (Ready(link) && scheduled)
    ensures sent.Some? ==>
      && sent.value.at == now + link.value.delay
      && var f := sent.value.frame;
         && fresh(f) && fresh(f.head) && f.Valid()
         && f.Contents() == pkt.Contents() && f.layer == pkt.layer && f.data == PKT_HEADROOM
  {
    if link.None? {
      return None;
    }
    if !link.value.up {
      return None;
    }
    if !link.value.peerUp || !scheduled {
      return None;
    }
    var clone := pkt.Clone();
    sent := Some(Delivery(clone, now + link.value.delay));
  }

  method EthernetSend(iface: Interface, dst: Mac, ethertype: u16, payload: Packet,
                      link: Option<Link>, now: nat, scheduled: bool)
    returns (sent: Option<Delivery>)
    requires payload.Valid()
    modifies iface, payload, payload.head
    ensures payload.Valid()
    ensures sent.Some? == (!iface.errDisabled && old(payload.data) >= ETH_HDR_LEN && Ready(link) && scheduled)
    ensures sent.Some? ==>
      && sent.value.at == now + link.value.delay
      && var f := sent.value.frame;
         && fresh(f) && fresh(f.head) && f.Valid() && f.data == PKT_HEADROOM && f.layer == 2
         && f.Contents() == EthHeader(dst, iface.mac, ethertype) + old(payload.Contents())
    ensures payload.Contents() == if !iface.errDisabled && old(payload.data) >= ETH_HDR_LEN
                                  then EthHeader(dst, iface.mac, ethertype) + old(payload.Contents())
                                  else old(payload.Contents())
    ensures iface.errDisabled == old(iface.errDisabled)
    ensures payload.layer == if !iface.errDisabled && old(payload.data) >= ETH_HDR_LEN then 2 else old(payload.layer)
    ensures iface.txBytes == old(iface.txBytes)
                             + (if !iface.errDisabled && old(payload.data) >= ETH_HDR_LEN then payload.len else 0)
    ensures iface.txErrors == old(iface.txErrors)
                              + (if !iface.errDisabled && old(payload.data) < ETH_HDR_LEN then 1 else 0)
    ensures unchanged(iface`rxBytes, iface`rxDropped, iface`rxErrors)
  {
    if iface.errDisabled {
      return None;
    }
    var ok := payload.Prepend(EthHeader(dst, iface.mac, ethertype));
    if !ok {
      iface.txErrors := iface.txErrors + 1;
      return None;
    }
    iface.txBytes := iface.txBytes + payload.len;
    payload.layer := 2;
    sent := Transmit(payload, link, now, scheduled);
  }

  // A frame leaves exactly when there is headroom for both headers, the interface is not
  // error-disabled and the link is ready. A failure after the IP header was written leaves that
  // header in front of the payload and its bytes counted. A packet that leaves is counted twice in
  // tx_bytes, once per layer.
  method IpSend(iface: Interface, dstMac: Mac, src: u32, dst: u32, protocol: byte, payload: Packet,
                link: Option<Link>, now: nat, scheduled: bool)
    returns (sent: Option<Delivery>)
    requires payload.Valid()
    modifies iface, payload, payload.head
    ensures payload.Valid()
    ensures sent.Some? == (old(payload.data) >= IP_HDR_LEN + ETH_HDR_LEN
                           && !iface.errDisabled && Ready(link) && scheduled)
    ensures sent.Some? ==>
      && sent.value.at == now + link.value.delay
      && var f := sent.value.frame;
         && fresh(f) && fresh(f.head) && f.Valid() && f.data == PKT_HEADROOM && f.layer == 2
         && f.Contents() == EthHeader(dstMac, iface.mac, ETHERTYPE_IPV4)
                            + (IpHeader(src, dst, protocol, old(payload.len)) + old(payload.Contents()))
    ensures old(payload.data) < IP_HDR_LEN ==>
      payload.Contents() == old(payload.Contents()) && unchanged(iface)
    ensures old(payload.data) >= IP_HDR_LEN && (iface.errDisabled || old(payload.data) < IP_HDR_LEN + ETH_HDR_LEN) ==>
      payload.Contents() == IpHeader(src, dst, protocol, old(payload.len)) + old(payload.Contents())
    ensures iface.txBytes == old(iface.txBytes)
      + (if old(payload.data) < IP_HDR_LEN then 0 else IP_HDR_LEN + old(payload.len))
      + (if old(payload.data) < IP_HDR_LEN + ETH_HDR_LEN || iface.errDisabled then 0
         else ETH_HDR_LEN + IP_HDR_LEN + old(payload.len))
    ensures iface.txErrors == old(iface.txErrors)
      + (if !iface.errDisabled && IP_HDR_LEN <= old(payload.data) < IP_HDR_LEN + ETH_HDR_LEN then 1 else 0)
    ensures iface.errDisabled == old(iface.errDisabled)
    ensures unchanged(iface`rxBytes, iface`rxDropped, iface`rxErrors)
  {
    hide StoreWord, NetChecksum, BareIpHeader, EthHeader, Ready;
    var header := BareIpHeader(src, dst, protocol, payload.len);
    var checksum := IpChecksum(header);
    header := StoreWord(header, 5, checksum);
    assert header == IpHeader(src, dst, protocol, payload.len);
    hide IpHeader;
    var ok := payload.Prepend(header);
    if !ok {
      return None;
    }
    payload.layer := 3;
    iface.txBytes := iface.txBytes + payload.len;
    sent := EthernetSend(iface, dstMac, ETHERTYPE_IPV4, payload, link, now, scheduled);
  }

  // ---- receiving ----

  // 0 when accepted, 1 when the frame is for another interface, -1 on an error.
  method EthernetReceive(iface: Interface, frame: Packet) returns (result: int, ethertype: u16)
    requires frame.Valid()
    modifies iface, frame
    ensures frame.Valid()
    ensures match if iface.errDisabled then EthError else DecodeEth(old(frame.Contents()), iface.mac)
            case EthAccepted(t, body) =>
              && result == 0 && ethertype == t && frame.Contents() == body && frame.layer == 3
              && frame.data >= ETH_HDR_LEN && iface.rxBytes == old(iface.rxBytes) + |body|
            case EthNotForUs => result == 1 && unchanged(frame) && iface.rxBytes == old(iface.rxBytes)
            case EthError => result == -1 && unchanged(frame) && iface.rxBytes == old(iface.rxBytes)
    ensures unchanged(iface`errDisabled, iface`txBytes, iface`txErrors, iface`rxDropped, iface`rxErrors)
  {
    ethertype := 0;
    if frame.len < ETH_HDR_LEN {
      return -1, 0;
    }
    if iface.errDisabled {
      return -1, 0;
    }
    var at := frame.data;
    var dst := frame.head[at..at + ETH_ALEN];
    assert dst == frame.Contents()[..ETH_ALEN];
    if dst != iface.mac && dst != BROADCAST {
      return 1, 0;
    }
    ethertype := Swap16(Load16(frame.head[at..at + frame.len], 12));
    var ok := frame.Strip(ETH_HDR_LEN);
    iface.rxBytes := iface.rxBytes + frame.len;
    frame.layer := 3;
    result := 0;
  }

  // The header stays in front of the payload, where protocol handlers read the addresses.
  method IpReceive(iface: Interface, frame: Packet) returns (ok: bool)
    requires frame.Valid()
    modifies iface, frame
    ensures frame.Valid()
    ensures match DecodeIp(old(frame.Contents()))
            case IpAccepted(info, payload) =>
              && ok && frame.Contents() == payload && frame.layer == 4
              && frame.data == old(frame.data) + IP_HDR_LEN && frame.data + frame.len == old(frame.data + frame.len)
              && InfoOf(frame.head[frame.data - IP_HDR_LEN..frame.data]) == info
              && iface.rxBytes == old(iface.rxBytes) + IP_HDR_LEN + |payload|
              && unchanged(iface`rxDropped, iface`rxErrors)
            case IpTooShort => !ok && unchanged(frame) && unchanged(iface)
            case IpExpired =>
              && !ok && unchanged(frame) && unchanged(iface`rxBytes, iface`rxErrors)
              && iface.rxDropped == old(iface.rxDropped) + 1
            case IpBadVersion | IpBadChecksum =>
              && !ok && unchanged(frame) && unchanged(iface`rxBytes, iface`rxDropped)
              && iface.rxErrors == old(iface.rxErrors) + 1
    ensures unchanged(iface`errDisabled, iface`txBytes, iface`txErrors)
  {
    hide NetChecksum, InfoOf;
    if frame.len < IP_HDR_LEN {
      return false;
    }
    var at := frame.data;
    var header := frame.head[at..at + IP_HDR_LEN];
    assert header == frame.Contents()[..IP_HDR_LEN];
    if header[0] / 16 != 4 {
      iface.rxErrors := iface.rxErrors + 1;
      return false;
    }
    if header[8] == 0 {
      iface.rxDropped := iface.rxDropped + 1;
      return false;
    }
    var checksum := IpChecksum(header);
    if checksum != 0 {
      iface.rxErrors := iface.rxErrors + 1;
      return false;
    }
    iface.rxBytes := iface.rxBytes + frame.len;
    frame.data := frame.data + IP_HDR_LEN;
    frame.len := frame.len - IP_HDR_LEN;
    frame.layer := 4;
    ok := true;
  }

  // The whole path over one link: ip_send on one interface, then ethernet_receive and ip_receive of
  // the frame on the other. With headroom for both headers the payload, its addresses and its
  // protocol come out as they went in.
  method CarryOver(from: Interface, to: Interface, src: u32, dst: u32, protocol: byte, payload: Packet)
    returns (arrived: Packet)
    requires payload.Valid() && payload.data >= IP_HDR_LEN + ETH_HDR_LEN
    requires from != to && !from.errDisabled && !to.errDisabled
    modifies from, to, payload, payload.head
    ensures fresh(arrived) && arrived.Valid() && arrived.data >= IP_HDR_LEN
    ensures arrived.Contents() == old(payload.Contents()) && arrived.layer == 4
    ensures InfoOf(arrived.head[arrived.data - IP_HDR_LEN..arrived.data]) == IpInfo(src, dst, protocol)
    ensures from.txBytes == old(from.txBytes) + 2 * old(payload.len) + 54
    ensures to.rxBytes == old(to.rxBytes) + 2 * old(payload.len) + 40
    ensures unchanged(to`rxDropped, to`rxErrors)
  {
    hide EthHeader, IpHeader, DecodeEth, DecodeIp, InfoOf;
    FrameRoundTrip(from.mac, to.mac, to.mac, src, dst, protocol, payload.Contents());
    var sent := IpSend(from, to.mac, src, dst, protocol, payload, Some(Link(true, true, 0)), 0, true);
    arrived := sent.value.frame;
    var result, ethertype := EthernetReceive(to, arrived);
    var ok := IpReceive(to, arrived);
  }
}
