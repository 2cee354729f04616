/** ICMP messages of src/protocols/icmp.c: echo requests, the replies made from them, and the
    decision of icmp_receive. */
module Icmp {
  import opened Bytes
  import opened Checksum
  import opened Framing
  import opened Packet

  const ICMP_HDR_LEN := 8
  const ICMP_ECHO_REPLY: byte := 0
  const ICMP_DEST_UNREACH: byte := 3
  const ICMP_ECHO_REQUEST: byte := 8
  const ICMP_TIME_EXCEEDED: byte := 11

  // The message with its checksum field zeroed, and with the checksum stored.
  function Cleared(message: seq<byte>): (r: seq<byte>)
    requires |message| >= ICMP_HDR_LEN
    ensures |r| == |message|
  {
    StoreWord(message, 1, 0)
  }

  function Sealed(message: seq<byte>): (r: seq<byte>)
    requires |message| >= ICMP_HDR_LEN
    ensures |r| == |message|
  {
    StoreWord(Cleared(message), 1, NetChecksum(Cleared(message)))
  }

  function EchoMessage(kind: byte, id: u16, seqNum: u16, payload: seq<byte>): (r: seq<byte>)
    ensures |r| == ICMP_HDR_LEN + |payload|
  {
    Sealed([kind, 0] + Store16(0) + Store16(Swap16(id)) + Store16(Swap16(seqNum)) + payload)
  }

  function ReplyTo(request: seq<byte>): (r: seq<byte>)
    requires |request| >= ICMP_HDR_LEN
    ensures |r| == |request|
  {
    Sealed(request[0 := ICMP_ECHO_REPLY])
  }

  datatype Verdict = Malformed | Answer | Consumed | Unsupported

  function Judge(message: seq<byte>): Verdict {
    if |message| < ICMP_HDR_LEN || NetChecksum(message) != 0 then Malformed
    else if message[0] == ICMP_ECHO_REQUEST && message[1] == 0 then Answer
    else if message[0] == ICMP_ECHO_REPLY && message[1] == 0 then Consumed
    else if message[0] == ICMP_DEST_UNREACH && message[1] <= 4 then Consumed
    else if message[0] == ICMP_TIME_EXCEEDED && message[1] == 0 then Consumed
    else Unsupported
  }

  // Sealing touches the checksum alone, does not depend on what was in its place, and makes the
  // message verify.
  lemma SealedMessage(message: seq<byte>)
    requires ICMP_HDR_LEN <= |message| <= SAFE_LENGTH
    ensures var r := Sealed(message);
            && NetChecksum(r) == 0 && r[..2] == message[..2] && r[4..] == message[4..]
    ensures Sealed(Sealed(message)) == Sealed(message)
  {
    hide NetChecksum;
    var cleared := Cleared(message);
    StoredChecksumVerifies(cleared, 1);
    assert Cleared(Sealed(message)) == cleared;
  }

  // Any request that is accepted is answered by a message that is accepted, with the same
  // identifier, sequence number and payload bytes.
  lemma ReplyIsAccepted(request: seq<byte>)
    requires |request| <= SAFE_LENGTH && Judge(request) == Answer
    ensures Judge(ReplyTo(request)) == Consumed && ReplyTo(request)[4..] == request[4..]
  {
    hide NetChecksum, Sealed;
    SealedMessage(request[0 := ICMP_ECHO_REPLY]);
  }

  // A ping comes back: the request is accepted, and the reply to it is the echo reply with the
  // identifier, sequence number and payload of the request.
  lemma EchoIsAnswered(id: u16, seqNum: u16, payload: seq<byte>)
    requires ICMP_HDR_LEN + |payload| <= SAFE_LENGTH
    ensures var request := EchoMessage(ICMP_ECHO_REQUEST, id, seqNum, payload);
            && Judge(request) == Answer
            && ReplyTo(request) == EchoMessage(ICMP_ECHO_REPLY, id, seqNum, payload)
  {
    hide NetChecksum;
    var rest := Store16(0) + Store16(Swap16(id)) + Store16(Swap16(seqNum)) + payload;
    var bare := [ICMP_ECHO_REQUEST, 0] + rest;
    assert bare == [ICMP_ECHO_REQUEST, 0] + Store16(0) + Store16(Swap16(id)) + Store16(Swap16(seqNum)) + payload;
    SealedMessage(bare);
    var request := EchoMessage(ICMP_ECHO_REQUEST, id, seqNum, payload);
    assert request[0] == request[..2][0] && request[1] == request[..2][1];
    var answer := [ICMP_ECHO_REPLY, 0] + rest;
    assert answer == [ICMP_ECHO_REPLY, 0] + Store16(0) + Store16(Swap16(id)) + Store16(Swap16(seqNum)) + payload;
    assert Cleared(request[0 := ICMP_ECHO_REPLY]) == Cleared(answer);
  }

  // The message on the wire: type and code, then the checksum, identifier and sequence number in network
  // order, then the payload.
  lemma EchoBytes(kind: byte, id: u16, seqNum: u16, payload: seq<byte>)
    ensures var m := EchoMessage(kind, id, seqNum, payload);
            && m[..2] == [kind, 0] && BigEndian(m[4..6]) == id && BigEndian(m[6..8]) == seqNum && m[8..] == payload
  {
    hide NetChecksum, Swap16, BigEndian, Store16;
    var bare := [kind, 0] + Store16(0) + Store16(Swap16(id)) + Store16(Swap16(seqNum)) + payload;
    var m := EchoMessage(kind, id, seqNum, payload);
    assert m[..2] == bare[..2] && m[4..] == bare[4..];
    assert bare[4..] == Store16(Swap16(id)) + Store16(Swap16(seqNum)) + payload;
    assert m[4..6] == m[4..][..2] == Store16(Swap16(id));
    assert m[6..8] == m[4..][2..4] == Store16(Swap16(seqNum));
    assert m[8..] == m[4..][4..];
    StoredInNetworkOrder(id, 0);
    StoredInNetworkOrder(seqNum, 0);
  }

  // The kinds of message that are understood, by type and code.
  const CONSUMED: set<(int, int)> := {(0, 0), (3, 0), (3, 1), (3, 2), (3, 3), (3, 4), (11, 0)}

  // A message counts only when it is whole and verifies; then type and code decide.
  lemma VerdictByKind(message: seq<byte>)
    ensures Judge(message) == Malformed <==> |message| < 8 || NetChecksum(message) != 0
    ensures Judge(message) == Answer <==>
              8 <= |message| && NetChecksum(message) == 0 && (message[0], message[1]) == (8, 0)
    ensures Judge(message) == Consumed <==>
              8 <= |message| && NetChecksum(message) == 0 && (message[0] as int, message[1] as int) in CONSUMED
  {
    hide NetChecksum;
  }

  // A message with one wrong byte is rejected.
  lemma DamagedMessageIsRejected(message: seq<byte>, i: nat, b: byte)
    requires Judge(message) != Malformed && |message| <= SAFE_LENGTH && i < |message| && b != message[i]
    ensures Judge(message[i := b]) == Malformed
  {
    hide NetChecksum;
    ByteErrorIsDetected(message, i, b);
  }

  // icmp_send_echo_reply up to its call of ip_output; the copy of the request is a packet_create and
  // a memcpy in the C code, which is what packet_clone does.
  method BuildReply(request: Packet) returns (reply: Packet)
    requires request.Valid() && Judge(request.Contents()) == Answer
    ensures fresh(reply) && fresh(reply.head) && reply.Valid() && reply.layer == 4
    ensures reply.Contents() == ReplyTo(request.Contents())
    ensures reply.data >= IP_HDR_LEN + ETH_HDR_LEN
  {
    hide NetChecksum, StoreWord;
    reply := request.Clone();
    reply.layer := 4;
    reply.PutByte(0, ICMP_ECHO_REPLY);
    reply.PutWord(1, 0);
    assert reply.Contents() == Cleared(request.Contents()[0 := ICMP_ECHO_REPLY]);
    var checksum := IcmpChecksum(reply.head[reply.data..reply.data + reply.len]);
    reply.PutWord(1, checksum);
  }

  // icmp_receive up to the answer.
  method Receive(iface: Interface, pkt: Packet) returns (verdict: Verdict)
    requires pkt.Valid()
    modifies iface
    ensures verdict == if pkt.data < IP_HDR_LEN then Malformed else Judge(pkt.Contents())
    ensures iface.rxErrors == old(iface.rxErrors) + (if verdict == Malformed then 1 else 0)
    ensures iface.rxDropped == old(iface.rxDropped) + (if verdict == Unsupported then 1 else 0)
    ensures unchanged(iface`errDisabled, iface`txBytes, iface`rxBytes, iface`txErrors)
  {
    hide NetChecksum;
    if pkt.len < ICMP_HDR_LEN || pkt.data < IP_HDR_LEN {
      iface.rxErrors := iface.rxErrors + 1;
      return Malformed;
    }
    var message := pkt.head[pkt.data..pkt.data + pkt.len];
    var checksum := IcmpChecksum(message);
    if checksum != 0 {
      iface.rxErrors := iface.rxErrors + 1;
      return Malformed;
    }
    var kind, code := message[0], message[1];
    if kind == ICMP_ECHO_REQUEST {
      if code == 0 {
        return Answer;
      }
    } else if kind == ICMP_ECHO_REPLY {
      if code == 0 {
        return Consumed;
      }
    } else if kind == ICMP_DEST_UNREACH {
      if code == 0 || code == 1 || code == 2 || code == 3 || code == 4 {
        return Consumed;
      }
    } else if kind == ICMP_TIME_EXCEEDED {
      if code == 0 {
        return Consumed;
      }
    }
    iface.rxDropped := iface.rxDropped + 1;
    return Unsupported;
  }
}
