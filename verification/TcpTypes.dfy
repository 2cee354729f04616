/** The data of src/protocols/tcp.h: constants, wire segments and control blocks.
    A C struct is a datatype value; a `Tcb *` is an index into the table's array. */
module TcpTypes {
  import opened Wrappers
  import Bytes

  const TWO32 := Bytes.TWO32
  const TCP_MSS := 1460
  const TCP_MAX_CONNS := 64
  const TCP_MAX_INFLIGHT := 1
  const TCP_TIME_WAIT_US := 2 * 1000000

  type byte = Bytes.byte
  type u16 = Bytes.u16
  type u32 = Bytes.u32

  // Unsigned 32-bit addition, with the wrap-around of C.
  function Add32(x: u32, n: nat): u32 {
    (x + n) % TWO32
  }

  // The six flag bits that the receiver keeps.
  datatype Flags = Flags(fin: bool, syn: bool, rst: bool, psh: bool, ack: bool, urg: bool)

  const NO_FLAGS := Flags(false, false, false, false, false, false)
  const SYN := NO_FLAGS.(syn := true)
  const ACK := NO_FLAGS.(ack := true)
  const SYN_ACK := NO_FLAGS.(syn := true, ack := true)
  const PSH_ACK := NO_FLAGS.(psh := true, ack := true)
  const FIN_ACK := NO_FLAGS.(fin := true, ack := true)

  datatype Segment = Segment(seqNum: u32, ackNum: u32, flags: Flags, payload: seq<byte>)

  // The four-tuple, seen from the owner of the block.
  datatype Tuple = Tuple(localIp: u32, localPort: u16, remoteIp: u32, remotePort: u16)
  {
    function Mirror(): Tuple {
      Tuple(remoteIp, remotePort, localIp, localPort)
    }

    predicate Complete() {
      localIp != 0 && localPort != 0 && remoteIp != 0 && remotePort != 0
    }
  }

  datatype State =
    | Closed | Listen | SynSent | SynReceived | Established
    | FinWait1 | FinWait2 | CloseWait | Closing | LastAck | TimeWait

  // The single entry of the send queue; pkt is the clone kept for retransmission.
  datatype Slot = Slot(pkt: Option<Segment>, seqStart: u32, seqEnd: u32, flags: Flags,
                       sentTs: nat, retransmits: nat, acked: bool)

  const FREE_SLOT := Slot(None, 0, 0, NO_FLAGS, 0, 0, false)

  datatype Tcb = Tcb(valid: bool, tuple: Tuple, state: State,
                     sndUna: u32, sndNxt: u32, rcvNxt: u32,
                     slot: Slot, sendqCount: int)

  // A control block after memset(…, 0, …).
  const ZERO_TCB := Tcb(false, Tuple(0, 0, 0, 0), Closed, 0, 0, 0, FREE_SLOT, 0)

  // What a received segment made the receive side consume.
  datatype Taken = Nothing | PeerSyn | Data(bytes: seq<byte>, handedOver: bool) | PeerFin

  // Consumed is return 0; Errored and Dropped are return -1 with the interface counter raised.
  datatype Status = Consumed | Errored | Dropped

  datatype Reaction = Reaction(tcb: Tcb, out: seq<Segment>, taken: Taken, timeWait: bool, status: Status)

  // Result of a call from the application: ok is return 0.
  datatype Outcome = Outcome(tcb: Tcb, out: seq<Segment>, accepted: seq<byte>, ok: bool)
}
