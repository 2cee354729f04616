# FrameRunner: a verified model

FrameRunner is a discrete-event network simulator written in C. This project models its stateful
parts in Dafny and proves what they promise over all inputs, all runs and all reachable states.

| files | subject |
|---|---|
| `TcpTypes`, `TcpBlock`, `TcpLaws` | one TCP control block: its reaction to every segment, call and timer; the same by what can be observed, and how blocks are opened in a table |
| `TcpPair`, `TcpPairLimits` | two endpoints over a network that loses, duplicates and reorders segments; runs outside the assumptions |
| `TcpRecovery` | what is in flight between the two, and exactly what one retransmission repairs |
| `TcpTable`, `TcpHosts`, `TcpNetwork` | the table of 64 blocks updated in place, and two hosts with many connections |
| `TcpTimeWait` | TIME_WAIT timers on the scheduler |
| `TcpWire`, `Framing`, `Packet`, `Icmp`, `Checksum`, `Bytes` | segments as bytes, header push and pop on a headroom buffer, Internet checksums |
| `Prefixes`, `RouteSpec`, `RouteHistory`, `RouteRecord`, `RouteLimits`, `RouteTable` | routing: networks, what lookup has to answer, histories of operations and what they leave stored, the slot arrays |
| `EventQueue`, `Scheduler`, `HandlerLog`, `Simulator` | event queue, virtual clock, which handlers a run calls, the two run loops |
| `MacTable`, `MacHistory`, `SwitchAging` | MAC learning, what the table knows after any operations, and periodic aging on the scheduler |
| `ArpPending` | payloads waiting for address resolution |
| `Slots`, `Wrappers` | finding and counting used slots; optional values |

How the model is built:

- A C struct stored by value is a datatype; a struct whose functions update it in place is a class
  with the same fields. A pointer into a table is a slot index, an interface or payload pointer an
  identity, a null pointer `None`.
- Methods that update memory are proved against functions on values: the new state is stated as such
  a function of the old one. The theorems are about these functions, so they hold of the methods.
- The outcome of what lies outside is a parameter: whether a local send works (`sendOk`), whether
  growing the queue works (`reallocOk`), whether a link is ready, whether an `ip_send` works (`works`).
- Sequence numbers are 32 bits wide and wrap explicitly (`Add32`); so do the checksum sums, the route
  sequence counter and the age subtraction.

Assumptions of the stream theorems, with what breaks without them:

- Fewer than 2^32 bytes are accepted by each side (`TcpPair.Clean`). This is exact (`TcpPairLimits.SafeIffFewBytes`);
  `TcpBlock.AcknowledgeableIffNoWrap` gives the point at which a wrap stalls the sender for good.
- Each side opens one incarnation (`TcpPair.Clean`). This is exact too (`TcpPairLimits.SafeIffOneIncarnation`).
- Local sends of acknowledgements work. `rcv_nxt` moves before the ACK is sent, so delivery is exact if
  and only if no such send failed (`TcpPair.DeliveryIsExactPrefix`, `TcpPairLimits.FailedAckSkipsBytes`).
- Both sides registered a receive handler. Without one, `src/protocols/tcp.c:714-720` acknowledges in-order data
  and frees it; what the model calls delivered is then what a handler would have been given.

Where the code and its documentation disagree, the model follows the code:

- `src/engine/scheduler.h:86-89` says that a step lowers the event count by one; handlers may schedule,
  so `Scheduler.StepConserves` states the count with what they add.
- `src/network/switch.h:10` and `src/network/mac_table.h:8` give the aging times in milliseconds, but they
  are compared with the simulated clock, whose unit is the microsecond elsewhere; the bound of 330000 is
  in clock ticks.
- `tx_bytes` and `rx_bytes` are documented as totals (`src/network/interface.h:40-41`), but IP and
  Ethernet both add a packet's length, so each packet counts twice (`Packet.IpSend`, `Packet.CarryOver`).

Behaviour of the code that a caller may not expect, and that the model keeps:

- `tcp_send` returns 0 after taking at most 1460 bytes of a longer buffer, as
  `documentation/specifications/17_tcp.md:557` says; the stream theorems count the bytes it took.
- A retransmitted FIN is answered only while the receiver is ESTABLISHED or in FIN_WAIT_2 and still expects it, and a
  retransmitted SYN-ACK only in SYN_SENT (`TcpRecovery.RetransmissionRepairsIff`): the ACK of either is sent once,
  and when it is lost only a later segment can carry its number.
- A listener is the first slot that matches, so a wildcard listener in an earlier slot wins over a
  specific one.
- The ARP queue is not first in, first out (`ArpPending.SentLastIff`).

## Model

| member | source | states |
|---|---|---|
| TcpPair.RunIsSafe | src/protocols/tcp.c:461-945 | After every run of one incarnation per side with fewer than 2^32 bytes accepted by each: both blocks, both wires and both streams satisfy the safety invariant |
| TcpPair.StepKeepsSafe | src/protocols/tcp.c:461-1113 | Every call, delivery or timer on either side keeps that invariant |
| TcpPair.MoveKeepsEnds | src/protocols/tcp.c:461-1113 | One move of one endpoint, against an arbitrary peer in the invariant, keeps it and sends only segments that describe its own past |
| TcpPair.EstablishedKeepsEnds | src/protocols/tcp.c:673-775 | ESTABLISHED: acknowledgement, payload and FIN of any segment the peer ever sent keep both streams |
| TcpPair.DeliveryIsExactPrefix | src/protocols/tcp.c:686-720 | The receive handler has seen exactly the peer's stream up to rcv_nxt, in order and once, if and only if no acknowledgement of in-order data failed to be sent locally |
| TcpPair.DeliveryIsPrefix | src/protocols/tcp.c:686-720 | With working local sends, delivered bytes are a prefix of the bytes that tcp_send accepted, in both directions, over loss, duplication and reordering |
| TcpPair.WindowIsSound | src/protocols/tcp.c:656-682 | While neither side has used the last sequence number: snd_una <= peer's rcv_nxt <= snd_nxt on both sides, and no acknowledgement on the wire exceeds its sender's rcv_nxt; snd_una <= snd_nxt holds of a side exactly until it has used it |
| TcpPair.FinMeansWholeStream | src/protocols/tcp.c:745-768 | Who is in CLOSE_WAIT, LAST_ACK or TIME_WAIT has received the peer's whole stream |
| TcpPair.CloseMeansAllReceived | src/protocols/tcp.c:1024-1064 | When tcp_close succeeds the peer has already received every byte the closer sent, and delivered it unless an acknowledgement failed to be sent locally |
| TcpPair.HistoryIsKept | src/protocols/tcp.c:461-1113 | Delivered and accepted bytes are never taken back; the wire only grows |
| TcpPairLimits.SecondIncarnationRedelivers | src/protocols/tcp.c:423-424 | A concrete run: initial sequence number 0 lets late duplicates reopen a closed connection and deliver a byte twice |
| TcpPairLimits.FailedAckSkipsBytes | src/protocols/tcp.c:687-704 | A concrete run: a failed local ACK loses a byte for good and delivery goes on behind the hole |
| TcpPairLimits.WrapRedelivers | src/protocols/tcp.c:687-688 | A run of 2^32 bytes in one incarnation with working sends: after the wrap a late duplicate of the first segment is delivered again |
| TcpPairLimits.SafeIffOneIncarnation | src/protocols/tcp.c:686-720 | With working local sends and without wrap, all runs of at most k incarnations per side deliver prefixes if and only if k <= 1 |
| TcpPairLimits.SafeIffFewBytes | src/protocols/tcp.c:686-720 | With working local sends and one incarnation, all runs with at most n bytes accepted per side deliver prefixes if and only if n < 2^32 |
| TcpRecovery.RetransmissionRepairsIff | src/protocols/tcp.c:1073-1113 | In every clean state of the pair: after the queued segment is sent again, reaches the peer and the answer comes back, it is acknowledged if and only if the peer has no block (SYN), is in SYN_SENT (SYN-ACK), is ESTABLISHED (data), or still expects the FIN and is ESTABLISHED or in FIN_WAIT_2, before numbers wrapped; whatever was lost, and whether or not the peer had it already |
| TcpRecovery.DataIsRepaired | src/protocols/tcp.c:686-742 | Between two ESTABLISHED sides one retransmission brings over every byte accepted so far, empties the queue, and the next tcp_send takes its data |
| TcpRecovery.RunKeepsFlight | src/protocols/tcp.c:80-126 | In every clean state the queued segment reaches from snd_una to the end of what was sent, all other data is acknowledged, the peer has all of it or nothing, and no acknowledgement was ever for a part |
| TcpLaws.DataIsAlwaysAnswered | src/protocols/tcp.c:684-742 | Data for an ESTABLISHED block is answered by one ACK of its rcv_nxt after the step, in order or not; exactly payload in order is delivered, as it came |
| TcpLaws.WhatIsAnswered | src/protocols/tcp.c:614-940 | For any segment: at most one pure ACK with the numbers after the step, exactly when something was consumed or data came while ESTABLISHED and the local send works |
| TcpLaws.WhatIsConsumed | src/protocols/tcp.c:614-940 | For any segment: when the peer's SYN, data or FIN is consumed, and rcv_nxt moves by exactly that |
| TcpLaws.WhatIsAcknowledged | src/protocols/tcp.c:614-940 | For any segment: which acknowledgement counts in which state; it moves snd_una and frees a covered segment, and nothing else touches the send side |
| TcpLaws.WhichStateIsEntered | src/protocols/tcp.c:614-940 | For any segment: which state is entered when; in LAST_ACK the acknowledgement of the FIN ends the connection and anything else changes nothing |
| TcpLaws.WhatIsDropped | src/protocols/tcp.c:931-945 | Exactly which segments end with the drop counter and -1 |
| TcpLaws.CallsThatSend | src/protocols/tcp.c:964-1068 | A call that sends queues exactly what it sent: number, bytes, flags, time; the new snd_nxt and state |
| TcpLaws.RefusedCalls | src/protocols/tcp.c:947-1043 | A refused tcp_send, tcp_close or retransmission changes and sends nothing |
| TcpLaws.RetransmissionRepeats | src/protocols/tcp.c:1088-1106 | A retransmission sends the queued segment itself and changes only its counter and time |
| TcpLaws.SynOpensIff | src/protocols/tcp.c:538-606 | A segment of no connection opens one exactly when it is a SYN, somebody listens on the port for its address or for all, a slot is free and the SYN-ACK goes out; block, slot, SYN-ACK and its acknowledgement number; otherwise nothing changes |
| TcpLaws.ConnectOpensIff | src/protocols/tcp.c:392-459 | tcp_connect opens a block in the first free slot exactly for a complete, new four-tuple with a free slot and a working send; otherwise nothing changes |
| TcpLaws.ListenLaw | src/protocols/tcp.c:355-389 | When tcp_listen succeeds, and for which addresses and ports somebody listens afterwards |
| TcpLaws.ListenThenSyn | src/protocols/tcp.c:151-169 | After tcp_listen a SYN is accepted exactly on that port and address, any address for 0, besides where it was before |
| TcpLaws.ConnectionReceives | src/protocols/tcp.c:538-540 | A segment of a connection goes to its block alone; table, count, answers, timer request and status |
| TcpBlock.BlockRunKeepsInvariant | src/protocols/tcp.c:80-126 | Under any calls and arbitrary segments: sendq.count counts the occupied slot, the queue is non-empty iff snd_una < snd_nxt, the segment in flight ends at snd_nxt |
| TcpBlock.SegmentKeeps | src/protocols/tcp.c:614-940 | No segment whatsoever breaks the window invariant of a block or moves its snd_nxt |
| TcpBlock.StateOnlyClimbs | src/protocols/tcp.c:614-940 | Between any two points of any run a block keeps its state or climbs in a fixed rank, until released for good; CLOSING is never entered |
| TcpBlock.AdvancingAckEndsFin | src/protocols/tcp.c:780-801 | In FIN_WAIT_1 and LAST_ACK the first advancing acknowledgement finds the FIN acknowledged; anything else changes nothing |
| TcpBlock.CallsSucceedIffAcknowledged | src/protocols/tcp.c:947-1071 | tcp_send and tcp_close succeed exactly when state allows, everything is acknowledged and the local send works; a segment that went out is always tracked |
| TcpBlock.AcknowledgeableIffNoWrap | src/protocols/tcp.c:678-681 | After a send some segment, or any run whatsoever, can empty the queue if and only if snd_nxt did not pass 2^32 |
| TcpBlock.StallIsForGood | src/protocols/tcp.c:678-681 | A block whose send wrapped stays stalled under every further sequence of segments, calls and timers: nothing is acknowledged, accepted or closed |
| TcpBlock.OpenedBlockOk | src/protocols/tcp.c:392-459 | Opening succeeds exactly when the local send works, and yields a block in the invariant |
| TcpTable.TcpTable.constructor | src/protocols/tcp.c:346-352 | An empty table |
| TcpTable.TcpTable.Alloc | src/protocols/tcp.c:5-19 | Takes the first unused slot, clears it and counts it; nothing changes when the table is full |
| TcpTable.TcpTable.Release | src/protocols/tcp.c:21-36 | Zeroes the slot and lowers the count |
| TcpTable.TcpTable.FindExact | src/protocols/tcp.c:128-149 | The first connected block with the four-tuple |
| TcpTable.TcpTable.FindListener | src/protocols/tcp.c:151-169 | The first listener for the port on the address or on any address |
| TcpTable.TcpTable.TrackSegment | src/protocols/tcp.c:80-110 | Stores the clone in the one queue slot, or changes nothing when it is taken |
| TcpTable.TcpTable.AckSegments | src/protocols/tcp.c:112-126 | Frees the slot when the acknowledgement covers its end |
| TcpTable.TcpTable.ListenCall | src/protocols/tcp.c:355-389 | Fails for port 0, a known listener or a full table without a trace; otherwise adds one listener |
| TcpTable.TcpTable.ConnectCall | src/protocols/tcp.c:392-459 | Whole new table and SYN, or the unchanged table on every failure, failed sends included |
| TcpTable.TcpTable.OpenBlockReceives | src/protocols/tcp.c:614-775 | The in-place switch equals the block's reaction in SYN_SENT, SYN_RECEIVED and ESTABLISHED |
| TcpTable.TcpTable.ClosingBlockReceives | src/protocols/tcp.c:777-940 | The same for the closing states, with release and TIME_WAIT entry |
| TcpTable.TcpTable.ListenerReceives | src/protocols/tcp.c:550-606 | A SYN for a listener opens a child block, or leaves the table as it was |
| TcpTable.TcpTable.ReceiveDatagram | src/protocols/tcp.c:538-945 | New table, answers, slot, consumed bytes, timer request and status of tcp_receive |
| TcpTable.TcpTable.SendCall | src/protocols/tcp.c:947-1012 | tcp_send on a block of the table |
| TcpTable.TcpTable.CloseCall | src/protocols/tcp.c:1015-1071 | tcp_close on a block of the table |
| TcpTable.TcpTable.RetransmitCall | src/protocols/tcp.c:1073-1113 | The kept clone goes out again byte for byte; stale slots do nothing |
| TcpTable.TcpTable.TimeWaitCall | src/protocols/tcp.c:328-344 | Releases the block exactly when it is valid and in TIME_WAIT |
| TcpHosts.TableStepKeepsInv | src/protocols/tcp.c:128-169 | Every operation keeps: count is the number of valid blocks, four-tuples of connections and addresses of listeners are distinct |
| TcpHosts.FindExactIsOrderFree | src/protocols/tcp.c:128-149 | Under that invariant the answer does not depend on slot order |
| TcpHosts.StepIsMove | src/protocols/tcp.c:461-1113 | Seen through one four-tuple, a step of the whole table is one move of the endpoint in TcpPair |
| TcpHosts.StepLeavesOthers | src/protocols/tcp.c:461-1113 | A step about one connection changes no other connection |
| TcpHosts.SendsOnlyForSubject | src/protocols/tcp.c:171-240 | Everything a step sends belongs to the connection it is about |
| TcpNetwork.NetRunsAsPair | src/protocols/tcp.c:461-1113 | Every run of two hosts with full tables is, per connection, a run of the endpoint pair |
| TcpNetwork.HostStreamsAreSafe | src/protocols/tcp.c:686-720 | Stream safety for every connection between two hosts that also talk to others, whose local sends may fail |
| TcpNetwork.HostWindowsAreSound | src/protocols/tcp.c:656-682 | The window of every connection between two hosts with full tables is sound until an end has wrapped, local send failures included |
| TcpNetwork.HostFinMeansWholeStream | src/protocols/tcp.c:745-768 | Per connection: whoever is in CLOSE_WAIT, LAST_ACK or TIME_WAIT has been handed the whole stream of the peer |
| TcpNetwork.HostCloseMeansAllReceived | src/protocols/tcp.c:1024-1064 | Per connection: when tcp_close succeeds the handler of the peer has been handed every byte sent |
| TcpNetwork.TablesStayConsistent | src/protocols/tcp.c:5-36 | The table invariant after every run, forged datagrams included |
| TcpTimeWait.TimersAreNeverStale | src/protocols/tcp.c:825-842 | In every run from a table without connections: each pending timer refers to a block in TIME_WAIT, each such block has exactly one, and only the dispatch of its own timer ends TIME_WAIT, exactly 2000000 after entry |
| TcpTimeWait.TurnsKeepTimers | src/protocols/tcp.c:825-842 | The same over all runs from any state in which it holds |
| TcpTimeWait.TurnKeepsTimers | src/protocols/tcp.c:328-344 | One dispatch, call, segment or foreign event keeps that, and takes no block out of TIME_WAIT but the one whose timer it dispatches |
| TcpTimeWait.OnlySegmentsEnter | src/protocols/tcp.c:825-826 | A block enters TIME_WAIT exactly by a segment that asks for a timer, and no operation but expiry takes it out |
| TcpTimeWait.TcpHandlersExist | src/protocols/tcp.c:825-842 | The handler assumptions of these theorems are met by a simulation that receives any chosen datagrams and arms the timers they ask for |
| TcpWire.HeaderBytes | src/protocols/tcp.c:203-213 | The header byte by byte: ports and numbers most significant byte first, five words, each flag at its bit, constant window, no checksum |
| TcpWire.ParsedBytes | src/protocols/tcp.c:486-536 | From any bytes: exactly when they are parsed, why not, and that the fields are read where they stand in network order |
| TcpWire.SegmentRoundTrip | src/protocols/tcp.c:203-215 | Parsing the header that tcp_send_segment writes gives back ports, numbers, flags and payload, with the four-tuple as the peer sees it |
| TcpWire.DatagramCrossesStack | src/protocols/tcp.c:510-536 | Through TCP, IP and Ethernet the addressed host reads exactly the datagram |
| TcpWire.FramesDetermineDatagrams | src/protocols/tcp.c:203-218 | No two datagrams share a frame, so a wire of frames is a wire of datagrams |
| TcpWire.BuildSegment | src/protocols/tcp.c:171-218 | Refuses more than 1460 bytes; otherwise a packet with these bytes and headroom for both lower headers |
| TcpWire.ReadSegment | src/protocols/tcp.c:486-536 | The checks and fields of tcp_receive, read in place from the buffer and the IP header left in front |
| TcpWire.Deliver | src/protocols/tcp.c:171-240 | A segment of at most 1460 bytes sent by one host is the datagram the other reads |
| Packet.Packet.constructor | src/network/packet.c:9-29 | An empty packet behind 64 bytes of headroom |
| Packet.Packet.Prepend | src/network/packet.c:40-52 | Succeeds exactly when the headroom suffices; then header + old contents, nothing else moved |
| Packet.Packet.Strip | src/network/packet.c:55-65 | Succeeds exactly within the length; the stripped header stays readable in front |
| Packet.Packet.Clone | src/network/packet.c:67-79 | A separate packet with the same bytes and layer and fresh headroom |
| Packet.Transmit | src/network/link.c:61-99 | Exactly when link and peer are up and memory is found, an independent copy is on its way, to be delivered after the delay of the link |
| Packet.EthernetSend | src/protocols/ethernet.c:37-76 | Sends exactly when enabled, with headroom and link ready; the frame bytes, delivery time, layer and all counters, on failures too |
| Packet.IpSend | src/protocols/ip.c:167-202 | Sends exactly with headroom 34, enabled and ready; the frame bytes, and what a partial failure leaves in the payload |
| Packet.EthernetReceive | src/protocols/ethernet.c:78-107 | Accepts own and broadcast addresses, and on any other outcome changes nothing |
| Packet.IpReceive | src/protocols/ip.c:115-158 | Which of length, version, TTL and checksum rejects, with which counter; on acceptance payload and header are where handlers expect them |
| Packet.CarryOver | src/protocols/ip.c:167-202 | ip_send, link, ethernet_receive and ip_receive together give back payload, addresses and protocol |
| Framing.StoredInNetworkOrder | src/common/byte_order.h:38-54 | What is swapped and stored lies in memory most significant byte first |
| Framing.LoadedFromNetworkOrder | src/common/byte_order.h:44-60 | What is loaded and swapped is the number that lies in memory most significant byte first |
| Framing.EthBytes | src/protocols/ethernet.c:57-59 | Destination, source and EtherType stand in the frame in this order, the type in network order |
| Framing.EthVerdict | src/protocols/ethernet.c:78-107 | For any frame: too short, for somebody else, or accepted with the type and body that stand in it |
| Framing.IpHeaderBytes | src/protocols/ip.c:178-189 | Version, length, TTL, protocol and addresses of the header byte by byte, in network order |
| Framing.AcceptedIff | src/protocols/ip.c:115-150 | For any packet: exactly when ip_receive accepts it, each cause of rejection, and the fields it reads |
| Framing.DamagedHeaderIsRejected | src/protocols/ip.c:138-142 | A packet that was accepted is rejected after a change of any one byte of its header |
| Framing.EthRoundTrip | src/protocols/ethernet.c:52-97 | A frame is accepted exactly by the addressed interface or as broadcast, with its EtherType and body |
| Framing.IpRoundTrip | src/protocols/ip.c:178-189 | The header ip_send writes verifies to 0 and gives back addresses, protocol and payload |
| Framing.FrameRoundTrip | src/protocols/ip.c:115-202 | Both layers together |
| Checksum.PacketChecksum | src/network/packet.c:81-99 | The host-order loop computes the complement of the folded sum, for odd and even lengths |
| Checksum.IcmpChecksum | src/protocols/icmp.c:284-304 | The network-order loop, with its swap at the end |
| Checksum.IpChecksum | src/protocols/ip.c:254-270 | The same function over the ten words of an IP header |
| Checksum.Fold | src/network/packet.c:94-96 | Carry folding ends with the one's complement sum: congruent mod 65535, 0 only for 0 |
| Checksum.ChecksumsAgree | src/protocols/icmp.c:284-304 | packet_checksum and icmp_checksum agree on all data up to 131074 bytes |
| Checksum.LongerDataDisagrees | src/network/packet.c:81-99 | Beyond that there is data of every length on which the 32-bit sum overflows and they differ |
| Checksum.AgreeIffShort | src/network/packet.c:81-99 | The two functions agree on all data of a given length if and only if it is at most 131074 |
| Checksum.StoredChecksumVerifies | src/protocols/icmp.c:201-201 | Storing the checksum in its zeroed field makes the message verify to 0, for any even offset |
| Checksum.VerifiesIff | src/protocols/icmp.c:284-304 | Data verifies exactly when the sum of its words is a non-zero multiple of 65535 |
| Checksum.ByteErrorIsDetected | src/protocols/icmp.c:284-304 | Every change of one byte in data that verifies is detected, at any position and odd lengths included |
| Icmp.ReplyIsAccepted | src/protocols/icmp.c:249-264 | Every accepted echo request is answered by a message that is accepted, with the same identifier, number and payload |
| Icmp.EchoIsAnswered | src/protocols/icmp.c:165-205 | The reply to an echo request is the echo reply with its identifier, number and payload |
| Icmp.EchoBytes | src/protocols/icmp.c:185-198 | The echo message on the wire field by field, identifier and sequence number in network order |
| Icmp.VerdictByKind | src/protocols/icmp.c:120-162 | For any message: malformed exactly when short or not verifying, and else by type and code |
| Icmp.DamagedMessageIsRejected | src/protocols/icmp.c:120-124 | A message that was not malformed is after a change of any one byte |
| Icmp.SealedMessage | src/protocols/icmp.c:254-258 | Storing the checksum touches its field alone and does not depend on what stood there |
| Icmp.BuildReply | src/protocols/icmp.c:207-264 | The reply packet built in place has these bytes |
| Icmp.Receive | src/protocols/icmp.c:82-163 | Which messages are rejected, answered, consumed or unsupported, and which counter moves |
| Bytes.SwapsAreInverse | src/common/byte_order.h:20-36 | Both byte swaps undo themselves |
| Bytes.ShiftsReverseBytes | src/common/byte_order.h:20-36 | The shift and mask expressions reverse the bytes of a word |
| Bytes.SwapsAreShifts | src/common/byte_order.h:20-36 | On the numbers that machine words stand for, Swap16 and Swap32 do what the shift and mask expressions do to the words |
| RouteRecord.StoredIsLastAdded | src/routing/route_table.c:44-199 | After any operations a key is stored exactly when its last addition that was taken has not been deleted or flushed since, with the next hop, interface and metric of that addition |
| RouteRecord.OpEffect | src/routing/route_table.c:44-199 | What one operation does to one key, its age included |
| RouteRecord.Refused | src/routing/route_table.c:54-107 | A refused addition changes nothing, not even the next age |
| RouteRecord.AdditionsAreNewKeys | src/routing/route_table.c:77-89 | Sequence numbers are used up exactly by additions of a key that was not stored |
| RouteRecord.DistancesRank | src/routing/route_table.c:14-33 | Direct, static, BGP, EIGRP, OSPF, IS-IS, RIP are ranked in this order and all other protocols last |
| RouteRecord.BestRouteWins | src/routing/route_table.c:238-254 | No covering route is longer than the best; among equals none has a lower distance, then a lower metric, and none is older |
| RouteHistory.LookupAfterHistory | src/routing/route_table.c:139-175 | After any history of fewer than 2^32 additions the best slot is the longest match, then lowest distance, metric and age, over all stored routes; there is one exactly when some route covers the destination |
| RouteHistory.SlotOrderIsIrrelevant | src/routing/route_table.c:139-175 | Two slot arrangements of one history answer alike |
| RouteHistory.HistoryAges | src/routing/route_table.c:77-101 | After every history of any length, the age of a stored route is the number of the addition that made it, in 32 bits; at most 256 routes are stored |
| RouteHistory.FewAdditionsKeepOrder | src/routing/route_table.c:77-101 | With fewer than 2^32 additions ages are distinct and compare as the order of the additions |
| RouteLimits.OrderIffFewAdditions | src/routing/route_table.c:77-101 | Every history of n additions keeps ages in the order of the additions if and only if n < 2^32 |
| RouteLimits.WrappedAgesTie | src/routing/route_table.c:88-88 | A history of 2^32 + 1 additions after which two stored routes have the same age and none is best by content |
| RouteHistory.BestMatchIsBestRoute | src/routing/route_table.c:241-254 | With distinct ages the slot tie-break never decides |
| RouteHistory.BestIsInnermost | src/routing/route_table.c:145-174 | The network of the best route lies inside every stored network that covers the address |
| Prefixes.LongerIsInside | src/routing/route_table.c:4-12 | Of two networks that share an address the longer lies inside the shorter |
| Prefixes.BlockSize | src/routing/route_table.c:4-12 | The zero bits of a mask are the lowest 32 - len |
| Prefixes.CoversSameBits | src/routing/route_table.c:4-12 | The network of an address covers exactly the addresses with the same first len bits: all for 0, itself for 32 |
| RouteTable.AnswerAfter | src/routing/route_table.c:44-175 | Any operations with fewer than 2^32 additions on a new table followed by a lookup in memory: nothing exactly when no stored route covers the destination, else the entry of the best route, with the next hop, interface and metric that the last addition of its key gave |
| RouteTable.RouteTable.constructor | src/routing/route_table.c:35-42 | The empty table, next sequence 1 |
| RouteTable.RouteTable.AddEntry | src/routing/route_table.c:44-108 | Bad input refused; on success the key has exactly the given next hop, interface and metric, a known one keeps its age, and no other key is affected; a new one is refused when 256 are stored; RIB and FIB coherent after |
| RouteTable.RouteTable.DeleteEntry | src/routing/route_table.c:110-137 | Removes exactly the given (network, protocol), -1 when absent; RIB and FIB coherent after |
| RouteTable.RouteTable.FlushProto | src/routing/route_table.c:177-199 | Removes exactly the routes of the protocol and returns their number |
| RouteTable.RouteTable.RebuildFib | src/routing/route_table.c:202-295 | The nested loop yields, packed, one copy of the best candidate per network, marks exactly those selected, and always finds a free slot, so the rollback of an addition never runs |
| RouteTable.RouteTable.Challenge | src/routing/route_table.c:238-272 | A candidate takes over its network exactly when preferred to the installed one |
| RouteTable.RouteTable.OpenNetwork | src/routing/route_table.c:274-291 | A candidate of a new network takes the next slot |
| RouteTable.RouteTable.Lookup | src/routing/route_table.c:139-175 | The scan of the FIB returns the best match over the whole RIB, none exactly when nothing matches |
| RouteSpec.LongestIsBest | src/routing/route_table.c:153-172 | In a coherent table the longest cover in the FIB is the best match in the RIB |
| RouteSpec.TakeOver | src/routing/route_table.c:256-269 | Replacing the installed entry keeps the FIB the best of the candidates seen |
| RouteSpec.PreferredIsTotalOrder | src/routing/route_table.c:241-254 | Distance, metric, sequence and slot order candidates totally |
| EventQueue.QueueIsStablePriorityQueue | src/engine/event.c:83-115 | Any interleaving of pushes and pops serves what a stable priority queue serves and conserves the events |
| EventQueue.PopIsFirst | src/engine/event.c:106-115 | Popping the sorted array removes the earliest event, the first pushed among equals |
| EventQueue.InsertKeepsOrder | src/engine/event.c:94-101 | Insertion keeps the array sorted |
| EventQueue.EventQueue.PushEvent | src/engine/event.c:83-103 | Growth by doubling and stable insertion; fails without a trace exactly when full and not growable |
| EventQueue.EventQueue.Place | src/engine/event.c:94-101 | The shifting loop is stable insertion |
| EventQueue.EventQueue.PopEvent | src/engine/event.c:106-115 | Removes the head in place, nothing on an empty queue |
| EventQueue.EventQueue.Peek | src/engine/event.c:118-123 | The head, unchanged queue |
| Scheduler.OnTimeDispatch | src/engine/scheduler.c:62-83 | Whatever handlers schedule, the past included: of the c copies of a pending event that is not overdue, o were dispatched exactly at its timestamp and c - o are pending and not overdue, or all were dispatched on time |
| Scheduler.EveryCopyDispatched | src/engine/scheduler.c:62-83 | Once the clock is past the event or the queue is empty, every copy has been dispatched exactly on time |
| Scheduler.ClassIsOnTime | src/engine/scheduler.c:62-83 | If no handler schedules events of a class late, none is ever dispatched late, whatever else is scheduled |
| Scheduler.ClockIsMonotone | src/engine/scheduler.c:68-70 | The clock never runs backwards |
| Scheduler.ClockIsLatest | src/engine/scheduler.c:68-70 | The clock is the latest timestamp dispatched, or the time of the start |
| HandlerLog.RunIsItsCalls | src/engine/scheduler.c:62-83 | For any handlers and any number of steps: each dispatched event calls its own callback, else the handler registered for its type in range, else nobody; the world is what these calls made of it in this order, a run goes on unless one stopped it, and events of one time are dispatched in the order of their scheduling |
| HandlerLog.LogIsCalls | src/engine/scheduler.c:72-80 | Handlers that log leave exactly these calls, in order |
| Scheduler.StepConserves | src/engine/scheduler.c:62-83 | A step removes the dispatched event and adds exactly what its handler scheduled |
| Scheduler.RunConserves | src/engine/scheduler.c:85-92 | Over a run, the events at the start and those scheduled are, as multisets, those dispatched and those pending |
| Scheduler.Scheduler.Schedule | src/engine/scheduler.c:55-60 | Stable insertion into the queue, nothing else changed |
| Scheduler.Scheduler.StepOnce | src/engine/scheduler.c:62-83 | One dispatch in memory equals one step of the model |
| Scheduler.Scheduler.Run | src/engine/scheduler.c:85-92 | The run loop, for runs that end |
| Simulator.BoundedRunIsShortestPrefix | src/engine/simulator.c:32-47 | A run with end time dispatches the shortest non-empty prefix of the unbounded run after which it has to stop |
| Simulator.ResumedRunCompletes | src/engine/simulator.c:32-47 | Running again without limit completes the same trace and final state |
| Simulator.BoundedRunContinues | src/engine/simulator.c:32-47 | Also when the simulation never ends: after a bounded run, any number of further dispatches continue the trace and states of the unbounded run |
| Simulator.TwoRunsOrOne | src/engine/simulator.c:32-47 | A run to t1 and a run to t2 dispatch as many events as one run to t2, or one more exactly when the clock had already reached t2 with events left |
| Simulator.PastTheEnd | src/engine/simulator.c:35-44 | A run whose end time has passed still dispatches exactly one event |
| Simulator.UnboundedRun | src/engine/simulator.c:35-44 | Without end time the run dispatches until the queue is empty |
| Simulator.RunEndsIff | src/engine/simulator.c:35-44 | The loop ends if and only if some dispatch empties the queue, stops the run or reaches the end time |
| Simulator.RunLoopsAgree | src/engine/simulator.c:32-47 | The two run loops do the same without end time, also when they run for ever |
| Simulator.Simulator.Run | src/engine/simulator.c:32-47 | The loop in memory equals the model, for runs that end |
| MacTable.MacTable.LearnAddress | src/network/mac_table.c:13-41 | Puts address, port and time into the entry of the address or the first free slot, touches no other slot; count stays exact |
| MacTable.MacTable.Lookup | src/network/mac_table.c:43-55 | The port of the address |
| MacTable.MacTable.AgeEntries | src/network/mac_table.c:57-68 | Invalidates exactly the entries older than the limit; count stays exact |
| MacTable.MacTable.Flush | src/network/mac_table.c:70-82 | Invalidates exactly the entries behind the port; count stays exact |
| MacHistory.EntryIsLastLearned | src/network/mac_table.c:13-82 | After any operations the table knows an address with exactly the port and time that last learned it, until a flush of that port or an aging pass more than 300000 later |
| MacHistory.LookupAfter | src/network/mac_table.c:43-55 | The same in memory: what lookup returns after any operations on a new table |
| MacHistory.LearnMoves | src/network/mac_table.c:22-40 | Learning succeeds exactly for a known address or with a free slot; the address is then on the given port, and no other address is affected |
| MacHistory.FlushForgets | src/network/mac_table.c:70-82 | A flush forgets exactly the addresses on the port |
| MacHistory.AgingForgets | src/network/mac_table.c:57-68 | An aging pass forgets exactly the addresses learned more than 300000 before |
| MacHistory.SwitchRunIsHistory | src/network/switch.c:5-27 | The table of a running switch is that of the frames learned, ports flushed and aging passes of the run, each at its time |
| SwitchAging.NoStaleEntry | src/network/switch.c:5-27 | At every moment of every run every entry was learned in the past and is at most 330000 old |
| SwitchAging.AgingAlwaysPending | src/network/switch.c:5-27 | After switch_create there is always exactly one aging event, at most one interval away |
| SwitchAging.TurnKeepsAging | src/network/switch.c:128-128 | Learning, flushing, aging and foreign events keep that |
| SwitchAging.AgeKeepsEntries | src/network/mac_table.c:62-67 | An aging pass leaves nothing older than the limit, and its unsigned subtraction is exact |
| SwitchAging.SwitchHandlersExist | src/network/switch.c:5-27 | The handler assumptions of these theorems are met by a simulation that ages and learns any chosen frames |
| ArpPending.OwnershipIsConserved | src/protocols/arp_cache.c:63-134 | Over any enqueues and flushes: what was taken over = pending + handed on + freed, each exactly once, as payloads or with all their arguments, and pending_count is exact |
| ArpPending.EachPayloadOnce | src/protocols/arp_cache.c:63-134 | A payload enqueued once is in exactly one of these places |
| ArpPending.SentAsAsked | src/protocols/arp_cache.c:63-134 | What is pending, sent or dropped is what was enqueued, with the same target, interface, addresses, protocol and payload |
| ArpPending.FlushSendsWhatWorks | src/protocols/arp_cache.c:100-131 | A flush sends exactly the waiting jobs whose ip_send works and drops exactly the others |
| ArpPending.EnqueueKeepsLedger | src/protocols/arp_cache.c:63-89 | An enqueue succeeds exactly for valid arguments and fewer than 32 pending |
| ArpPending.FlushIsExact | src/protocols/arp_cache.c:100-131 | A flush removes exactly the entries of its target |
| ArpPending.CountIsPositive | src/protocols/arp_cache.c:116-118 | The guard that keeps pending_count from going below zero never matters |
| ArpPending.SentLastIff | src/protocols/arp_cache.c:74-84 | A packet enqueued now is sent after all that already wait for its target if and only if none of those sits behind the first free slot |
| ArpPending.OvertakingIsReachable | src/protocols/arp_cache.c:74-84 | Two enqueues and a flush reach a queue in which the next packet overtakes |
| ArpPending.PendingQueue.constructor | src/protocols/arp_cache.c:9-15 | The empty queue |
| ArpPending.PendingQueue.EnqueuePacket | src/protocols/arp_cache.c:63-89 | First free slot, or no change on every failure |
| ArpPending.PendingQueue.FlushTarget | src/protocols/arp_cache.c:91-134 | New queue, successful sends in slot order and their number |

## Left out

- TCP liveness: that a retransmission is ever received is not claimed, only what it repairs when it is (TcpRecovery.RetransmissionRepairsIff); SYN_RECEIVED arms no timer, and CLOSE_WAIT ignores retransmitted FINs.
- TCP window, checksum, RST and urgent fields: written as constants and never read; retransmit_ts, snd_wnd and rcv_wnd are written and never read.
- Retransmission timing: a retransmission may happen at any moment of a run, which covers every timer schedule.
- Send queues longer than one: `TCP_MAX_INFLIGHT` is 1, and the queue array is modelled as its one entry.
- Application callbacks are recorded, not run; callbacks that call back into TCP, and handlers that register handlers, are not modelled.
- Scheduler.Scheduler.Run: requires that the run ends within some number of steps, because the loop of the source need not end; Simulator.RunEndsIff says exactly when it does.
- Simulator.Simulator.Run: requires the same.
- Allocation failure where the source goes on without a timer or an event: timers are always armed, handlers always find memory.
- EventQueue.EventQueue.constructor: does not model capacity 0, which scheduler_create refuses.
- RouteHistory.LookupAfterHistory: from 2^32 additions on the sequence counter wraps and ages no longer tell which route is older (RouteLimits.OrderIffFewAdditions), and may tie (RouteLimits.WrappedAgesTie); RouteTable.RouteTable.Lookup then still returns the best match with slots as the last tie-break.
- ip_receive does not look at total_length, so trailing bytes stay in the payload, as in the model.
- ICMP error messages, ip_output and the choice of the source interface: they combine modelled parts with wiring.
- The address entries of the ARP cache, the UDP socket table, hosts, routers, devices, topology: simpler slot tables and wiring.
- Switch forwarding: the receive path of a port filters on the port's own address, so only learning, aging and flushing are modelled.
- Packet ids, freeing of memory, interface timestamps, loss_rate and bandwidth.
- Overflow of 64-bit counters and of the clock, except in the age subtraction, where the clock stays below 2^64.
- Command line, display and logging.
