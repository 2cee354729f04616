/** The receive state machine read by what can be observed of it instead of state by state: what is
    answered, what is consumed, what counts as an acknowledgement, which states are entered and what
    the status is. The laws hold of arbitrary segments. Then the calls, and how blocks are opened in
    a table. */
module TcpLaws {
  import opened Slots
  import opened Wrappers
  import opened TcpTypes
  import opened TcpBlock
  import opened TcpTable
  import H = TcpHosts
  import P = TcpPair

  // ---- one segment ----

  // The acknowledgement field counts: of the own SYN in the opening states, of something in flight when
  // ESTABLISHED, and of anything beyond snd_una while a FIN is in flight.
  predicate AckCounts(t: Tcb, m: Segment) {
    match t.state
    case SynSent => m.flags.syn && m.flags.ack && m.ackNum == t.sndNxt
    case SynReceived => m.flags.ack && m.ackNum == t.sndNxt
    case Established => m.flags.ack && t.sndUna < m.ackNum <= t.sndNxt
    case FinWait1 | LastAck => m.flags.ack && t.sndUna < m.ackNum
    case Closing => t.sndUna < m.ackNum
    case _ => false
  }

  predicate TakesData(t: Tcb, m: Segment) {
    t.state == Established && m.payload != [] && m.seqNum == t.rcvNxt
  }

  predicate TakesFin(t: Tcb, m: Segment) {
    m.flags.fin && m.seqNum == t.rcvNxt && (t.state == FinWait2 || (t.state == Established && m.payload == []))
  }

  // What a segment makes a block consume, and that rcv_nxt moves by exactly that.
  lemma WhatIsConsumed(t: Tcb, m: Segment, sendOk: bool)
    requires t.valid
    ensures var r := OnSegment(t, m, sendOk);
            && (r.taken == PeerSyn <==> t.state == SynSent && AckCounts(t, m))
            && (r.taken.Data? <==> TakesData(t, m)) && (r.taken == PeerFin <==> TakesFin(t, m))
            && (r.taken.Data? ==> r.taken == Data(m.payload, sendOk))
    ensures var r := OnSegment(t, m, sendOk);
            r.tcb.valid ==>
              r.tcb.rcvNxt == if TakesData(t, m) then Add32(t.rcvNxt, |m.payload|)
                              else if TakesFin(t, m) || r.taken == PeerSyn then Add32(m.seqNum, 1)
                              else t.rcvNxt
  {}

  // A block answers at most one segment, a pure ACK with its numbers after the step: exactly when it
  // consumed something or got data while ESTABLISHED, and the local send works.
  lemma WhatIsAnswered(t: Tcb, m: Segment, sendOk: bool)
    requires t.valid
    ensures var r := OnSegment(t, m, sendOk);
            r.out == if sendOk && (r.taken != Nothing || (t.state == Established && m.payload != []))
                     then [Segment(r.tcb.sndNxt, r.tcb.rcvNxt, ACK, [])] else []
    ensures OnSegment(t, m, sendOk).status == Errored <==> !sendOk && OnSegment(t, m, true).out != []
  {}

  // What counts as an acknowledgement moves snd_una to it and frees a covered segment; nothing else
  // touches the send side.
  lemma WhatIsAcknowledged(t: Tcb, m: Segment, sendOk: bool)
    requires t.valid
    ensures var t1 := OnSegment(t, m, sendOk).tcb;
            t1.valid ==>
              && t1.sndNxt == t.sndNxt && t1.tuple == t.tuple
              && t1.sndUna == (if AckCounts(t, m) then m.ackNum else t.sndUna)
    ensures var t1 := OnSegment(t, m, sendOk).tcb; t1.valid ==> QueueAfter(t, m, t1)
  {
    if t.state == Established {
      EstablishedQueue(t, m, sendOk);
    } else {
      NumbersAfter(t, m, sendOk);
      QueueIsFreed(t, m, sendOk);
    }
    hide OnSegment;
  }

  predicate QueueAfter(t: Tcb, m: Segment, t1: Tcb) {
    if AckCounts(t, m) && t.slot.pkt.Some? && m.ackNum >= t.slot.seqEnd
    then t1.slot.pkt == None && t1.sendqCount == t.sendqCount - 1
    else t1.slot == t.slot && t1.sendqCount == t.sendqCount
  }

  lemma EstablishedQueue(t: Tcb, m: Segment, sendOk: bool)
    requires t.valid && t.state == Established
    ensures var t1 := OnSegment(t, m, sendOk).tcb;
            && t1.sndNxt == t.sndNxt && t1.tuple == t.tuple
            && t1.sndUna == (if AckCounts(t, m) then m.ackNum else t.sndUna)
            && QueueAfter(t, m, t1)
  {}

  lemma NumbersAfter(t: Tcb, m: Segment, sendOk: bool)
    requires t.valid && t.state != Established
    ensures var t1 := OnSegment(t, m, sendOk).tcb;
            t1.valid ==>
              && t1.sndNxt == t.sndNxt && t1.tuple == t.tuple
              && t1.sndUna == (if AckCounts(t, m) then m.ackNum else t.sndUna)
  {}

  lemma QueueIsFreed(t: Tcb, m: Segment, sendOk: bool)
    requires t.valid && t.state != Established
    ensures var t1 := OnSegment(t, m, sendOk).tcb; t1.valid ==> QueueAfter(t, m, t1)
  {}

  // Which state is entered, for a block in its invariant: by the handshake ESTABLISHED, by a consumed FIN
  // whose answer goes out CLOSE_WAIT or TIME_WAIT, by the acknowledgement of the own FIN FIN_WAIT_2 or the
  // end of the connection. In all other cases the state stays.
  lemma WhichStateIsEntered(t: Tcb, m: Segment, sendOk: bool)
    requires t.valid && BlockInv(t)
    ensures t.state != LastAck ==> OnSegment(t, m, sendOk).tcb.state == EnteredState(t, m, sendOk)
    ensures t.state == LastAck ==>
      if AckCounts(t, m) then OnSegment(t, m, sendOk).tcb == ZERO_TCB else OnSegment(t, m, sendOk).tcb == t
  {}

  function EnteredState(t: Tcb, m: Segment, sendOk: bool): State {
    if (t.state == SynSent || t.state == SynReceived) && AckCounts(t, m) then Established
    else if TakesFin(t, m) && sendOk then (if t.state == Established then CloseWait else TimeWait)
    else if t.state == FinWait1 && AckCounts(t, m) then FinWait2
    else t.state
  }

  // A segment is dropped when its state has no use for it: no acknowledgement that counts in a state that
  // waits for one, a lone FIN out of order while ESTABLISHED, or anything in CLOSE_WAIT or LISTEN.
  lemma WhatIsDropped(t: Tcb, m: Segment, sendOk: bool)
    requires t.valid
    ensures OnSegment(t, m, sendOk).status == Dropped <==>
              match t.state
              case Established => m.payload == [] && m.flags.fin && m.seqNum != t.rcvNxt
              case FinWait2 | TimeWait => false
              case _ => !AckCounts(t, m)
    ensures OnSegment(t, m, sendOk).status == Dropped ==> OnSegment(t, m, sendOk).out == []
  {}

  // Data for an ESTABLISHED endpoint is answered by one acknowledgement of what the endpoint has then, also
  // when it has the data already or cannot take it yet, and data in order is handed over as it came.
  lemma DataIsAlwaysAnswered(e: P.Endpoint, m: Segment, now: nat, admit: bool)
    requires e.tcb.valid && e.tcb.state == Established && m.payload != []
    ensures var t := P.Act(e, P.Receive(m, now, admit, true));
            && t.out == [Segment(e.tcb.sndNxt, t.end.tcb.rcvNxt, ACK, [])]
            && t.end.delivered == e.delivered + (if m.seqNum == e.tcb.rcvNxt then m.payload else [])
            && t.end.tcb.rcvNxt == (if m.seqNum == e.tcb.rcvNxt then Add32(m.seqNum, |m.payload|) else e.tcb.rcvNxt)
    ensures var t := P.Act(e, P.Receive(m, now, admit, false));
            t.out == [] && t.end.delivered == e.delivered
            && t.end.missed == e.missed + (if m.seqNum == e.tcb.rcvNxt then 1 else 0)
  {
    WhatIsAnswered(e.tcb, m, true);
    WhatIsAnswered(e.tcb, m, false);
    WhatIsConsumed(e.tcb, m, true);
    WhatIsConsumed(e.tcb, m, false);
    EstablishedStays(e.tcb, m, true);
    hide OnSegment;
  }

  lemma EstablishedStays(t: Tcb, m: Segment, sendOk: bool)
    requires t.valid && t.state == Established && m.payload != []
    ensures var t1 := OnSegment(t, m, sendOk).tcb; t1.valid && t1.state == Established && t1.sndNxt == t.sndNxt
  {}

  // ---- calls ----

  // What is put in the queue: the segment itself, sent now and never again so far.
  function Queued(m: Segment, end: u32, now: nat): Slot {
    Slot(Some(m), m.seqNum, end, m.flags, now, 0, false)
  }

  // A tcp_send or tcp_close that is refused, or a retransmission with nothing to send, changes nothing.
  lemma RefusedCalls(t: Tcb, data: seq<byte>, now: nat, sendOk: bool)
    requires BlockInv(t)
    ensures !OnSend(t, data, now, sendOk).ok ==> OnSend(t, data, now, sendOk) == Outcome(t, [], [], false)
    ensures !OnClose(t, now, sendOk).ok ==> OnClose(t, now, sendOk) == Outcome(t, [], [], false)
    ensures !OnRetransmit(t, now, sendOk).ok ==> OnRetransmit(t, now, sendOk) == Outcome(t, [], [], false)
    ensures OnRetransmit(t, now, sendOk).ok <==> t.valid && t.slot.pkt.Some? && sendOk
  {}

  // A call that sends puts exactly the segment it sent into the queue.
  lemma CallsThatSend(t: Tcb, data: seq<byte>, now: nat, sendOk: bool)
    requires BlockInv(t)
    ensures var r := OnSend(t, data, now, sendOk);
            r.out != [] ==>
              var m := Segment(t.sndNxt, t.rcvNxt, PSH_ACK, r.accepted);
              && r.out == [m] && r.accepted == data[..Min(|data|, 1460)]
              && r.tcb == t.(sndNxt := Add32(t.sndNxt, |r.accepted|), sendqCount := 1,
                             slot := Queued(m, Add32(t.sndNxt, |r.accepted|), now))
    ensures var r := OnClose(t, now, sendOk);
            r.out != [] ==>
              var m := Segment(t.sndNxt, t.rcvNxt, FIN_ACK, []);
              && r.out == [m]
              && r.tcb == t.(sndNxt := Add32(t.sndNxt, 1), sendqCount := 1, slot := Queued(m, Add32(t.sndNxt, 1), now),
                             state := if t.state == CloseWait then LastAck else FinWait1)
    ensures OnClose(t, now, sendOk).ok ==> OnClose(t, now, sendOk).out != []
    ensures OnSend(t, data, now, sendOk).ok && data != [] ==> OnSend(t, data, now, sendOk).out != []
  {}

  // A retransmission sends what the queue holds, byte for byte, and only counts it.
  lemma RetransmissionRepeats(t: Tcb, now: nat, sendOk: bool)
    requires OnRetransmit(t, now, sendOk).ok
    ensures t.slot.pkt.Some? && OnRetransmit(t, now, sendOk).out == [t.slot.pkt.value]
    ensures var t1 := OnRetransmit(t, now, sendOk).tcb;
            && t1.slot.retransmits == t.slot.retransmits + 1 && t1.slot.sentTs == now
            && t1 == t.(slot := t.slot.(retransmits := t1.slot.retransmits, sentTs := now))
  {}

  // ---- opening in a table ----

  ghost predicate Connected(s: Table, tuple: Tuple) {
    exists i :: 0 <= i < |s.tcbs| && s.tcbs[i].valid && s.tcbs[i].state != Listen && s.tcbs[i].tuple == tuple
  }

  // A listener on address 0 is one for every address.
  predicate ListensFor(t: Tcb, ip: u32, port: u16) {
    t.valid && t.state == Listen && t.tuple.localPort == port && (t.tuple.localIp == 0 || t.tuple.localIp == ip)
  }

  ghost predicate Listened(s: Table, ip: u32, port: u16) {
    exists i :: 0 <= i < |s.tcbs| && ListensFor(s.tcbs[i], ip, port)
  }

  ghost predicate FirstFree(s: Table, i: nat) {
    i < |s.tcbs| && !s.tcbs[i].valid && forall k :: 0 <= k < i ==> s.tcbs[k].valid
  }

  ghost predicate Full(s: Table) {
    forall i :: 0 <= i < |s.tcbs| ==> s.tcbs[i].valid
  }

  // The block t went into the first free slot.
  ghost predicate Added(s: Table, t: Tcb, s1: Table, i: nat) {
    FirstFree(s, i) && s1 == Table(s.tcbs[i := t], s.count + 1)
  }

  lemma InstallAdds(s: Table, t: Tcb)
    ensures Install(s, t).None? <==> Full(s)
    ensures Install(s, t).Some? ==> Added(s, t, Install(s, t).value.0, Install(s, t).value.1)
  {
    assert First(s.tcbs, Unused()).None? ==> forall k :: 0 <= k < |s.tcbs| ==> !Unused()(s.tcbs[k]);
    assert First(s.tcbs, Unused()).Some? ==>
      forall k :: 0 <= k < First(s.tcbs, Unused()).value ==> !Unused()(s.tcbs[k]);
  }

  lemma ListenersAndConnections(s: Table, ip: u32, port: u16, tuple: Tuple)
    ensures First(s.tcbs, Listening(ip, port)).Some? <==> Listened(s, ip, port)
    ensures First(s.tcbs, Exact(tuple)).Some? <==> Connected(s, tuple)
  {
    if i :| 0 <= i < |s.tcbs| && ListensFor(s.tcbs[i], ip, port) {
      assert Listening(ip, port)(s.tcbs[i]);
    }
    if i :| 0 <= i < |s.tcbs| && s.tcbs[i].valid && s.tcbs[i].state != Listen && s.tcbs[i].tuple == tuple {
      assert Exact(tuple)(s.tcbs[i]);
    }
  }

  // tcp_listen fails exactly for port 0, an address and port that are listened for, or a full table. Its
  // listener then gets what is sent to the port on its address, or on every address if that is 0.
  lemma ListenLaw(s: Table, ip: u32, port: u16)
    ensures ListenOn(s, ip, port).Some? <==> port != 0 && !Listened(s, ip, port) && !Full(s)
    ensures ListenOn(s, ip, port).Some? ==>
      forall ip1: u32, port1: u16 :: Listened(ListenOn(s, ip, port).value.0, ip1, port1) <==>
        Listened(s, ip1, port1) || (port1 == port && (ip == 0 || ip1 == ip))
    ensures ListenOn(s, ip, port).Some? ==>
      forall tuple :: Connected(ListenOn(s, ip, port).value.0, tuple) <==> Connected(s, tuple)
  {
    hide First, Install;
    var t := ZERO_TCB.(valid := true, tuple := Tuple(ip, port, 0, 0), state := Listen);
    InstallAdds(s, t);
    ListenersAndConnections(s, ip, port, Tuple(0, 0, 0, 0));
    if ListenOn(s, ip, port).Some? {
      var (s1, i) := Install(s, t).value;
      AddedListener(s, t, s1, i);
    }
  }

  lemma AddedListener(s: Table, t: Tcb, s1: Table, i: nat)
    requires Added(s, t, s1, i) && t.valid && t.state == Listen
    ensures forall ip1: u32, port1: u16 ::
              Listened(s1, ip1, port1) <==> Listened(s, ip1, port1) || ListensFor(t, ip1, port1)
    ensures forall tuple :: Connected(s1, tuple) <==> Connected(s, tuple)
  {
    assert s1.tcbs[i] == t && forall k :: 0 <= k < |s.tcbs| && k != i ==> s1.tcbs[k] == s.tcbs[k];
  }

  // What a SYN gets that belongs to no connection.
  ghost predicate Accepted(s: Table, d: Datagram, now: nat, r: TableTurn) {
    var end := Add32(d.segment.seqNum, 1);
    var synAck := Segment(0, end, SYN_ACK, []);
    && r.slot.Some?
    && Added(s, Tcb(true, d.tuple, SynReceived, 0, 1, end, Queued(synAck, 1, now), 1), r.table, r.slot.value)
    && r.out == [Datagram(d.tuple.Mirror(), synAck)] && r.status == Consumed
  }

  // A segment that belongs to no connection opens one exactly when it is a SYN, somebody listens for it,
  // a slot is free and the SYN-ACK can be sent; the SYN-ACK acknowledges the number of the SYN. Otherwise
  // it changes and sends nothing.
  lemma SynOpensIff(s: Table, d: Datagram, now: nat, sendOk: bool)
    requires !Connected(s, d.tuple)
    ensures var r := Receive(s, d, now, sendOk);
            if d.segment.flags == SYN && Listened(s, d.tuple.localIp, d.tuple.localPort) && !Full(s) && sendOk
            then Accepted(s, d, now, r)
            else r.table == s && r.out == [] && r.slot.None? && r.status != Consumed
  {
    hide First, OnSegment;
    ListenersAndConnections(s, d.tuple.localIp, d.tuple.localPort, d.tuple);
    var end := Add32(d.segment.seqNum, 1);
    var t := Tcb(true, d.tuple, SynReceived, 0, 1, end, Queued(Segment(0, end, SYN_ACK, []), 1, now), 1);
    InstallAdds(s, t);
  }

  function SynSentBlock(tuple: Tuple, now: nat): Tcb {
    Tcb(true, tuple, SynSent, 0, 1, 0, Queued(Segment(0, 0, SYN, []), 1, now), 1)
  }

  // tcp_connect opens a block exactly for a complete four-tuple that is not connected yet, when a slot is
  // free and the SYN can be sent. Otherwise it changes and sends nothing.
  lemma ConnectOpensIff(s: Table, tuple: Tuple, now: nat, sendOk: bool)
    ensures var r := ConnectTo(s, tuple, now, sendOk);
            && (r.ok <==> tuple.localIp != 0 && tuple.localPort != 0 && tuple.remoteIp != 0 && tuple.remotePort != 0
                          && !Connected(s, tuple) && !Full(s) && sendOk)
            && (!r.ok ==> r.table == s && r.out == [])
            && (r.ok ==>
                  && (exists i :: Added(s, SynSentBlock(tuple, now), r.table, i))
                  && r.out == [Datagram(tuple.Mirror(), Segment(0, 0, SYN, []))])
  {
    hide First;
    ListenersAndConnections(s, 0, 0, tuple);
    InstallAdds(s, SynSentBlock(tuple, now));
  }

  // So after a successful tcp_listen a SYN that belongs to no connection is accepted on the port on the
  // given address, or on any address if that was 0, besides where it was accepted before.
  lemma ListenThenSyn(s: Table, ip: u32, port: u16, d: Datagram, now: nat)
    requires ListenOn(s, ip, port).Some? && !Connected(s, d.tuple) && d.segment.flags == SYN
    requires !Full(ListenOn(s, ip, port).value.0)
    ensures var s1 := ListenOn(s, ip, port).value.0;
            Accepted(s1, d, now, Receive(s1, d, now, true)) <==>
              Listened(s, d.tuple.localIp, d.tuple.localPort)
              || (d.tuple.localPort == port && (ip == 0 || d.tuple.localIp == ip))
  {
    hide First, Receive, ListenOn;
    ListenLaw(s, ip, port);
    SynOpensIff(ListenOn(s, ip, port).value.0, d, now, true);
  }

  // The block of slot i is the only one with this four-tuple.
  ghost predicate OnlyOne(s: Table, tuple: Tuple, i: nat) {
    && i < |s.tcbs| && s.tcbs[i].valid && s.tcbs[i].state != Listen && s.tcbs[i].tuple == tuple
    && forall k :: 0 <= k < |s.tcbs| && k != i && s.tcbs[k].valid && s.tcbs[k].state != Listen ==>
         s.tcbs[k].tuple != tuple
  }

  // A segment of a connection goes to its block, listeners or not, and touches no other slot; the count
  // falls when the block is released.
  lemma ConnectionReceives(s: Table, d: Datagram, now: nat, sendOk: bool, i: nat)
    requires OnlyOne(s, d.tuple, i) && s.count > 0
    ensures var r, b := Receive(s, d, now, sendOk), OnSegment(s.tcbs[i], d.segment, sendOk);
            && r.table == Table(s.tcbs[i := b.tcb], if b.tcb.valid then s.count else s.count - 1)
            && r.slot == Some(i) && r.taken == b.taken && r.timeWait == b.timeWait && r.status == b.status
            && |r.out| == |b.out| && forall k :: 0 <= k < |b.out| ==> r.out[k] == Datagram(d.tuple.Mirror(), b.out[k])
  {
    hide OnSegment;
    assert Exact(d.tuple)(s.tcbs[i]);
    assert First(s.tcbs, Exact(d.tuple)) == Some(i);
  }

  // A step that listens has the effect of tcp_listen.
  lemma ListeningStep(s: Table, ip: u32, port: u16)
    ensures var s1 := H.TableStep(s, H.Listens(ip, port)).table;
            port != 0 && !Full(s) ==> Listened(s1, ip, port)
  {
    hide First, Install;
    ListenLaw(s, ip, port);
    assert ListenOn(s, ip, port).Some? ==> Listened(ListenOn(s, ip, port).value.0, ip, port);
  }
}
