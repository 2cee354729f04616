/** The connection table of src/protocols/tcp.c. The class updates its array of control blocks in
    place, statement by statement as the C code does; each method is proved against the functions
    on table values, which in turn are built from the block functions of TcpBlock. */
module TcpTable {
  import opened Slots
  import opened Wrappers
  import opened TcpTypes
  import opened TcpBlock

  // ---- tables as values ----

  datatype Table = Table(tcbs: seq<Tcb>, count: int)

  // A segment with its four-tuple, seen from the receiver.
  datatype Datagram = Datagram(tuple: Tuple, segment: Segment)

  // slot is the block that reacted.
  datatype TableTurn = TableTurn(table: Table, out: seq<Datagram>, slot: Option<nat>, taken: Taken,
                                 timeWait: bool, status: Status)

  datatype CallTurn = CallTurn(table: Table, out: seq<Datagram>, accepted: seq<byte>, ok: bool)

  function Exact(tuple: Tuple): Tcb -> bool {
    (t: Tcb) => t.valid && t.state != Listen && t.tuple == tuple
  }

  function Listening(ip: u32, port: u16): Tcb -> bool {
    (t: Tcb) => t.valid && t.state == Listen && (t.tuple.localIp == ip || t.tuple.localIp == 0)
      && t.tuple.localPort == port
  }

  function Unused(): Tcb -> bool {
    (t: Tcb) => !t.valid
  }

  // Segments of the connection `tuple`, as the peer will see them.
  function Outgoing(tuple: Tuple, out: seq<Segment>): seq<Datagram> {
    seq(|out|, i requires 0 <= i < |out| => Datagram(tuple.Mirror(), out[i]))
  }

  // tcp_alloc_tcb and the opening code in one: the block t goes into the first unused slot.
  function Install(s: Table, t: Tcb): Option<(Table, nat)> {
    match First(s.tcbs, Unused())
    case None => None
    case Some(i) => Some((Table(s.tcbs[i := t], s.count + 1), i))
  }

  // A block that becomes the zero block was released, which lowers the count.
  function Replace(s: Table, i: nat, t: Tcb): Table
    requires i < |s.tcbs|
  {
    Table(s.tcbs[i := t], if s.tcbs[i].valid && !t.valid && s.count > 0 then s.count - 1 else s.count)
  }

  function ListenOn(s: Table, ip: u32, port: u16): Option<(Table, nat)> {
    if port == 0 || First(s.tcbs, Listening(ip, port)).Some? then None
    else Install(s, ZERO_TCB.(valid := true, tuple := Tuple(ip, port, 0, 0), state := Listen))
  }

  function ConnectTo(s: Table, tuple: Tuple, now: nat, sendOk: bool): CallTurn {
    var refused := CallTurn(s, [], [], false);
    if !tuple.Complete() || First(s.tcbs, Exact(tuple)).Some? then refused
    else match OpenActive(tuple, now, sendOk)
      case None => refused
      case Some((t, m)) =>
        match Install(s, t)
        case None => refused
        case Some((s1, _)) => CallTurn(s1, Outgoing(t.tuple, [m]), [], true)
  }

  function Receive(s: Table, d: Datagram, now: nat, sendOk: bool): TableTurn {
    match First(s.tcbs, Exact(d.tuple))
    case Some(i) =>
      var r := OnSegment(s.tcbs[i], d.segment, sendOk);
      TableTurn(Replace(s, i, r.tcb), Outgoing(s.tcbs[i].tuple, r.out), Some(i), r.taken, r.timeWait, r.status)
    case None =>
      var dropped := TableTurn(s, [], None, Nothing, false, Dropped);
      if d.segment.flags != SYN || First(s.tcbs, Listening(d.tuple.localIp, d.tuple.localPort)).None? then dropped
      else if First(s.tcbs, Unused()).None? then dropped
      else match OpenPassive(d.tuple, d.segment.seqNum, now, sendOk)
        case None => TableTurn(s, [], None, Nothing, false, Errored)
        case Some((t, m)) =>
          var (s1, i) := Install(s, t).value;
          TableTurn(s1, Outgoing(t.tuple, [m]), Some(i), Nothing, false, Consumed)
  }

  function Call(s: Table, i: nat, r: Outcome): CallTurn
    requires i < |s.tcbs|
  {
    CallTurn(Replace(s, i, r.tcb), Outgoing(s.tcbs[i].tuple, r.out), r.accepted, r.ok)
  }

  function Expire(s: Table, i: nat): Table
    requires i < |s.tcbs|
  {
    Replace(s, i, OnTimeWaitExpiry(s.tcbs[i]))
  }

  // ---- the table in memory ----

  class TcpTable {
    const tcbs: array<Tcb>
    var count: int

    // An unused slot is all zeros, as memset leaves it.
    ghost predicate Valid()
      reads this, tcbs
    {
      tcbs.Length == TCP_MAX_CONNS && count >= 0
      && forall k :: 0 <= k < tcbs.Length && !tcbs[k].valid ==> tcbs[k] == ZERO_TCB
    }

    ghost function Value(): Table
      reads this, tcbs
    {
      Table(tcbs[..], count)
    }

    constructor ()
      ensures Valid() && fresh(tcbs)
      ensures Value() == Table(seq(TCP_MAX_CONNS, _ => ZERO_TCB), 0)
    {
      tcbs := new Tcb[TCP_MAX_CONNS](_ => ZERO_TCB);
      count := 0;
    }

    // tcp_alloc_tcb
    method Alloc() returns (slot: Option<nat>)
      requires Valid()
      modifies this, tcbs
      ensures Valid()
      ensures slot == First(old(tcbs[..]), Unused())
      ensures slot.None? ==> Value() == old(Value())
      ensures slot.Some? ==> Value() == Table(old(tcbs[..])[slot.value := ZERO_TCB.(valid := true)], old(count) + 1)
    {
      for i := 0 to TCP_MAX_CONNS
        invariant tcbs[..] == old(tcbs[..]) && count == old(count)
        invariant forall k :: 0 <= k < i ==> !Unused()(tcbs[k])
      {
        if !tcbs[i].valid {
          tcbs[i] := ZERO_TCB;
          tcbs[i] := tcbs[i].(valid := true);
          count := count + 1;
          return Some(i);
        }
      }
      return None;
    }

    // tcp_release_tcb
    method Release(i: nat)
      requires Valid() && i < tcbs.Length
      modifies this, tcbs
      ensures Valid()
      ensures Value() == Table(old(tcbs[..])[i := ZERO_TCB], if old(count) > 0 then old(count) - 1 else 0)
    {
      tcbs[i] := ZERO_TCB;
      if count > 0 {
        count := count - 1;
      }
    }

    method FindExact(tuple: Tuple) returns (slot: Option<nat>)
      requires Valid()
      ensures slot == First(tcbs[..], Exact(tuple))
    {
      for i := 0 to TCP_MAX_CONNS
        invariant forall k :: 0 <= k < i ==> !Exact(tuple)(tcbs[k])
      {
        var t := tcbs[i];
        if t.valid && t.state != Listen && t.tuple.localIp == tuple.localIp && t.tuple.localPort == tuple.localPort
           && t.tuple.remoteIp == tuple.remoteIp && t.tuple.remotePort == tuple.remotePort {
          return Some(i);
        }
      }
      return None;
    }

    method FindListener(ip: u32, port: u16) returns (slot: Option<nat>)
      requires Valid()
      ensures slot == First(tcbs[..], Listening(ip, port))
    {
      for i := 0 to TCP_MAX_CONNS
        invariant forall k :: 0 <= k < i ==> !Listening(ip, port)(tcbs[k])
      {
        var t := tcbs[i];
        if t.valid && t.state == Listen && (t.tuple.localIp == ip || t.tuple.localIp == 0)
           && t.tuple.localPort == port {
          return Some(i);
        }
      }
      return None;
    }

    // tcp_sendq_track
    method TrackSegment(i: nat, clone: Segment, start: u32, end: u32, now: nat) returns (ok: bool)
      requires Valid() && i < tcbs.Length
      modifies tcbs
      ensures old(tcbs[i]).valid ==> Valid()
      ensures ok == Track(old(tcbs[i]), clone, start, end, now).Some?
      ensures tcbs[..] == if ok then old(tcbs[..])[i := Track(old(tcbs[i]), clone, start, end, now).value]
                          else old(tcbs[..])
    {
      if tcbs[i].sendqCount >= TCP_MAX_INFLIGHT {
        return false;
      }
      if tcbs[i].slot.pkt.None? {
        tcbs[i] := tcbs[i].(slot := Slot(Some(clone), start, end, clone.flags, now, 0, false));
        tcbs[i] := tcbs[i].(sendqCount := tcbs[i].sendqCount + 1);
        return true;
      }
      return false;
    }

    // tcp_sendq_ack
    method AckSegments(i: nat, ack: u32)
      requires Valid() && i < tcbs.Length
      modifies tcbs
      ensures Valid() && tcbs[..] == old(tcbs[..])[i := AckQueue(old(tcbs[i]), ack)]
    {
      if tcbs[i].slot.pkt.Some? && ack >= tcbs[i].slot.seqEnd {
        tcbs[i] := tcbs[i].(slot := tcbs[i].slot.(acked := true));
        tcbs[i] := tcbs[i].(slot := tcbs[i].slot.(pkt := None));
        tcbs[i] := tcbs[i].(sendqCount := tcbs[i].sendqCount - 1);
      }
    }

    method ListenCall(ip: u32, port: u16) returns (slot: Option<nat>)
      requires Valid()
      modifies this, tcbs
      ensures Valid()
      ensures match ListenOn(old(Value()), ip, port)
              case None => slot == None && Value() == old(Value())
              case Some((table, i)) => slot == Some(i) && Value() == table
    {
      if port == 0 {
        return None;
      }
      var listener := FindListener(ip, port);
      if listener.Some? {
        return None;
      }
      slot := Alloc();
      if slot.Some? {
        var i := slot.value;
        tcbs[i] := tcbs[i].(tuple := Tuple(ip, port, 0, 0));
        tcbs[i] := tcbs[i].(state := Listen);
      }
    }

    method ConnectCall(tuple: Tuple, now: nat, sendOk: bool) returns (ok: bool, out: seq<Datagram>)
      requires Valid()
      modifies this, tcbs
      ensures Valid()
      ensures var r := ConnectTo(old(Value()), tuple, now, sendOk); Value() == r.table && ok == r.ok && out == r.out
    {
      hide First;
      if tuple.localIp == 0 || tuple.remoteIp == 0 || tuple.localPort == 0 || tuple.remotePort == 0 {
        return false, [];
      }
      var existing := FindExact(tuple);
      if existing.Some? {
        return false, [];
      }
      var slot := Alloc();
      if slot.None? {
        return false, [];
      }
      var i := slot.value;
      tcbs[i] := tcbs[i].(tuple := tuple, state := SynSent);
      tcbs[i] := tcbs[i].(sndUna := 0, sndNxt := 1, rcvNxt := 0);
      var syn := Segment(0, 0, SYN, []);
      if !sendOk {
        Release(i);
        assert tcbs[..] == old(tcbs[..]);
        return false, [];
      }
      var tracked := TrackSegment(i, syn, 0, 1, now);
      assert tracked;  // so the release that the C code has for a failed tracking is never needed
      return true, [Datagram(tuple.Mirror(), syn)];
    }

    // tcp_send_segment for a pure ACK of block i.
    method SendAck(i: nat, sendOk: bool) returns (out: seq<Segment>)
      requires Valid() && i < tcbs.Length
      ensures out == if sendOk then [PureAck(tcbs[i])] else []
    {
      if !sendOk {
        return [];
      }
      return [Segment(tcbs[i].sndNxt, tcbs[i].rcvNxt, ACK, [])];
    }

    // The switch of tcp_receive for a segment of an existing block, up to ESTABLISHED.
    method OpenBlockReceives(i: nat, m: Segment, sendOk: bool)
      returns (out: seq<Segment>, taken: Taken, status: Status)
      requires Valid() && i < tcbs.Length && tcbs[i].valid
      requires tcbs[i].state == SynSent || tcbs[i].state == SynReceived || tcbs[i].state == Established
      modifies tcbs
      ensures Valid()
      ensures var r := OnSegment(old(tcbs[i]), m, sendOk);
              && tcbs[..] == old(tcbs[..])[i := r.tcb]
              && out == r.out && taken == r.taken && status == r.status && !r.timeWait
    {
      out, taken := [], Nothing;
      match tcbs[i].state
      case SynSent =>
        if m.flags.syn && m.flags.ack && m.ackNum == tcbs[i].sndNxt {
          tcbs[i] := tcbs[i].(rcvNxt := Add32(m.seqNum, 1));
          tcbs[i] := tcbs[i].(sndUna := m.ackNum);
          taken := PeerSyn;
          AckSegments(i, m.ackNum);
          tcbs[i] := tcbs[i].(state := Established);
          out := SendAck(i, sendOk);
          status := if sendOk then Consumed else Errored;
        } else {
          status := Dropped;
        }
      case SynReceived =>
        if m.flags.ack && m.ackNum == tcbs[i].sndNxt {
          tcbs[i] := tcbs[i].(sndUna := m.ackNum);
          AckSegments(i, m.ackNum);
          tcbs[i] := tcbs[i].(state := Established);
          status := Consumed;
        } else {
          status := Dropped;
        }
      case Established =>
        if m.flags.ack {
          if m.ackNum > tcbs[i].sndUna && m.ackNum <= tcbs[i].sndNxt {
            AckSegments(i, m.ackNum);
            tcbs[i] := tcbs[i].(sndUna := m.ackNum);
          }
        }
        if |m.payload| > 0 {
          if m.seqNum == tcbs[i].rcvNxt {
            tcbs[i] := tcbs[i].(rcvNxt := Add32(tcbs[i].rcvNxt, |m.payload|));
            taken := Data(m.payload, sendOk);
          }
          out := SendAck(i, sendOk);
          status := if sendOk then Consumed else Errored;
          return;
        }
        if m.flags.fin && m.seqNum == tcbs[i].rcvNxt {
          tcbs[i] := tcbs[i].(rcvNxt := Add32(m.seqNum, 1));
          taken := PeerFin;
          out := SendAck(i, sendOk);
          if sendOk {
            tcbs[i] := tcbs[i].(state := CloseWait);
          }
          status := if sendOk then Consumed else Errored;
          return;
        }
        status := if m.flags.fin then Dropped else Consumed;
    }

    // The rest of the switch: the closing states, and the states that ignore segments.
    method ClosingBlockReceives(i: nat, m: Segment, sendOk: bool)
      returns (out: seq<Segment>, taken: Taken, timeWait: bool, status: Status)
      requires Valid() && i < tcbs.Length && tcbs[i].valid
      requires tcbs[i].state != SynSent && tcbs[i].state != SynReceived && tcbs[i].state != Established
      modifies this, tcbs
      ensures Valid()
      ensures var r := OnSegment(old(tcbs[i]), m, sendOk);
              && Value() == Replace(old(Value()), i, r.tcb)
              && out == r.out && taken == r.taken && timeWait == r.timeWait && status == r.status
    {
      out, taken, timeWait, status := [], Nothing, false, Consumed;
      match tcbs[i].state
      case FinWait1 =>
        if m.flags.ack && m.ackNum > tcbs[i].sndUna {
          tcbs[i] := tcbs[i].(sndUna := m.ackNum);
          AckSegments(i, m.ackNum);
          if !FinStillUnacked(tcbs[i]) {
            tcbs[i] := tcbs[i].(state := FinWait2);
          }
        } else {
          status := Dropped;
        }
      case FinWait2 =>
        if m.flags.fin && m.seqNum == tcbs[i].rcvNxt {
          tcbs[i] := tcbs[i].(rcvNxt := Add32(m.seqNum, 1));
          taken := PeerFin;
          out := SendAck(i, sendOk);
          if !sendOk {
            status := Errored;
            return;
          }
          tcbs[i] := tcbs[i].(state := TimeWait);
          timeWait := true;
        }
      case Closing =>
        if m.ackNum > tcbs[i].sndUna {
          tcbs[i] := tcbs[i].(sndUna := m.ackNum);
          AckSegments(i, m.ackNum);
          if !FinStillUnacked(tcbs[i]) {
            tcbs[i] := tcbs[i].(state := TimeWait);
            timeWait := true;
          }
        } else {
          status := Dropped;
        }
      case LastAck =>
        if m.flags.ack && m.ackNum > tcbs[i].sndUna {
          tcbs[i] := tcbs[i].(sndUna := m.ackNum);
          AckSegments(i, m.ackNum);
          if !FinStillUnacked(tcbs[i]) {
            Release(i);
          }
        } else {
          status := Dropped;
        }
      case TimeWait =>
      case _ =>
        status := Dropped;
    }

    // A listener answers a SYN with a child block in SYN_RECEIVED.
    method ListenerReceives(d: Datagram, now: nat, sendOk: bool)
      returns (out: seq<Datagram>, slot: Option<nat>, status: Status)
      requires Valid() && d.segment.flags == SYN && First(tcbs[..], Exact(d.tuple)).None?
      requires First(tcbs[..], Listening(d.tuple.localIp, d.tuple.localPort)).Some?
      modifies this, tcbs
      ensures Valid()
      ensures var r := Receive(old(Value()), d, now, sendOk);
              && Value() == r.table && out == r.out && slot == r.slot && status == r.status
    {
      hide First, OnSegment, Listening;
      slot := Alloc();
      if slot.None? {
        return [], None, Dropped;
      }
      var i := slot.value;
      tcbs[i] := tcbs[i].(tuple := d.tuple, state := SynReceived);
      tcbs[i] := tcbs[i].(sndUna := 0, sndNxt := 1, rcvNxt := Add32(d.segment.seqNum, 1));
      if !sendOk {
        Release(i);
        assert tcbs[..] == old(tcbs[..]);
        return [], None, Errored;
      }
      var synAck := Segment(0, tcbs[i].rcvNxt, SYN_ACK, []);
      var tracked := TrackSegment(i, synAck, 0, 1, now);
      assert tracked;
      return [Datagram(d.tuple.Mirror(), synAck)], slot, Consumed;
    }

    // tcp_receive, once the header has been parsed.
    method ReceiveDatagram(d: Datagram, now: nat, sendOk: bool)
      returns (out: seq<Datagram>, slot: Option<nat>, taken: Taken, timeWait: bool, status: Status)
      requires Valid()
      modifies this, tcbs
      ensures Valid()
      ensures TableTurn(Value(), out, slot, taken, timeWait, status) == Receive(old(Value()), d, now, sendOk)
    {
      hide First;
      out, taken, timeWait, status := [], Nothing, false, Dropped;
      slot := FindExact(d.tuple);
      if slot.None? {
        if d.segment.flags == SYN {
          var listener := FindListener(d.tuple.localIp, d.tuple.localPort);
          if listener.Some? {
            out, slot, status := ListenerReceives(d, now, sendOk);
          }
        }
        return;
      }
      var i, sent := slot.value, [];
      ghost var before := tcbs[i];
      var state := tcbs[i].state;
      if state == SynSent || state == SynReceived || state == Established {
        sent, taken, status := OpenBlockReceives(i, d.segment, sendOk);
      } else {
        sent, taken, timeWait, status := ClosingBlockReceives(i, d.segment, sendOk);
      }
      out := seq(|sent|, k requires 0 <= k < |sent| => Datagram(d.tuple.Mirror(), sent[k]));
      assert out == Outgoing(before.tuple, sent);
    }

    // tcp_send
    method SendCall(i: nat, data: seq<byte>, now: nat, sendOk: bool)
      returns (ok: bool, out: seq<Datagram>, ghost accepted: seq<byte>)
      requires Valid() && i < tcbs.Length
      modifies this, tcbs
      ensures Valid()
      ensures CallTurn(Value(), out, accepted, ok) == Call(old(Value()), i, OnSend(old(tcbs[i]), data, now, sendOk))
    {
      accepted := [];
      if !tcbs[i].valid || tcbs[i].state != Established {
        return false, [], [];
      }
      if |data| == 0 {
        return true, [], [];
      }
      var sendLen := if |data| > TCP_MSS then TCP_MSS else |data|;
      if HasUnacked(tcbs[i]) || !sendOk {
        return false, [], [];
      }
      var oldNxt, chunk := tcbs[i].sndNxt, data[..sendLen];
      var m := Segment(oldNxt, tcbs[i].rcvNxt, PSH_ACK, chunk);
      out := [Datagram(tcbs[i].tuple.Mirror(), m)];
      ok := TrackSegment(i, m, oldNxt, Add32(oldNxt, sendLen), now);
      if ok {
        tcbs[i] := tcbs[i].(sndNxt := Add32(oldNxt, sendLen));
        accepted := chunk;
      }
    }

    // tcp_close
    method CloseCall(i: nat, now: nat, sendOk: bool) returns (ok: bool, out: seq<Datagram>)
      requires Valid() && i < tcbs.Length
      modifies this, tcbs
      ensures Valid()
      ensures CallTurn(Value(), out, [], ok) == Call(old(Value()), i, OnClose(old(tcbs[i]), now, sendOk))
    {
      var oldState := tcbs[i].state;
      if !tcbs[i].valid || (oldState != Established && oldState != CloseWait) {
        return false, [];
      }
      if HasUnacked(tcbs[i]) || !sendOk {
        return false, [];
      }
      var m := Segment(tcbs[i].sndNxt, tcbs[i].rcvNxt, FIN_ACK, []);
      out := [Datagram(tcbs[i].tuple.Mirror(), m)];
      ok := TrackSegment(i, m, tcbs[i].sndNxt, Add32(tcbs[i].sndNxt, 1), now);
      if ok {
        tcbs[i] := tcbs[i].(sndNxt := Add32(tcbs[i].sndNxt, 1));
        if oldState == Established {
          tcbs[i] := tcbs[i].(state := FinWait1);
        } else {
          tcbs[i] := tcbs[i].(state := LastAck);
        }
      }
    }

    // tcp_retransmit_handler
    method RetransmitCall(i: nat, now: nat, sendOk: bool) returns (ok: bool, out: seq<Datagram>)
      requires Valid() && i < tcbs.Length
      modifies this, tcbs
      ensures Valid()
      ensures CallTurn(Value(), out, [], ok) == Call(old(Value()), i, OnRetransmit(old(tcbs[i]), now, sendOk))
    {
      if !tcbs[i].valid {
        return false, [];
      }
      if tcbs[i].slot.pkt.Some? && !tcbs[i].slot.acked && sendOk {
        out := [Datagram(tcbs[i].tuple.Mirror(), tcbs[i].slot.pkt.value)];
        tcbs[i] := tcbs[i].(slot := tcbs[i].slot.(retransmits := tcbs[i].slot.retransmits + 1));
        tcbs[i] := tcbs[i].(slot := tcbs[i].slot.(sentTs := now));
        return true, out;
      }
      return false, [];
    }

    // tcp_time_wait_handler
    method TimeWaitCall(i: nat)
      requires Valid() && i < tcbs.Length
      modifies this, tcbs
      ensures Valid() && Value() == Expire(old(Value()), i)
    {
      if tcbs[i].valid && tcbs[i].state == TimeWait {
        Release(i);
      }
    }
  }
}
